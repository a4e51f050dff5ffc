/** Java objects as they travel through work item parameters and task content maps. */
module Values {

  datatype Option<+T> = None | Some(value: T)

  /** A java.util.Date: the instant it denotes and the text its toString() gives.
      That text depends on the JVM's default time zone, so it is carried, not computed. */
  datatype Date = Date(epochMillis: int, image: string)

  /** A non-null Java object. */
  datatype Value =
    | Str(s: string)                                          // java.lang.String
    | Flag(b: bool)                                           // java.lang.Boolean
    | Instant(d: Date)                                        // java.util.Date
    | Dict(entries: map<string, Option<Value>>, image: string) // a java.util.Map and its toString() text
    | Other(image: string)                                    // any other object, by its toString() text

  /** A java.util.Map<String, Object>; a key may be bound to null (None). */
  type Content = map<string, Option<Value>>

  /** Map.get: null both for an absent key and for a key bound to null. */
  function Get(m: Content, key: string): Option<Value>
  {
    if key in m then m[key] else None
  }

  /** toString(), which String.valueOf also gives for a non-null object. */
  function Text(v: Value): string
  {
    match v
    case Str(s) => s
    case Flag(b) => if b then "true" else "false"
    case Instant(d) => d.image
    case Dict(_, image) => image
    case Other(image) => image
  }

  /** `x != null && StringUtils.equals("true", x.toString())`: case-sensitive, whatever x's type. */
  predicate ReadsTrue(v: Option<Value>)
  {
    v.Some? && Text(v.value) == "true"
  }

  /** The host collaborators' calls that can fail. */
  datatype HostCall = LookupCall | AddTaskCall | ClaimCall | ExecuteCall

  /** The exceptions the modelled code can raise. */
  datatype Fault =
    | ClassCast(key: string)      // a cast of the value held under key failed
    | NullPointer(key: string)    // the value held under key (or the named field) was dereferenced while null
    | HostFailure(call: HostCall) // a host collaborator threw

  datatype Result<+T> = Ok(value: T) | Err(fault: Fault)

  /** The cast `(String) x` of the value held under key: null and strings pass, anything else raises. */
  function AsString(v: Option<Value>, key: string): (r: Result<Option<string>>)
    ensures r.Err? <==> v.Some? && !v.value.Str?
    ensures r.Err? ==> r.fault == ClassCast(key)
    ensures r.Ok? ==> (r.value.None? <==> v.None?)
    ensures r.Ok? && r.value.Some? ==> v == Some(Str(r.value.value))
  {
    match v
    case None => Ok(None)
    case Some(Str(s)) => Ok(Some(s))
    case Some(_) => Err(ClassCast(key))
  }

  /** The cast `(Map<String, Object>) x` of the value held under key. */
  function AsMap(v: Option<Value>, key: string): (r: Result<Option<Content>>)
    ensures r.Err? <==> v.Some? && !v.value.Dict?
    ensures r.Err? ==> r.fault == ClassCast(key)
    ensures r.Ok? ==> (r.value.None? <==> v.None?)
    ensures r.Ok? && r.value.Some? ==> v.Some? && v.value.Dict? && v.value.entries == r.value.value
  {
    match v
    case None => Ok(None)
    case Some(Dict(entries, _)) => Ok(Some(entries))
    case Some(_) => Err(ClassCast(key))
  }
}
