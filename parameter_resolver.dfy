/** The publication task parameter resolver: turns a work item into a publication-approval task,
    carrying the optional un-publication fields of the publish dialog into the task content. */
module ExtendedPublicationTaskParameterResolver {
  import opened Values
  import opened Tasks

  const Repository := "repository"
  const Path := "path"
  const Uuid := "uuid"
  const Recursive := "recursive"
  const Comment := "comment"
  const Requestor := "requestor"
  const Version := "version"
  const PublicationDate := "publicationDate"
  const HasExpiration := "hasExpirationDate"
  const ExpirationDate := "expirationDate"

  /** The keys whose values are copied verbatim into the task content. */
  const CopiedKeys: set<string> := {Repository, Path, Uuid, Recursive, Comment, Requestor, Version}

  /** Every key of the data map that the task content depends on. */
  const ReadKeys: set<string> := CopiedKeys + {PublicationDate, HasExpiration, ExpirationDate}

  /** The task definition's configured assignees. */
  datatype PublicationTaskDefinition = PublicationTaskDefinition(actors: Option<seq<string>>, groups: Option<seq<string>>)

  /** SimpleDateFormat("yyyy-MM-dd'T'HH:mm:ss").parse: a date, or None where it raises ParseException. */
  type Parser = string -> Option<Date>

  /** A resolver instance: its definition and its date parser. */
  datatype Resolver = Resolver(definition: PublicationTaskDefinition, parse: Parser)

  /** The publication dialog asked for un-publication. */
  predicate ExpirationRequested(data: Content)
  {
    ReadsTrue(Get(data, HasExpiration))
  }

  /** getDate: null stays null, anything else is parsed in its string form; a parse failure gives null. */
  function GetDate(raw: Option<Value>, parse: Parser): Option<Date>
  {
    if raw.None? then None else parse(Text(raw.value))
  }

  /** A Date as a content value; null stays null. */
  function DateValue(date: Option<Date>): Option<Value>
  {
    if date.Some? then Some(Instant(date.value)) else None
  }

  /** The whitelisted part of data, null for an absent key. */
  function Copied(data: Content): Content
  {
    map key | key in CopiedKeys :: Get(data, key)
  }

  /** The task content built from data: the copied keys, the parsed publication date and,
      when requested, the two un-publication keys. */
  function TaskContent(data: Content, parse: Parser): Content
  {
    Copied(data)
    + map[PublicationDate := DateValue(GetDate(Get(data, PublicationDate), parse))]
    + (if ExpirationRequested(data)
       then map[HasExpiration := Some(Str("true")), ExpirationDate := Get(data, ExpirationDate)]
       else map[])
  }

  /** The content map of setTaskContent, built by successive puts. */
  method NewTaskContent(data: Content, parse: Parser) returns (taskContent: Content)
    ensures taskContent == TaskContent(data, parse)
  {
    taskContent := map[];
    taskContent := taskContent[Repository := Get(data, Repository)];
    taskContent := taskContent[Path := Get(data, Path)];
    taskContent := taskContent[Uuid := Get(data, Uuid)];
    taskContent := taskContent[Recursive := Get(data, Recursive)];
    taskContent := taskContent[Comment := Get(data, Comment)];
    taskContent := taskContent[Requestor := Get(data, Requestor)];
    taskContent := taskContent[Version := Get(data, Version)];
    CopiedByPuts(data);
    PutsOfDateAndFlag(data, parse);
    var date := GetDate(Get(data, PublicationDate), parse);
    taskContent := taskContent[PublicationDate := DateValue(date)];
    var hasExpirationDate := Get(data, HasExpiration);
    if hasExpirationDate.Some? && Text(hasExpirationDate.value) == "true" {
      taskContent := taskContent[HasExpiration := Some(Str("true"))];
      taskContent := taskContent[ExpirationDate := Get(data, ExpirationDate)];
    }
  }

  /** The puts of publicationDate and of the two expiration keys complete the task content. */
  lemma PutsOfDateAndFlag(data: Content, parse: Parser)
    ensures var dated := Copied(data)[PublicationDate := DateValue(GetDate(Get(data, PublicationDate), parse))];
      && (!ExpirationRequested(data) ==> dated == TaskContent(data, parse))
      && (ExpirationRequested(data) ==>
            dated[HasExpiration := Some(Str("true"))][ExpirationDate := Get(data, ExpirationDate)] == TaskContent(data, parse))
  {
  }

  /** The seven puts of the copied keys build the whitelisted part of data. */
  lemma CopiedByPuts(data: Content)
    ensures map[][Repository := Get(data, Repository)][Path := Get(data, Path)][Uuid := Get(data, Uuid)]
      [Recursive := Get(data, Recursive)][Comment := Get(data, Comment)][Requestor := Get(data, Requestor)]
      [Version := Get(data, Version)] == Copied(data)
  {
  }

  /** setTaskContent: the task's content becomes the projection of data; no other field changes. */
  method SetTaskContent(task: HumanTask, data: Content, parse: Parser)
    modifies task
    ensures task.View() == old(task.View()).(content := Some(TaskContent(data, parse)))
  {
    var taskContent := NewTaskContent(data, parse);
    task.content := Some(taskContent);
  }

  /** What setTaskParameters leaves in a task, and the exception that stopped it, if any. */
  datatype Applied = Applied(task: TaskView, fault: Option<Fault>)

  /** setTaskParameters applied to a task t: name and assignees always, then, when the work item
      carries a data map, comment, requestor and content; each cast may stop it half way. */
  function TaskParameters(r: Resolver, w: WorkItem, t: TaskView): Applied
  {
    match AsString(Parameter(w, TaskName), TaskName)
    case Err(f) => Applied(t, Some(f))
    case Ok(name) =>
      var named := t.(name := name, actorIds := r.definition.actors, groupIds := r.definition.groups);
      match AsMap(Parameter(w, VariableData), VariableData)
      case Err(f) => Applied(named, Some(f))
      case Ok(None) => Applied(named, None)
      case Ok(Some(data)) =>
        match AsString(Get(data, Comment), Comment)
        case Err(f) => Applied(named, Some(f))
        case Ok(comment) =>
          var commented := named.(comment := comment);
          match AsString(Get(data, Requestor), Requestor)
          case Err(f) => Applied(commented, Some(f))
          case Ok(requestor) =>
            Applied(commented.(requestor := requestor, content := Some(TaskContent(data, r.parse))), None)
  }

  /** setTaskParameters: the setter calls in source order; a failing cast returns its exception. */
  method SetTaskParameters(r: Resolver, task: HumanTask, w: WorkItem) returns (fault: Option<Fault>)
    modifies task
    ensures task.View() == TaskParameters(r, w, old(task.View())).task
    ensures fault == TaskParameters(r, w, old(task.View())).fault
  {
    var taskName := AsString(Parameter(w, TaskName), TaskName);
    if taskName.Err? {
      return Some(taskName.fault);
    }
    task.name := taskName.value;
    task.actorIds := r.definition.actors;
    task.groupIds := r.definition.groups;
    var content := AsMap(Parameter(w, VariableData), VariableData);
    if content.Err? {
      return Some(content.fault);
    }
    if content.value.Some? {
      var data := content.value.value;
      var comment := AsString(Get(data, Comment), Comment);
      if comment.Err? {
        return Some(comment.fault);
      }
      task.comment := comment.value;
      var requestor := AsString(Get(data, Requestor), Requestor);
      if requestor.Err? {
        return Some(requestor.fault);
      }
      task.requestor := requestor.value;
      SetTaskContent(task, data, r.parse);
    }
    return None;
  }

  /** createTask: a fresh task with the task parameters applied; the process data that the host's
      setProcessData adds are fields this model does not have. */
  method CreateTask(r: Resolver, w: WorkItem) returns (task: HumanTask, fault: Option<Fault>)
    ensures fresh(task)
    ensures task.View() == TaskParameters(r, w, Blank).task
    ensures fault == TaskParameters(r, w, Blank).fault
  {
    task := new HumanTask();
    fault := SetTaskParameters(r, task, w);
  }

  // Properties of the task content.

  /** The content holds the seven copied keys and publicationDate, and the two expiration keys
      exactly when un-publication was requested; no other key of the data map is copied. */
  lemma TaskContentKeys(data: Content, parse: Parser)
    ensures CopiedKeys + {PublicationDate} <= TaskContent(data, parse).Keys
    ensures HasExpiration in TaskContent(data, parse) <==> ExpirationRequested(data)
    ensures ExpirationDate in TaskContent(data, parse) <==> ExpirationRequested(data)
    ensures forall key :: key in TaskContent(data, parse) ==> key in ReadKeys
  {
  }

  /** Each copied key holds the data map's value, null for an absent key. */
  lemma TaskContentCopies(data: Content, parse: Parser, key: string)
    requires key in CopiedKeys
    ensures TaskContent(data, parse)[key] == Get(data, key)
    ensures key !in data ==> TaskContent(data, parse)[key] == None
  {
  }

  /** When present, hasExpirationDate is the string "true" whatever the flag's type, and
      expirationDate is the data map's value, unparsed. */
  lemma TaskContentExpiration(data: Content, parse: Parser)
    requires ExpirationRequested(data)
    ensures TaskContent(data, parse)[HasExpiration] == Some(Str("true"))
    ensures TaskContent(data, parse)[ExpirationDate] == Get(data, ExpirationDate)
  {
  }

  /** publicationDate is null for a null value or a parse failure, and otherwise the parsed date. */
  lemma TaskContentPublicationDate(data: Content, parse: Parser)
    ensures Get(data, PublicationDate).None? ==> TaskContent(data, parse)[PublicationDate] == None
    ensures Get(data, PublicationDate).Some? && parse(Text(Get(data, PublicationDate).value)).None?
      ==> TaskContent(data, parse)[PublicationDate] == None
    ensures Get(data, PublicationDate).Some? && parse(Text(Get(data, PublicationDate).value)).Some?
      ==> TaskContent(data, parse)[PublicationDate] == Some(Instant(parse(Text(Get(data, PublicationDate).value)).value))
  {
  }

  /** Two data maps that agree on the keys the resolver reads give the same content. */
  lemma TaskContentReadsOnly(data1: Content, data2: Content, parse: Parser)
    requires forall key :: key in ReadKeys ==> Get(data1, key) == Get(data2, key)
    ensures TaskContent(data1, parse) == TaskContent(data2, parse)
  {
  }

  /** The flag test accepts a string only when it is exactly "true", and a Boolean by its value. */
  lemma FlagReadsTrueIff(s: string, b: bool)
    ensures ReadsTrue(Some(Str(s))) <==> s == "true"
    ensures ReadsTrue(Some(Flag(b))) <==> b
    ensures !ReadsTrue(None)
  {
  }

  /** getDate sees a value only through its string form: values of any types with the same
      toString() text give the same date. */
  lemma GetDateByText(a: Value, b: Value, parse: Parser)
    requires Text(a) == Text(b)
    ensures GetDate(Some(a), parse) == GetDate(Some(b), parse)
  {
  }

  // Properties of setTaskParameters.

  /** Once TaskName is read, name comes from it and the assignees from the definition,
      however the rest of setTaskParameters ends. */
  lemma NameAndAssigneesAlwaysSet(r: Resolver, w: WorkItem, t: TaskView)
    requires AsString(Parameter(w, TaskName), TaskName).Ok?
    ensures TaskParameters(r, w, t).task.name == AsString(Parameter(w, TaskName), TaskName).value
    ensures TaskParameters(r, w, t).task.actorIds == r.definition.actors
    ensures TaskParameters(r, w, t).task.groupIds == r.definition.groups
  {
  }

  /** Without a data map, comment, requestor and content are left as they were, and nothing fails
      after the name is read. */
  lemma NullDataLeavesTaskUntouched(r: Resolver, w: WorkItem, t: TaskView)
    requires AsString(Parameter(w, TaskName), TaskName).Ok?
    requires Parameter(w, VariableData).None?
    ensures TaskParameters(r, w, t).fault.None?
    ensures TaskParameters(r, w, t).task.comment == t.comment
    ensures TaskParameters(r, w, t).task.requestor == t.requestor
    ensures TaskParameters(r, w, t).task.content == t.content
  {
  }

  /** With a data map whose comment and requestor are strings or null, they are copied and the
      content is the projection of the data map. */
  lemma DataMapCopied(r: Resolver, w: WorkItem, t: TaskView, data: Content, image: string)
    requires AsString(Parameter(w, TaskName), TaskName).Ok?
    requires Parameter(w, VariableData) == Some(Dict(data, image))
    requires AsString(Get(data, Comment), Comment).Ok? && AsString(Get(data, Requestor), Requestor).Ok?
    ensures TaskParameters(r, w, t).fault.None?
    ensures TaskParameters(r, w, t).task.comment == AsString(Get(data, Comment), Comment).value
    ensures TaskParameters(r, w, t).task.requestor == AsString(Get(data, Requestor), Requestor).value
    ensures TaskParameters(r, w, t).task.content == Some(TaskContent(data, r.parse))
  {
  }

  /** setTaskParameters fails exactly when one of its casts meets a value of the wrong type. */
  lemma TaskParametersFailIff(r: Resolver, w: WorkItem, t: TaskView)
    ensures TaskParameters(r, w, t).fault.Some? <==>
      || AsString(Parameter(w, TaskName), TaskName).Err?
      || AsMap(Parameter(w, VariableData), VariableData).Err?
      || (Parameter(w, VariableData).Some? && Parameter(w, VariableData).value.Dict? &&
          (|| AsString(Get(Parameter(w, VariableData).value.entries, Comment), Comment).Err?
           || AsString(Get(Parameter(w, VariableData).value.entries, Requestor), Requestor).Err?))
  {
  }
}
