/** The null-safe string helpers of commons-lang3's StringUtils that the workflow code uses. */
module StringUtils {
  import opened Values

  /** search occurs in s, found by scanning s from the left (String.indexOf(search) >= 0). */
  predicate Occurs(s: string, search: string)
    decreases |s|
  {
    (|search| <= |s| && s[..|search|] == search) || (|s| > 0 && Occurs(s[1..], search))
  }

  /** search occurs in s at position i. */
  predicate OccursAt(s: string, search: string, i: int)
  {
    0 <= i && i + |search| <= |s| && s[i..i + |search|] == search
  }

  /** `StringUtils.contains(str, search)`: false for a null str. */
  predicate Contains(str: Option<string>, search: string)
  {
    str.Some? && Occurs(str.value, search)
  }

  /** A position at which the left-to-right scan finds search. */
  lemma {:induction false} OccursWitness(s: string, search: string) returns (i: int)
    requires Occurs(s, search)
    ensures OccursAt(s, search, i)
    decreases |s|
  {
    if |search| <= |s| && s[..|search|] == search {
      i := 0;
    } else {
      var j := OccursWitness(s[1..], search);
      assert s[1..][j..j + |search|] == s[j + 1..j + 1 + |search|];
      i := j + 1;
    }
  }

  /** An occurrence at any position is found by the scan. */
  lemma {:induction false} OccursFromPosition(s: string, search: string, i: int)
    requires OccursAt(s, search, i)
    ensures Occurs(s, search)
    decreases i
  {
    if i > 0 {
      assert s[1..][i - 1..i - 1 + |search|] == s[i..i + |search|];
      OccursFromPosition(s[1..], search, i - 1);
    }
  }

  /** The left-to-right scan finds search exactly when it occurs at some position. */
  lemma OccursIff(s: string, search: string)
    ensures Occurs(s, search) <==> exists i :: OccursAt(s, search, i)
  {
    if Occurs(s, search) {
      var i := OccursWitness(s, search);
    }
    forall i | OccursAt(s, search, i) ensures Occurs(s, search) {
      OccursFromPosition(s, search, i);
    }
  }

  /** Whatever surrounds it, a string infix is found. */
  lemma OccursInside(before: string, search: string, after: string)
    ensures Occurs(before + search + after, search)
  {
    var s := before + search + after;
    assert s[|before|..|before| + |search|] == search;
    assert OccursAt(s, search, |before|);
    OccursIff(s, search);
  }

  /** A string in which the first two characters of search never stand side by side does not
      contain search. */
  lemma {:induction false} AbsentPairNotFound(s: string, search: string)
    requires |search| >= 2
    requires forall i :: 0 <= i < |s| - 1 ==> !(s[i] == search[0] && s[i + 1] == search[1])
    ensures !Occurs(s, search)
    decreases |s|
  {
    if |search| <= |s| {
      assert !(s[0] == search[0] && s[1] == search[1]);
      assert s[..|search|][0] == s[0] && s[..|search|][1] == s[1];
    }
    if |s| > 0 {
      forall i | 0 <= i < |s[1..]| - 1 ensures !(s[1..][i] == search[0] && s[1..][i + 1] == search[1]) {
        assert s[1..][i] == s[i + 1] && s[1..][i + 1] == s[i + 2];
      }
      AbsentPairNotFound(s[1..], search);
    }
  }

  /** `StringUtils.isNotEmpty(str)`: neither null nor of length zero. */
  predicate IsNotEmpty(str: Option<string>)
  {
    str.Some? && |str.value| > 0
  }

  /** `StringUtils.defaultString(str, fallback)`: fallback only for a null str. */
  function DefaultString(str: Option<string>, fallback: string): string
  {
    if str.Some? then str.value else fallback
  }
}
