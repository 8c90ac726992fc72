/** Small shared vocabulary. */
module Prelude {
  datatype Option<+T> = None | Some(value: T) {
    function GetOr(default: T): T {
      match this
      case Some(v) => v
      case None => default
    }
  }

  /** How a command to a server ends: a lost reply leaves the caller with an error either way. */
  datatype Fault = Fine | Fails | FailsAfterApplying

  ghost predicate Distinct<T>(s: seq<T>) {
    forall i, j :: 0 <= i < j < |s| ==> s[i] != s[j]
  }

  lemma AppendAssociates<T>(a: seq<T>, b: seq<T>, c: seq<T>)
    ensures (a + b) + c == a + (b + c)
  {}

  /** Names an element that two sets share. */
  lemma SharedElement<T>(a: set<T>, b: set<T>) returns (x: T)
    requires !(a !! b)
    ensures x in a && x in b
  {
    x :| x in a && x in b;
  }

  /** Names an element of a non-empty set. */
  lemma SomeElement<T>(s: set<T>) returns (x: T)
    requires s != {}
    ensures x in s
  {
    x :| x in s;
  }
}
