// The values C and C++ express with null pointers and missing results.
module Wrappers {
  datatype Option<+T> = None | Some(value: T) {
    function GetOr(default: T): T {
      match this
      case Some(v) => v
      case None => default
    }
  }

  /** x is the value given last, or the one before all if none is given. */
  ghost predicate IsLast<T>(given: seq<Option<T>>, before: T, x: T) {
    || ((forall k :: 0 <= k < |given| ==> given[k].None?) && x == before)
    || exists j :: 0 <= j < |given| && given[j] == Some(x) && forall k :: j < k < |given| ==> given[k].None?
  }

  lemma LastOfNext<T>(given: seq<Option<T>>, before: T, x: T, next: Option<T>)
    requires IsLast(given, before, x)
    ensures IsLast(given + [next], before, next.GetOr(x))
  {
    var more := given + [next];
    if next.Some? {
      assert more[|given|] == Some(next.value);
    } else if j :| 0 <= j < |given| && given[j] == Some(x) && forall k :: j < k < |given| ==> given[k].None? {
      assert more[j] == Some(x);
    }
  }
}
