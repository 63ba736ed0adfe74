/** Small notions that several modules share. */
module Common {

  datatype Option<T> = None | Some(value: T)

  function One(b: bool): nat {
    if b then 1 else 0
  }

  ghost predicate Distinct<T>(s: seq<T>) {
    forall i, j :: 0 <= i < j < |s| ==> s[i] != s[j]
  }

  /** A list without one of its elements. */
  function Without<T(==, !new)>(list: seq<T>, x: T): (r: seq<T>)
    ensures forall y :: y in r <==> y in list && y != x
    ensures x in list ==> |r| < |list|
    ensures |r| <= |list|
  {
    if list == [] then [] else (if list[0] == x then [] else [list[0]]) + Without(list[1..], x)
  }
}
