/** What several modules share: optional values, and small operations on numbers, sequences and sets. */
module Basics {

  datatype Option<T> = None | Some(value: T)

  function Min(a: int, b: int): int {
    if a < b then a else b
  }

  function Max(a: int, b: int): int {
    if a < b then b else a
  }

  /** The first place of an element, or -1. */
  function Find<K(==)>(s: seq<K>, k: K): (i: int)
    ensures -1 <= i < |s|
    ensures i == -1 <==> k !in s
    ensures i >= 0 ==> s[i] == k && k !in s[..i]
  {
    if s == [] then -1
    else if s[0] == k then 0
    else
      var i := Find(s[1..], k);
      assert i >= 0 ==> s[..i + 1] == [s[0]] + s[1..][..i];
      if i == -1 then -1 else i + 1
  }

  ghost predicate Distinct<T>(s: seq<T>) {
    forall i, j :: 0 <= i < j < |s| ==> s[i] != s[j]
  }

  lemma {:induction false} SubsetSize<T>(a: set<T>, b: set<T>)
    requires a <= b
    ensures |a| <= |b|
  {
    if x :| x in a {
      SubsetSize(a - {x}, b - {x});
    }
  }
}
