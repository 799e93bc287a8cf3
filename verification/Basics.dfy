/** What several modules need. */
module Basics {
  datatype Option<+T> = None | Some(value: T)

  function Max(a: int, b: int): int {
    if a > b then a else b
  }

  lemma {:induction false} SubsetSize<T>(a: set<T>, b: set<T>)
    requires a <= b
    ensures |a| <= |b| && (|a| == |b| ==> a == b)
    decreases a
  {
    if a != {} {
      var x :| x in a;
      SubsetSize(a - {x}, b - {x});
    }
  }

  lemma Associative<T>(a: seq<T>, b: seq<T>, c: seq<T>)
    ensures a + (b + c) == a + b + c
  {
  }

  type Byte = x: nat | x < 256

  predicate NoDoubles<T(==)>(list: seq<T>) {
    forall i, j :: 0 <= i < j < |list| ==> list[i] != list[j]
  }

  /** The first place of an element. */
  function IndexOf<T(==)>(list: seq<T>, x: T): (i: nat)
    requires x in list
    ensures i < |list| && list[i] == x && x !in list[..i]
  {
    if list[0] == x then 0 else
      assert list[1..][..IndexOf(list[1..], x)] == list[1..IndexOf(list[1..], x) + 1];
      1 + IndexOf(list[1..], x)
  }

  /** The elements of a list. */
  function ToSet<T>(list: seq<T>): set<T> {
    set x | x in list
  }
}
