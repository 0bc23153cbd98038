/** A stable insertion sort under a total preorder; used for the database `orderBy` clauses. */
module Sorting {

  /** Every adjacent pair is in order. */
  predicate Sorted<T>(s: seq<T>, leq: (T, T) -> bool)
  {
    forall i :: 0 < i < |s| ==> leq(s[i - 1], s[i])
  }

  /** Any two values are comparable. */
  ghost predicate Total<T(!new)>(leq: (T, T) -> bool)
  {
    forall a, b :: leq(a, b) || leq(b, a)
  }

  function Insert<T(==,!new)>(x: T, s: seq<T>, leq: (T, T) -> bool): (r: seq<T>)
    requires Total(leq) && Sorted(s, leq)
    ensures multiset(r) == multiset(s) + multiset{x}
    ensures Sorted(r, leq)
    ensures r[0] == x || (s != [] && r[0] == s[0])
  {
    if s == [] || leq(x, s[0]) then [x] + s
    else
      var rest := Insert(x, s[1..], leq);
      assert s == [s[0]] + s[1..];
      [s[0]] + rest
  }

  /** The input reordered so that adjacent elements are in order. */
  function SortBy<T(==,!new)>(s: seq<T>, leq: (T, T) -> bool): (r: seq<T>)
    requires Total(leq)
    ensures multiset(r) == multiset(s)
    ensures |r| == |s|
    ensures Sorted(r, leq)
  {
    if s == [] then []
    else
      assert s == [s[0]] + s[1..];
      Insert(s[0], SortBy(s[1..], leq), leq)
  }
}
