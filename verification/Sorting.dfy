/** Sorting by a strict weak order, with the contract the planner relies on. */
module Sorting {

  ghost predicate StrictWeakOrder<T(!new)>(less: (T, T) -> bool) {
    && (forall a :: !less(a, a))
    && (forall a, b, c :: less(a, b) && less(b, c) ==> less(a, c))
    && (forall a, b, c :: !less(a, b) && !less(b, c) ==> !less(a, c))
  }

  ghost predicate NoInversion<T(!new)>(less: (T, T) -> bool, s: seq<T>) {
    forall i, j :: 0 <= i < j < |s| ==> !less(s[j], s[i])
  }

  lemma ConsSorted<T(!new)>(less: (T, T) -> bool, x: T, s: seq<T>)
    requires NoInversion(less, s) && forall y :: y in s ==> !less(y, x)
    ensures NoInversion(less, [x] + s)
  {
  }

  lemma HeadLeast<T(!new)>(less: (T, T) -> bool, x: T, s: seq<T>)
    requires StrictWeakOrder(less) && s != [] && NoInversion(less, s) && !less(s[0], x)
    ensures forall y :: y in s ==> !less(y, x)
  {
  }

  lemma TailAbove<T(!new)>(less: (T, T) -> bool, x: T, s: seq<T>, rest: seq<T>)
    requires StrictWeakOrder(less) && s != [] && NoInversion(less, s) && less(s[0], x)
    requires multiset(rest) == multiset{x} + multiset(s[1..])
    ensures forall y :: y in rest ==> !less(y, s[0])
  {
    forall y | y in rest ensures !less(y, s[0]) {
      assert y in multiset(rest);
      if y != x {
        assert y in s[1..];
      }
    }
  }

  function Insert<T(!new)>(less: (T, T) -> bool, x: T, s: seq<T>): (r: seq<T>)
    requires StrictWeakOrder(less)
    requires NoInversion(less, s)
    ensures multiset(r) == multiset{x} + multiset(s)
    ensures NoInversion(less, r)
    ensures |r| == |s| + 1
  {
    if s == [] then [x]
    else if less(s[0], x) then
      var rest := Insert(less, x, s[1..]);
      assert s == [s[0]] + s[1..];
      TailAbove(less, x, s, rest);
      ConsSorted(less, s[0], rest);
      [s[0]] + rest
    else
      HeadLeast(less, x, s);
      ConsSorted(less, x, s);
      [x] + s
  }

  /** The library sort: a permutation without inversions. */
  function SortBy<T(!new)>(less: (T, T) -> bool, s: seq<T>): (r: seq<T>)
    requires StrictWeakOrder(less)
    ensures multiset(r) == multiset(s)
    ensures NoInversion(less, r)
    ensures |r| == |s|
    ensures forall x :: x in r <==> x in s
  {
    if s == [] then []
    else
      assert s == [s[0]] + s[1..];
      var r := Insert(less, s[0], SortBy(less, s[1..]));
      assert forall x :: x in r <==> x in multiset(r);
      assert forall x :: x in s <==> x in multiset(s);
      r
  }
}
