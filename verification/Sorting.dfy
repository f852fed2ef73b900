/** Insertion sort by a given order, and why only the elements matter to its result. */
module Sorting {

  function Insert<T>(x: T, xs: seq<T>, before: (T, T) -> bool): (r: seq<T>)
    ensures multiset(r) == multiset{x} + multiset(xs)
  {
    if xs == [] || !before(xs[0], x) then [x] + xs
    else
      assert xs == [xs[0]] + xs[1..];
      [xs[0]] + Insert(x, xs[1..], before)
  }

  function Sorted<T>(xs: seq<T>, before: (T, T) -> bool): (r: seq<T>)
    ensures multiset(r) == multiset(xs) && |r| == |xs|
  {
    if xs == [] then []
    else
      assert xs == [xs[0]] + xs[1..];
      var r := Insert(xs[0], Sorted(xs[1..], before), before);
      assert |r| == |multiset(r)| == |multiset(xs)| == |xs|;
      r
  }

  lemma SortedKeeps<T>(xs: seq<T>, before: (T, T) -> bool)
    ensures forall x :: x in Sorted(xs, before) <==> x in xs
  {
    hide Sorted;
    forall x
      ensures x in Sorted(xs, before) <==> x in xs
    {
      assert x in Sorted(xs, before) <==> x in multiset(Sorted(xs, before));
    }
  }

  predicate Ascending<T>(xs: seq<T>, before: (T, T) -> bool)
  {
    forall i, j :: 0 <= i < j < |xs| ==> before(xs[i], xs[j])
  }

  predicate Distinct<T(==)>(xs: seq<T>)
  {
    forall i, j :: 0 <= i < j < |xs| ==> xs[i] != xs[j]
  }

  /** A strict order in which any two different elements of the list are comparable. */
  ghost predicate Orders<T(!new)>(before: (T, T) -> bool, xs: seq<T>)
  {
    && (forall a, b :: before(a, b) ==> !before(b, a))
    && (forall a, b, c :: before(a, b) && before(b, c) ==> before(a, c))
    && (forall a, b :: a in xs && b in xs && a != b ==> before(a, b) || before(b, a))
  }

  lemma {:induction false} InsertAscends<T(!new)>(x: T, xs: seq<T>, before: (T, T) -> bool, all: seq<T>)
    requires Orders(before, all) && x in all && (forall y :: y in xs ==> y in all)
    requires Ascending(xs, before) && x !in xs
    ensures Ascending(Insert(x, xs, before), before)
  {
    if xs != [] && before(xs[0], x) {
      var rest := Insert(x, xs[1..], before);
      InsertAscends(x, xs[1..], before, all);
      forall j | 0 <= j < |rest|
        ensures before(xs[0], rest[j])
      {
        assert rest[j] in multiset(rest);
        assert rest[j] == x || rest[j] in xs[1..];
      }
    }
  }

  lemma {:induction false} SortedAscendsWithin<T(!new)>(xs: seq<T>, before: (T, T) -> bool, all: seq<T>)
    requires Orders(before, all) && (forall y :: y in xs ==> y in all) && Distinct(xs)
    ensures Ascending(Sorted(xs, before), before)
  {
    if xs != [] {
      SortedAscendsWithin(xs[1..], before, all);
      SortedKeeps(xs[1..], before);
      assert xs[0] !in xs[1..] by {
        assert forall j :: 0 <= j < |xs[1..]| ==> xs[1..][j] == xs[j + 1];
      }
      InsertAscends(xs[0], Sorted(xs[1..], before), before, all);
    }
  }

  lemma SortedAscends<T(!new)>(xs: seq<T>, before: (T, T) -> bool)
    requires Orders(before, xs) && Distinct(xs)
    ensures Ascending(Sorted(xs, before), before)
  {
    SortedAscendsWithin(xs, before, xs);
  }

  lemma RestOf<T>(xs: seq<T>, before: (T, T) -> bool)
    requires xs != []
    ensures multiset(xs[1..]) == multiset(xs) - multiset{xs[0]}
    ensures Ascending(xs, before) ==> Ascending(xs[1..], before)
  {
    assert xs == [xs[0]] + xs[1..];
  }

  /** Two ascending lists of the same elements are the same list. */
  lemma {:induction false} AscendingUnique<T(!new)>(left: seq<T>, right: seq<T>, before: (T, T) -> bool)
    requires forall a, b :: before(a, b) ==> !before(b, a)
    requires Ascending(left, before) && Ascending(right, before) && multiset(left) == multiset(right)
    ensures left == right
    decreases |left|
  {
    assert |left| == |multiset(left)| == |multiset(right)| == |right|;
    if left != [] {
      assert left[0] in multiset(right) && right[0] in multiset(left);
      FirstIsLeast(left, right[0], before);
      FirstIsLeast(right, left[0], before);
      RestOf(left, before);
      RestOf(right, before);
      AscendingUnique(left[1..], right[1..], before);
      assert left == [left[0]] + left[1..] && right == [right[0]] + right[1..];
    }
  }

  lemma FirstIsLeast<T>(xs: seq<T>, x: T, before: (T, T) -> bool)
    requires Ascending(xs, before) && x in xs
    ensures x == xs[0] || before(xs[0], x)
  {
  }

  /** Sorting forgets the order in which different elements arrived. */
  lemma SortedIsCanonical<T(!new)>(left: seq<T>, right: seq<T>, before: (T, T) -> bool)
    requires Orders(before, left) && Distinct(left) && Distinct(right) && multiset(left) == multiset(right)
    ensures Sorted(left, before) == Sorted(right, before)
  {
    forall x | x in right
      ensures x in left
    {
      assert x in multiset(left);
    }
    SortedAscendsWithin(left, before, left);
    SortedAscendsWithin(right, before, left);
    AscendingUnique(Sorted(left, before), Sorted(right, before), before);
  }
}
