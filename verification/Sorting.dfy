/** Ascending sort of integers, as the built-in array sort with a numeric comparison does it. */
module Sorting {

  ghost predicate Sorted(xs: seq<int>) {
    forall i, j | 0 <= i < j < |xs| :: xs[i] <= xs[j]
  }

  function Insert(x: int, xs: seq<int>): seq<int> {
    if xs == [] || x <= xs[0] then [x] + xs else [xs[0]] + Insert(x, xs[1..])
  }

  function SortAscending(xs: seq<int>): (r: seq<int>)
    ensures |r| == |xs|
  {
    if xs == [] then [] else
    InsertMembers(xs[0], SortAscending(xs[1..]));
    Insert(xs[0], SortAscending(xs[1..]))
  }

  lemma {:induction false} InsertMembers(x: int, xs: seq<int>)
    ensures |Insert(x, xs)| == |xs| + 1
    ensures forall y :: y in Insert(x, xs) <==> y == x || y in xs
  {
    if xs != [] && x > xs[0] { InsertMembers(x, xs[1..]); }
  }

  lemma SortedCons(x: int, xs: seq<int>)
    requires Sorted(xs) && forall y | y in xs :: x <= y
    ensures Sorted([x] + xs)
  {
    var r := [x] + xs;
    forall i, j | 0 <= i < j < |r| ensures r[i] <= r[j] {
      assert r[j] == xs[j - 1] && xs[j - 1] in xs;
    }
  }

  lemma {:induction false} InsertSorts(x: int, xs: seq<int>)
    requires Sorted(xs)
    ensures Sorted(Insert(x, xs))
  {
    if xs == [] || x <= xs[0] {
      SortedCons(x, xs);
    } else {
      InsertSorts(x, xs[1..]);
      InsertMembers(x, xs[1..]);
      SortedCons(xs[0], Insert(x, xs[1..]));
    }
  }

  lemma ConsMultiset(x: int, xs: seq<int>)
    ensures multiset([x] + xs) == multiset{x} + multiset(xs)
  {
  }

  lemma {:induction false} InsertKeeps(x: int, xs: seq<int>)
    ensures multiset(Insert(x, xs)) == multiset{x} + multiset(xs)
  {
    if xs == [] || x <= xs[0] {
      ConsMultiset(x, xs);
    } else {
      InsertKeeps(x, xs[1..]);
      ConsMultiset(xs[0], Insert(x, xs[1..]));
      ConsMultiset(xs[0], xs[1..]);
      assert [xs[0]] + xs[1..] == xs;
    }
  }

  lemma NothingIsSorted()
    ensures Sorted([])
  {
  }

  /** Sorting puts the same elements in order. */
  lemma {:induction false} SortSorts(xs: seq<int>)
    ensures Sorted(SortAscending(xs)) && multiset(SortAscending(xs)) == multiset(xs)
  {
    hide Insert, Sorted;
    if xs == [] {
      NothingIsSorted();
    } else {
      SortSorts(xs[1..]);
      InsertSorts(xs[0], SortAscending(xs[1..]));
      InsertKeeps(xs[0], SortAscending(xs[1..]));
      ConsMultiset(xs[0], xs[1..]);
      assert [xs[0]] + xs[1..] == xs;
    }
  }

  lemma SortMembers(xs: seq<int>, x: int)
    ensures x in SortAscending(xs) <==> x in xs
  {
    SortSorts(xs);
    assert x in multiset(SortAscending(xs)) <==> x in multiset(xs);
  }

  lemma TailMultiset(a: seq<int>)
    requires a != []
    ensures multiset(a) == multiset{a[0]} + multiset(a[1..])
  {
    ConsMultiset(a[0], a[1..]);
    assert [a[0]] + a[1..] == a;
  }

  lemma Cancel(m: multiset<int>, n: multiset<int>, x: int)
    requires multiset{x} + m == multiset{x} + n
    ensures m == n
  {
    forall e: int ensures m[e] == n[e] { assert (multiset{x} + m)[e] == (multiset{x} + n)[e]; }
  }

  lemma SameFirst(a: seq<int>, b: seq<int>)
    requires Sorted(a) && Sorted(b) && a != [] && multiset(a) == multiset(b)
    ensures b != [] && a[0] == b[0]
  {
    assert a[0] in multiset(a) && a[0] in multiset(b);
    assert a[0] in b;
    assert b[0] in multiset(b) && b[0] in multiset(a);
    assert b[0] in a;
  }

  /** There is only one way to put the same elements in order. */
  lemma {:induction false} SortedIsUnique(a: seq<int>, b: seq<int>)
    requires Sorted(a) && Sorted(b) && multiset(a) == multiset(b)
    ensures a == b
  {
    if a == [] {
      assert |b| == |multiset(b)|;
    } else {
      SameFirst(a, b);
      TailMultiset(a);
      TailMultiset(b);
      Cancel(multiset(a[1..]), multiset(b[1..]), a[0]);
      SortedIsUnique(a[1..], b[1..]);
      assert [a[0]] + a[1..] == a && [b[0]] + b[1..] == b;
    }
  }
}
