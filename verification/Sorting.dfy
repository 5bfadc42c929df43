/** Stable sorting by a total preorder, the meaning of every `sorted` call. */
module Sorting {

  ghost predicate TotalPreorder<T(!new)>(leq: (T, T) -> bool) {
    && (forall x, y :: leq(x, y) || leq(y, x))
    && (forall x, y, z :: leq(x, y) && leq(y, z) ==> leq(x, z))
  }

  /** Equal rank only for equal elements. */
  ghost predicate Antisymmetric<T(!new)>(leq: (T, T) -> bool) {
    forall x, y :: leq(x, y) && leq(y, x) ==> x == y
  }

  ghost predicate AntisymmetricOn<T(!new)>(xs: seq<T>, leq: (T, T) -> bool) {
    forall x, y | x in xs && y in xs && leq(x, y) && leq(y, x) :: x == y
  }

  predicate Sorted<T>(xs: seq<T>, leq: (T, T) -> bool) {
    forall i, j | 0 <= i < j < |xs| :: leq(xs[i], xs[j])
  }

  function Insert<T>(x: T, xs: seq<T>, leq: (T, T) -> bool): seq<T> {
    if xs == [] then [x]
    else if leq(x, xs[0]) then [x] + xs
    else [xs[0]] + Insert(x, xs[1..], leq)
  }

  function SortBy<T>(xs: seq<T>, leq: (T, T) -> bool): seq<T> {
    if xs == [] then [] else Insert(xs[0], SortBy(xs[1..], leq), leq)
  }

  lemma {:induction false} InsertPermutes<T>(x: T, xs: seq<T>, leq: (T, T) -> bool)
    ensures multiset(Insert(x, xs, leq)) == multiset{x} + multiset(xs)
  {
    if xs != [] && !leq(x, xs[0]) {
      InsertPermutes(x, xs[1..], leq);
      assert xs == [xs[0]] + xs[1..];
    }
  }

  lemma {:induction false} SortByPermutes<T>(xs: seq<T>, leq: (T, T) -> bool)
    ensures multiset(SortBy(xs, leq)) == multiset(xs)
  {
    if xs != [] {
      InsertPermutes(xs[0], SortBy(xs[1..], leq), leq);
      SortByPermutes(xs[1..], leq);
      assert xs == [xs[0]] + xs[1..];
    }
  }

  lemma SortByElements<T(!new)>(xs: seq<T>, leq: (T, T) -> bool)
    ensures |SortBy(xs, leq)| == |xs|
    ensures forall x :: x in SortBy(xs, leq) <==> x in xs
  {
    SortByPermutes(xs, leq);
    assert |multiset(SortBy(xs, leq))| == |multiset(xs)|;
    forall x ensures x in SortBy(xs, leq) <==> x in xs {
      assert x in multiset(SortBy(xs, leq)) <==> x in multiset(xs);
    }
  }

  lemma {:induction false} InsertSorts<T(!new)>(x: T, xs: seq<T>, leq: (T, T) -> bool)
    requires TotalPreorder(leq) && Sorted(xs, leq)
    ensures Sorted(Insert(x, xs, leq), leq)
  {
    if xs != [] && !leq(x, xs[0]) {
      var rest := Insert(x, xs[1..], leq);
      InsertSorts(x, xs[1..], leq);
      InsertPermutes(x, xs[1..], leq);
      forall y | y in rest ensures leq(xs[0], y) {
        assert y in multiset(rest);
        assert y == x || y in xs[1..];
      }
    }
  }

  lemma {:induction false} SortBySorts<T(!new)>(xs: seq<T>, leq: (T, T) -> bool)
    requires TotalPreorder(leq)
    ensures Sorted(SortBy(xs, leq), leq)
  {
    if xs != [] {
      SortBySorts(xs[1..], leq);
      InsertSorts(xs[0], SortBy(xs[1..], leq), leq);
    }
  }

  /** Sorting what is already sorted changes nothing. */
  lemma {:induction false} SortedIsFixed<T(!new)>(xs: seq<T>, leq: (T, T) -> bool)
    requires Sorted(xs, leq)
    ensures SortBy(xs, leq) == xs
  {
    if xs != [] {
      SortedIsFixed(xs[1..], leq);
      assert xs == [xs[0]] + xs[1..];
      if |xs| > 1 {
        assert leq(xs[0], xs[1]);
      }
    }
  }

  lemma SameFirst<T(!new)>(xs: seq<T>, ys: seq<T>, leq: (T, T) -> bool)
    requires TotalPreorder(leq) && AntisymmetricOn(xs, leq)
    requires Sorted(xs, leq) && Sorted(ys, leq) && multiset(xs) == multiset(ys) && xs != []
    ensures ys != [] && xs[0] == ys[0]
  {
    assert |multiset(xs)| == |multiset(ys)|;
    assert xs[0] in multiset(ys) && ys[0] in multiset(xs);
    assert xs[0] in xs && ys[0] in xs;
    assert leq(xs[0], ys[0]) && leq(ys[0], xs[0]);
  }

  lemma DropFirst<T>(xs: seq<T>)
    requires xs != []
    ensures multiset(xs[1..]) == multiset(xs) - multiset{xs[0]}
  {
    assert xs == [xs[0]] + xs[1..];
  }

  /** A multiset of distinct ranks has one sorted arrangement. */
  lemma {:induction false} SortedUnique<T(!new)>(xs: seq<T>, ys: seq<T>, leq: (T, T) -> bool)
    requires TotalPreorder(leq) && AntisymmetricOn(xs, leq)
    requires Sorted(xs, leq) && Sorted(ys, leq) && multiset(xs) == multiset(ys)
    ensures xs == ys
  {
    assert |multiset(xs)| == |multiset(ys)|;
    if xs != [] {
      SameFirst(xs, ys, leq);
      DropFirst(xs);
      DropFirst(ys);
      SortedUnique(xs[1..], ys[1..], leq);
      assert xs == [xs[0]] + xs[1..] && ys == [ys[0]] + ys[1..];
    }
  }

  /** With distinct ranks the sorted arrangement does not depend on the input order. */
  lemma SortByOrderFree<T(!new)>(xs: seq<T>, ys: seq<T>, leq: (T, T) -> bool)
    requires TotalPreorder(leq) && AntisymmetricOn(xs, leq) && multiset(xs) == multiset(ys)
    ensures SortBy(xs, leq) == SortBy(ys, leq)
  {
    SortByElements(xs, leq);
    SortBySorts(xs, leq);
    SortBySorts(ys, leq);
    SortByPermutes(xs, leq);
    SortByPermutes(ys, leq);
    SortedUnique(SortBy(xs, leq), SortBy(ys, leq), leq);
  }

  function Filter<T>(xs: seq<T>, keep: T -> bool): seq<T> {
    if xs == [] then []
    else if keep(xs[0]) then [xs[0]] + Filter(xs[1..], keep)
    else Filter(xs[1..], keep)
  }

  lemma {:induction false} FilterInsert<T(!new)>(x: T, xs: seq<T>, leq: (T, T) -> bool, keep: T -> bool)
    requires TotalPreorder(leq) && Sorted(xs, leq)
    ensures Filter(Insert(x, xs, leq), keep)
         == if keep(x) then Insert(x, Filter(xs, keep), leq) else Filter(xs, keep)
  {
    if xs == [] {
      assert [x][1..] == [];
    } else if leq(x, xs[0]) {
      assert ([x] + xs)[1..] == xs;
      FilterElements(xs, keep);
      var kept := Filter(xs, keep);
      if kept != [] {
        assert kept[0] in kept && kept[0] in xs;
        var i :| 0 <= i < |xs| && xs[i] == kept[0];
        assert i == 0 || leq(xs[0], xs[i]);
        assert leq(x, kept[0]);
      }
    } else {
      var rest := Insert(x, xs[1..], leq);
      assert ([xs[0]] + rest)[1..] == rest;
      FilterInsert(x, xs[1..], leq, keep);
      if keep(xs[0]) {
        var kept := [xs[0]] + Filter(xs[1..], keep);
        assert kept[1..] == Filter(xs[1..], keep);
      } else {
        FilterElements(xs, keep);
      }
    }
  }

  lemma {:induction false} FilterElements<T(!new)>(xs: seq<T>, keep: T -> bool)
    ensures forall x :: x in Filter(xs, keep) <==> x in xs && keep(x)
  {
    if xs != [] {
      FilterElements(xs[1..], keep);
      assert xs == [xs[0]] + xs[1..];
    }
  }

  /** Stability: filtering commutes with sorting. */
  lemma {:induction false} FilterSort<T(!new)>(xs: seq<T>, leq: (T, T) -> bool, keep: T -> bool)
    requires TotalPreorder(leq)
    ensures Filter(SortBy(xs, leq), keep) == SortBy(Filter(xs, keep), leq)
  {
    if xs != [] {
      FilterSort(xs[1..], leq, keep);
      SortBySorts(xs[1..], leq);
      FilterInsert(xs[0], SortBy(xs[1..], leq), leq, keep);
      if keep(xs[0]) {
        var kept := [xs[0]] + Filter(xs[1..], keep);
        assert kept[1..] == Filter(xs[1..], keep);
      }
    }
  }

  lemma {:induction false} FilterSorted<T(!new)>(xs: seq<T>, leq: (T, T) -> bool, keep: T -> bool)
    requires Sorted(xs, leq)
    ensures Sorted(Filter(xs, keep), leq)
  {
    if xs != [] {
      FilterSorted(xs[1..], leq, keep);
      FilterElements(xs[1..], keep);
      forall y | y in Filter(xs[1..], keep) ensures leq(xs[0], y) {
        assert y in Filter(xs[1..], keep) && y in xs[1..];
        var j :| 0 <= j < |xs[1..]| && xs[1..][j] == y;
        assert leq(xs[0], xs[j + 1]);
      }
    }
  }

  lemma {:induction false} FilterAppend<T>(xs: seq<T>, ys: seq<T>, keep: T -> bool)
    ensures Filter(xs + ys, keep) == Filter(xs, keep) + Filter(ys, keep)
  {
    if xs == [] {
      assert xs + ys == ys;
    } else {
      assert (xs + ys)[1..] == xs[1..] + ys;
      FilterAppend(xs[1..], ys, keep);
    }
  }
}
