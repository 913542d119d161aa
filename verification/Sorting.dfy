/** Sequences in strict order of some number their elements carry. */
module Sorting {

  ghost predicate Strict<T>(x: seq<T>, at: T -> int) {
    forall i, j :: 0 <= i < j < |x| ==> at(x[i]) < at(x[j])
  }

  ghost predicate Ascending<T>(x: seq<T>, at: T -> int) {
    forall i, j :: 0 <= i < j < |x| ==> at(x[i]) <= at(x[j])
  }

  ghost predicate PairwiseDistinct<T>(x: seq<T>, at: T -> int) {
    forall i, j :: 0 <= i < j < |x| ==> at(x[i]) != at(x[j])
  }

  ghost predicate SameCounts<T(!new)>(x: seq<T>, y: seq<T>) {
    forall e :: multiset(x)[e] == multiset(y)[e]
  }

  ghost predicate SameElements<T(!new)>(x: seq<T>, y: seq<T>) {
    forall e :: e in x <==> e in y
  }

  /** Only one sequence holds given elements in strict order. */
  lemma {:induction false} StrictIsUnique<T(!new)>(x: seq<T>, y: seq<T>, at: T -> int)
    requires Strict(x, at) && Strict(y, at) && SameElements(x, y)
    ensures x == y
  {
    if x == [] {
      assert forall k :: 0 <= k < |y| ==> y[k] in x;
    } else {
      assert x[0] in y;
      var n, m := |x| - 1, |y| - 1;
      LastIsGreatest(x, y, at);
      LastIsGreatest(y, x, at);
      assert x[n] in y;
      var k :| 0 <= k <= m && y[k] == x[n];
      assert k == m;
      forall e ensures e in x[..n] <==> e in y[..m] {
        InitHolds(x, e, at);
        InitHolds(y, e, at);
      }
      StrictIsUnique(x[..n], y[..m], at);
      assert x == x[..n] + [x[n]] && y == y[..m] + [y[m]];
    }
  }

  lemma LastIsGreatest<T(!new)>(x: seq<T>, y: seq<T>, at: T -> int)
    requires Strict(x, at) && y != [] && SameElements(x, y)
    ensures x != [] && at(y[|y| - 1]) <= at(x[|x| - 1])
  {
    assert y[|y| - 1] in x;
  }

  /** All but the last element of a strict sequence are its other elements. */
  lemma InitHolds<T>(x: seq<T>, e: T, at: T -> int)
    requires Strict(x, at) && x != []
    ensures e in x[..|x| - 1] <==> e in x && e != x[|x| - 1]
  {
    assert x == x[..|x| - 1] + [x[|x| - 1]];
  }

  lemma {:induction false} CountsOnce<T>(x: seq<T>, e: T, at: T -> int)
    requires PairwiseDistinct(x, at)
    ensures multiset(x)[e] <= 1
  {
    if x != [] {
      var n := |x| - 1;
      CountsOnce(x[..n], e, at);
      assert x == x[..n] + [x[n]];
      if e == x[n] {
        assert e !in x[..n];
      }
    }
  }

  lemma CountsTwice<T>(x: seq<T>, i: nat, j: nat)
    requires i < j < |x| && x[i] == x[j]
    ensures multiset(x)[x[i]] >= 2
  {
    assert x == x[..j] + x[j..];
    assert x[i] in x[..j] && x[i] in x[j..];
    assert x[i] in multiset(x[..j]) && x[i] in multiset(x[j..]);
  }

  /** A permutation carries the same numbers. */
  lemma DistinctCarries<T(!new)>(x: seq<T>, y: seq<T>, at: T -> int)
    requires SameCounts(x, y) && PairwiseDistinct(x, at)
    ensures PairwiseDistinct(y, at)
  {
    forall i, j | 0 <= i < j < |y| ensures at(y[i]) != at(y[j]) {
      assert y[i] in multiset(y) && y[j] in multiset(y);
      assert y[i] in multiset(x) && y[j] in multiset(x);
      var p :| 0 <= p < |x| && x[p] == y[i];
      var q :| 0 <= q < |x| && x[q] == y[j];
      if p == q {
        CountsTwice(y, i, j);
        CountsOnce(x, y[i], at);
      }
    }
  }

  lemma SameCountsSameElements<T(!new)>(x: seq<T>, y: seq<T>)
    requires SameCounts(x, y)
    ensures SameElements(x, y)
  {
    forall e ensures e in x <==> e in y {
      assert e in x <==> multiset(x)[e] > 0;
      assert e in y <==> multiset(y)[e] > 0;
    }
  }

  ghost predicate Bounded<T>(s: seq<T>, at: T -> int, bound: int) {
    forall i :: 0 <= i < |s| ==> at(s[i]) <= bound
  }

  function InsertBy<T>(s: seq<T>, e: T, at: T -> int): seq<T> {
    if s == [] || at(s[|s| - 1]) <= at(e) then s + [e] else InsertBy(s[..|s| - 1], e, at) + [s[|s| - 1]]
  }

  /** `sort` by a number: elements with the same one stay in order. */
  function SortBy<T>(s: seq<T>, at: T -> int): seq<T> {
    if s == [] then [] else InsertBy(SortBy(s[..|s| - 1], at), s[|s| - 1], at)
  }

  lemma {:induction false} InsertBounded<T>(s: seq<T>, e: T, at: T -> int, bound: int)
    requires Bounded(s, at, bound) && at(e) <= bound
    ensures Bounded(InsertBy(s, e, at), at, bound)
  {
    if s != [] && at(e) < at(s[|s| - 1]) {
      InsertBounded(s[..|s| - 1], e, at, bound);
    }
  }

  lemma {:induction false} InsertPermutes<T>(s: seq<T>, e: T, at: T -> int)
    ensures multiset(InsertBy(s, e, at)) == multiset(s) + multiset{e}
  {
    if s != [] && at(e) < at(s[|s| - 1]) {
      var n := |s| - 1;
      InsertPermutes(s[..n], e, at);
      assert s == s[..n] + [s[n]];
    }
  }

  lemma {:induction false} InsertAscends<T>(s: seq<T>, e: T, at: T -> int)
    requires Ascending(s, at)
    ensures Ascending(InsertBy(s, e, at), at)
  {
    if s != [] {
      var n := |s| - 1;
      if at(e) < at(s[n]) {
        InsertAscends(s[..n], e, at);
        InsertBounded(s[..n], e, at, at(s[n]));
      }
    }
  }

  /** Sorting puts the same elements in order. */
  lemma {:induction false} SortSorts<T>(s: seq<T>, at: T -> int)
    ensures Ascending(SortBy(s, at), at) && multiset(SortBy(s, at)) == multiset(s)
  {
    if s != [] {
      var n := |s| - 1;
      SortSorts(s[..n], at);
      InsertPermutes(SortBy(s[..n], at), s[n], at);
      InsertAscends(SortBy(s[..n], at), s[n], at);
      assert s == s[..n] + [s[n]];
    }
  }

  /** `filter`. */
  function Filter<T>(s: seq<T>, keep: T -> bool): (r: seq<T>)
    ensures |r| <= |s|
  {
    if s == [] then []
    else
      var n := |s| - 1;
      if keep(s[n]) then Filter(s[..n], keep) + [s[n]] else Filter(s[..n], keep)
  }

  lemma FilterAppend<T>(s: seq<T>, e: T, keep: T -> bool)
    ensures Filter(s + [e], keep) == if keep(e) then Filter(s, keep) + [e] else Filter(s, keep)
  {
    assert (s + [e])[..|s|] == s;
  }

  lemma {:induction false} FilterCounts<T>(s: seq<T>, keep: T -> bool, e: T)
    ensures multiset(Filter(s, keep))[e] == if keep(e) then multiset(s)[e] else 0
  {
    if s != [] {
      var n := |s| - 1;
      FilterCounts(s[..n], keep, e);
      assert s == s[..n] + [s[n]];
    }
  }

  lemma {:induction false} FilterAscends<T>(s: seq<T>, keep: T -> bool, at: T -> int, bound: int)
    requires Ascending(s, at) && Bounded(s, at, bound)
    ensures Ascending(Filter(s, keep), at) && Bounded(Filter(s, keep), at, bound)
  {
    if s != [] {
      var n := |s| - 1;
      FilterAscends(s[..n], keep, at, at(s[n]));
    }
  }

  /** A kept element stands where the earlier kept ones end. */
  lemma {:induction false} PlaceInFilter<T>(s: seq<T>, keep: T -> bool, i: nat)
    requires i < |s| && keep(s[i])
    ensures |Filter(s[..i], keep)| < |Filter(s, keep)| && Filter(s, keep)[|Filter(s[..i], keep)|] == s[i]
  {
    var n := |s| - 1;
    if i < n {
      PlaceInFilter(s[..n], keep, i);
      assert s[..n][..i] == s[..i];
    }
  }

  /** A kept element was kept from somewhere. */
  lemma {:induction false} FilterFrom<T>(s: seq<T>, keep: T -> bool, k: nat) returns (i: nat)
    requires k < |Filter(s, keep)|
    ensures i < |s| && keep(s[i]) && Filter(s, keep)[k] == s[i]
  {
    var n := |s| - 1;
    if k < |Filter(s[..n], keep)| {
      i := FilterFrom(s[..n], keep, k);
    } else {
      i := n;
    }
  }

  /** Filtering a prefix gives a prefix. */
  lemma {:induction false} FilterPrefix<T>(s: seq<T>, keep: T -> bool, i: nat)
    requires i <= |s|
    ensures Filter(s[..i], keep) <= Filter(s, keep)
    decreases |s| - i
  {
    if i < |s| {
      assert s[..i + 1] == s[..i] + [s[i]];
      FilterAppend(s[..i], s[i], keep);
      FilterPrefix(s, keep, i + 1);
    } else {
      assert s[..i] == s;
    }
  }

  lemma FilterPermutes<T(!new)>(s: seq<T>, t: seq<T>, keep: T -> bool)
    requires multiset(s) == multiset(t)
    ensures SameCounts(Filter(s, keep), Filter(t, keep))
  {
    forall e ensures multiset(Filter(s, keep))[e] == multiset(Filter(t, keep))[e] {
      FilterCounts(s, keep, e);
      FilterCounts(t, keep, e);
    }
  }

  /** Once sorted, kept elements whose numbers differ are in strict order. */
  lemma SortedFilter<T(!new)>(s: seq<T>, sorted: seq<T>, keep: T -> bool, at: T -> int)
    requires Ascending(sorted, at) && multiset(sorted) == multiset(s) && PairwiseDistinct(Filter(s, keep), at)
    ensures Strict(Filter(sorted, keep), at) && SameCounts(Filter(s, keep), Filter(sorted, keep))
  {
    FilterPermutes(s, sorted, keep);
    DistinctCarries(Filter(s, keep), Filter(sorted, keep), at);
    if sorted != [] {
      FilterAscends(sorted, keep, at, at(sorted[|sorted| - 1]));
    }
  }

  /** However they were ordered before, sorting lines kept elements with distinct numbers up alike. */
  lemma SortedFilterIsUnique<T(!new)>(s: seq<T>, sorted: seq<T>, t: seq<T>, sortedT: seq<T>, keep: T -> bool,
                               at: T -> int)
    requires Ascending(sorted, at) && multiset(sorted) == multiset(s)
    requires Ascending(sortedT, at) && multiset(sortedT) == multiset(t)
    requires multiset(s) == multiset(t) && PairwiseDistinct(Filter(s, keep), at)
    ensures Filter(sorted, keep) == Filter(sortedT, keep)
  {
    FilterPermutes(s, t, keep);
    DistinctCarries(Filter(s, keep), Filter(t, keep), at);
    SortedFilter(s, sorted, keep, at);
    SortedFilter(t, sortedT, keep, at);
    SameCountsSameElements(Filter(sorted, keep), Filter(sortedT, keep));
    StrictIsUnique(Filter(sorted, keep), Filter(sortedT, keep), at);
  }

  /** And leaves them as they are if they were in order already. */
  lemma SortedFilterStays<T(!new)>(s: seq<T>, sorted: seq<T>, keep: T -> bool, at: T -> int)
    requires Ascending(sorted, at) && multiset(sorted) == multiset(s) && Strict(Filter(s, keep), at)
    ensures Filter(sorted, keep) == Filter(s, keep)
  {
    SortedFilter(s, sorted, keep, at);
    SameCountsSameElements(Filter(s, keep), Filter(sorted, keep));
    StrictIsUnique(Filter(sorted, keep), Filter(s, keep), at);
  }
}
