/** Longest common subsequences of two sequences: the reference notion the line diff is judged
    against.  A matching lists index pairs; the table recurrence is proved to be the size of the
    largest matching, and the facts the divide-and-conquer search rests on follow. */
module Subsequences {

  datatype Pair = Pair(oldIndex: nat, newIndex: nat)

  /** `m` pairs equal elements of `a` and `b`, strictly increasing on both sides; the elements of
      `a` carry the indices from `o0` on and those of `b` the indices from `o1` on. */
  ghost predicate Matching<T>(a: seq<T>, b: seq<T>, o0: nat, o1: nat, m: seq<Pair>) {
    && (forall k :: 0 <= k < |m| ==>
          && o0 <= m[k].oldIndex < o0 + |a| && o1 <= m[k].newIndex < o1 + |b|
          && a[m[k].oldIndex - o0] == b[m[k].newIndex - o1])
    && (forall k, l :: 0 <= k < l < |m| ==> m[k].oldIndex < m[l].oldIndex && m[k].newIndex < m[l].newIndex)
  }

  /** `m` is a matching and no matching is larger. */
  ghost predicate Longest<T(!new)>(a: seq<T>, b: seq<T>, m: seq<Pair>) {
    && Matching(a, b, 0, 0, m)
    && forall other :: Matching(a, b, 0, 0, other) ==> |other| <= |m|
  }

  function Max(x: nat, y: nat): nat {
    if x < y then y else x
  }

  /** The textbook table: cell (|a|, |b|). */
  ghost function Lcs<T>(a: seq<T>, b: seq<T>): nat
    decreases |a| + |b|
  {
    if a == [] || b == [] then 0
    else if a[|a| - 1] == b[|b| - 1] then Lcs(a[..|a| - 1], b[..|b| - 1]) + 1
    else Max(Lcs(a[..|a| - 1], b), Lcs(a, b[..|b| - 1]))
  }

  lemma {:induction false} LcsBounds<T>(a: seq<T>, b: seq<T>, o0: nat, o1: nat, m: seq<Pair>)
    requires Matching(a, b, o0, o1, m)
    ensures |m| <= Lcs(a, b)
    decreases |a| + |b|
  {
    if m != [] {
      var p, q := m[|m| - 1].oldIndex - o0, m[|m| - 1].newIndex - o1;
      var a', b' := a[..|a| - 1], b[..|b| - 1];
      if a[|a| - 1] == b[|b| - 1] {
        LcsBounds(a', b', o0, o1, m[..|m| - 1]);
      } else if p < |a| - 1 {
        LcsBounds(a', b, o0, o1, m);
      } else {
        LcsBounds(a, b', o0, o1, m);
      }
    }
  }

  lemma {:induction false} LcsWitness<T>(a: seq<T>, b: seq<T>, o0: nat, o1: nat) returns (m: seq<Pair>)
    ensures Matching(a, b, o0, o1, m) && |m| == Lcs(a, b)
    decreases |a| + |b|
  {
    if a == [] || b == [] {
      m := [];
    } else if a[|a| - 1] == b[|b| - 1] {
      var inner := LcsWitness(a[..|a| - 1], b[..|b| - 1], o0, o1);
      m := inner + [Pair(o0 + |a| - 1, o1 + |b| - 1)];
    } else if Lcs(a[..|a| - 1], b) < Lcs(a, b[..|b| - 1]) {
      m := LcsWitness(a, b[..|b| - 1], o0, o1);
    } else {
      m := LcsWitness(a[..|a| - 1], b, o0, o1);
    }
  }

  /** The recurrence measures exactly the longest matchings. */
  lemma LongestIffLcs<T(!new)>(a: seq<T>, b: seq<T>, m: seq<Pair>)
    requires Matching(a, b, 0, 0, m)
    ensures Longest(a, b, m) <==> |m| == Lcs(a, b)
  {
    var best := LcsWitness(a, b, 0, 0);
    forall other | Matching(a, b, 0, 0, other) ensures |other| <= Lcs(a, b) {
      LcsBounds(a, b, 0, 0, other);
    }
  }

  /** No cell exceeds either length, so a 32-bit cell cannot wrap below 2^32 lines. */
  lemma LcsAtMostLength<T>(a: seq<T>, b: seq<T>)
    ensures Lcs(a, b) <= |a| && Lcs(a, b) <= |b|
  {
    var m := LcsWitness(a, b, 0, 0);
    IncreasingFits(m, |a|, |b|);
  }

  lemma {:induction false} IncreasingFits(m: seq<Pair>, n0: nat, n1: nat)
    requires forall k :: 0 <= k < |m| ==> m[k].oldIndex < n0 && m[k].newIndex < n1
    requires forall k, l :: 0 <= k < l < |m| ==> m[k].oldIndex < m[l].oldIndex && m[k].newIndex < m[l].newIndex
    ensures |m| <= n0 && |m| <= n1
  {
    if m != [] {
      IncreasingFits(m[..|m| - 1], m[|m| - 1].oldIndex, m[|m| - 1].newIndex);
    }
  }

  // --- reversal: the backward pass reads both sides from the end ---

  function Reverse<T>(s: seq<T>): (r: seq<T>)
    ensures |r| == |s| && forall k :: 0 <= k < |s| ==> r[k] == s[|s| - 1 - k]
  {
    seq(|s|, k requires 0 <= k < |s| => s[|s| - 1 - k])
  }

  ghost function Mirror(m: seq<Pair>, n0: nat, n1: nat): (r: seq<Pair>)
    requires forall k :: 0 <= k < |m| ==> m[k].oldIndex < n0 && m[k].newIndex < n1
    ensures |r| == |m|
    ensures forall k :: 0 <= k < |m| ==>
      r[k] == Pair(n0 - 1 - m[|m| - 1 - k].oldIndex, n1 - 1 - m[|m| - 1 - k].newIndex)
  {
    seq(|m|, k requires 0 <= k < |m| => Pair(n0 - 1 - m[|m| - 1 - k].oldIndex, n1 - 1 - m[|m| - 1 - k].newIndex))
  }

  lemma MirrorMatches<T>(a: seq<T>, b: seq<T>, m: seq<Pair>)
    requires Matching(a, b, 0, 0, m)
    ensures Matching(Reverse(a), Reverse(b), 0, 0, Mirror(m, |a|, |b|))
  {
  }

  lemma LcsReverse<T>(a: seq<T>, b: seq<T>)
    ensures Lcs(Reverse(a), Reverse(b)) == Lcs(a, b)
  {
    var m := LcsWitness(a, b, 0, 0);
    MirrorMatches(a, b, m);
    LcsBounds(Reverse(a), Reverse(b), 0, 0, Mirror(m, |a|, |b|));
    var w := LcsWitness(Reverse(a), Reverse(b), 0, 0);
    MirrorMatches(Reverse(a), Reverse(b), w);
    assert Reverse(Reverse(a)) == a && Reverse(Reverse(b)) == b;
    LcsBounds(a, b, 0, 0, Mirror(w, |a|, |b|));
  }

  // --- putting matchings of neighbouring parts together ---

  lemma ConcatMatches<T>(a: seq<T>, b: seq<T>, c: seq<T>, d: seq<T>, o0: nat, o1: nat, p0: nat, p1: nat,
                         m: seq<Pair>, n: seq<Pair>)
    requires p0 == o0 + |a| && p1 == o1 + |b| && Matching(a, b, o0, o1, m) && Matching(c, d, p0, p1, n)
    ensures Matching(a + c, b + d, o0, o1, m + n)
  {
  }

  lemma LcsSuperadditive<T>(a: seq<T>, b: seq<T>, c: seq<T>, d: seq<T>)
    ensures Lcs(a, b) + Lcs(c, d) <= Lcs(a + c, b + d)
  {
    var m := LcsWitness(a, b, 0, 0);
    var n := LcsWitness(c, d, |a|, |b|);
    ConcatMatches(a, b, c, d, 0, 0, |a|, |b|, m, n);
    LcsBounds(a + c, b + d, 0, 0, m + n);
  }

  /** Cutting the old side anywhere, some cut of the new side loses nothing. */
  lemma LcsSplitExists<T>(a: seq<T>, c: seq<T>, b: seq<T>) returns (cut: nat)
    ensures cut <= |b| && Lcs(a, b[..cut]) + Lcs(c, b[cut..]) == Lcs(a + c, b)
  {
    var m := LcsWitness(a + c, b, 0, 0);
    var k := 0;
    while k < |m| && m[k].oldIndex < |a|
      invariant 0 <= k <= |m|
      invariant k > 0 ==> m[k - 1].oldIndex < |a|
    {
      k := k + 1;
    }
    cut := if k == 0 then 0 else m[k - 1].newIndex + 1;
    SplitMatches(a, c, b, m, k, cut);
    LcsBounds(a, b[..cut], 0, 0, m[..k]);
    LcsBounds(c, b[cut..], |a|, cut, m[k..]);
    LcsSuperadditive(a, b[..cut], c, b[cut..]);
    assert b[..cut] + b[cut..] == b;
  }

  lemma SplitMatches<T>(a: seq<T>, c: seq<T>, b: seq<T>, m: seq<Pair>, k: nat, cut: nat)
    requires Matching(a + c, b, 0, 0, m) && k <= |m| && cut <= |b|
    requires forall i {:trigger m[i]} :: 0 <= i < k ==> m[i].oldIndex < |a| && m[i].newIndex < cut
    requires forall i {:trigger m[i]} :: k <= i < |m| ==> |a| <= m[i].oldIndex && cut <= m[i].newIndex
    ensures Matching(a, b[..cut], 0, 0, m[..k])
    ensures Matching(c, b[cut..], |a|, cut, m[k..])
  {
    forall i | 0 <= i < k ensures a[m[i].oldIndex] == b[..cut][m[i].newIndex] {
      assert (a + c)[m[i].oldIndex] == b[m[i].newIndex];
    }
    forall i | k <= i < |m| ensures c[m[i].oldIndex - |a|] == b[cut..][m[i].newIndex - cut] {
      assert (a + c)[m[i].oldIndex] == b[m[i].newIndex];
    }
  }

  /** Equal ends belong to some longest matching. */
  lemma LcsSharedEnd<T>(a: seq<T>, b: seq<T>, x: T)
    ensures Lcs(a + [x], b + [x]) == Lcs(a, b) + 1
  {
    assert (a + [x])[..|a|] == a && (b + [x])[..|b|] == b;
  }

  lemma LcsSharedStart<T>(a: seq<T>, b: seq<T>, x: T)
    ensures Lcs([x] + a, [x] + b) == Lcs(a, b) + 1
  {
    LcsReverse(a, b);
    LcsReverse([x] + a, [x] + b);
    assert Reverse([x] + a) == Reverse(a) + [x];
    assert Reverse([x] + b) == Reverse(b) + [x];
    LcsSharedEnd(Reverse(a), Reverse(b), x);
  }

  lemma {:induction false} LcsSharedSuffix<T>(a: seq<T>, b: seq<T>, s: seq<T>)
    ensures Lcs(a + s, b + s) == Lcs(a, b) + |s|
  {
    if s == [] {
      assert a + s == a && b + s == b;
    } else {
      var t, x := s[..|s| - 1], s[|s| - 1];
      LcsSharedSuffix(a, b, t);
      LcsSharedEnd(a + t, b + t, x);
      assert a + s == (a + t) + [x] && b + s == (b + t) + [x];
    }
  }

  lemma {:induction false} LcsSharedPrefix<T>(p: seq<T>, a: seq<T>, b: seq<T>)
    ensures Lcs(p + a, p + b) == |p| + Lcs(a, b)
  {
    if p == [] {
      assert p + a == a && p + b == b;
    } else {
      LcsSharedPrefix(p[1..], a, b);
      LcsSharedStart(p[1..] + a, p[1..] + b, p[0]);
      assert p + a == [p[0]] + (p[1..] + a) && p + b == [p[0]] + (p[1..] + b);
    }
  }

  lemma LcsDisjoint<T>(a: seq<T>, b: seq<T>)
    requires forall i, j :: 0 <= i < |a| && 0 <= j < |b| ==> a[i] != b[j]
    ensures Lcs(a, b) == 0
  {
    var m := LcsWitness(a, b, 0, 0);
  }

  /** A single old line is matched by its first occurrence, if any. */
  lemma LcsSingle<T>(x: T, b: seq<T>)
    ensures Lcs([x], b) == if x in b then 1 else 0
  {
    LcsAtMostLength([x], b);
    if x in b {
      var i :| 0 <= i < |b| && b[i] == x;
      LcsBounds([x], b, 0, 0, [Pair(0, i)]);
    } else {
      LcsDisjoint([x], b);
    }
  }
}
