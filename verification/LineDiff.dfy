/** The line diff of a file mutation: common ends are stripped, the middle is cut in two by
    one-row score arrays run from both sides, and the matches drive a row emitter. */
module LineDiff {
  import opened Subsequences

  /** The array the search pushes its matches to. */
  class Matches {
    var pairs: seq<Pair>

    constructor ()
      ensures pairs == []
    {
      pairs := [];
    }

    method Push(oldIndex: nat, newIndex: nat)
      modifies this
      ensures pairs == old(pairs) + [Pair(oldIndex, newIndex)]
    {
      pairs := pairs + [Pair(oldIndex, newIndex)];
    }
  }

  datatype Direction = Forward | Backward

  /** The order in which one direction reads a side. */
  ghost function Oriented<T>(lines: seq<T>, direction: Direction): (r: seq<T>)
    ensures |r| == |lines|
  {
    if direction.Forward? then lines else Reverse(lines)
  }

  /** One more old line read: every cell moves to the next table row, in place. */
  method UpdateScores(scores: array<nat>, oldLine: string, newLines: seq<string>, direction: Direction,
                      ghost rows: seq<string>)
    requires scores.Length == |newLines| + 1
    requires forall c :: 0 <= c <= |newLines| ==> scores[c] == Lcs(rows, Oriented(newLines, direction)[..c])
    modifies scores
    ensures forall c :: 0 <= c <= |newLines| ==>
      scores[c] == Lcs(rows + [oldLine], Oriented(newLines, direction)[..c])
  {
    ghost var columns := Oriented(newLines, direction);
    var diagonal := 0;
    var column := 1;
    while column <= |newLines|
      invariant 1 <= column <= |newLines| + 1
      invariant diagonal == Lcs(rows, columns[..column - 1])
      invariant forall c :: 0 <= c < column ==> scores[c] == Lcs(rows + [oldLine], columns[..c])
      invariant forall c :: column <= c <= |newLines| ==> scores[c] == Lcs(rows, columns[..c])
    {
      var previous := scores[column];
      var index := if direction.Forward? then column - 1 else |newLines| - column;
      assert columns[column - 1] == newLines[index];
      assert columns[..column][..column - 1] == columns[..column - 1];
      assert (rows + [oldLine])[..|rows|] == rows;
      scores[column] := if oldLine == newLines[index] then diagonal + 1 else Max(previous, scores[column - 1]);
      diagonal := previous;
      column := column + 1;
    }
  }

  /** After all rows, cell `c` is the table value for the first (or last) `c` new lines. */
  method LcsScores(oldLines: seq<string>, newLines: seq<string>, direction: Direction) returns (scores: array<nat>)
    ensures fresh(scores) && scores.Length == |newLines| + 1
    ensures forall c :: 0 <= c <= |newLines| ==> scores[c] <= |newLines|
    ensures direction.Forward? ==> forall c :: 0 <= c <= |newLines| ==> scores[c] == Lcs(oldLines, newLines[..c])
    ensures direction.Backward? ==>
      forall c :: 0 <= c <= |newLines| ==> scores[c] == Lcs(oldLines, newLines[|newLines| - c..])
  {
    scores := new nat[|newLines| + 1](_ => 0);
    ghost var rows := Oriented(oldLines, direction);
    var row := 0;
    while row < |oldLines|
      invariant 0 <= row <= |oldLines|
      invariant forall c :: 0 <= c <= |newLines| ==>
        scores[c] == Lcs(rows[..row], Oriented(newLines, direction)[..c])
    {
      var index := if direction.Forward? then row else |oldLines| - row - 1;
      UpdateScores(scores, oldLines[index], newLines, direction, rows[..row]);
      assert rows[..row + 1] == rows[..row] + [oldLines[index]];
      row := row + 1;
    }
    assert rows[..row] == rows;
    forall c | 0 <= c <= |newLines|
      ensures scores[c] <= |newLines|
      ensures direction.Backward? ==> scores[c] == Lcs(oldLines, newLines[|newLines| - c..])
    {
      LcsAtMostLength(rows, Oriented(newLines, direction)[..c]);
      if direction.Backward? {
        assert Reverse(newLines)[..c] == Reverse(newLines[|newLines| - c..]);
        LcsReverse(oldLines, newLines[|newLines| - c..]);
      }
    }
  }

  /** What a cut of the new side finds. */
  ghost function CutScore(left: seq<string>, right: seq<string>, newLines: seq<string>, c: nat): nat
    requires c <= |newLines|
  {
    Lcs(left, newLines[..c]) + Lcs(right, newLines[c..])
  }

  /** A cut of the new side that loses nothing of the whole. */
  ghost predicate Lossless(left: seq<string>, right: seq<string>, newLines: seq<string>, whole: seq<string>, c: nat)
    requires c <= |newLines|
  {
    CutScore(left, right, newLines, c) == Lcs(whole, newLines)
  }

  /** The best cut is lossless. */
  lemma BestIsLossless(left: seq<string>, right: seq<string>, newLines: seq<string>, whole: seq<string>, split: nat)
    requires whole == left + right && split <= |newLines|
    requires forall c :: 0 <= c <= |newLines| ==>
      CutScore(left, right, newLines, c) <= CutScore(left, right, newLines, split)
    ensures Lossless(left, right, newLines, whole, split)
  {
    var cut := LcsSplitExists(left, right, newLines);
    assert CutScore(left, right, newLines, cut) <= CutScore(left, right, newLines, split);
    LcsSuperadditive(left, newLines[..split], right, newLines[split..]);
    Halves(newLines, split);
  }

  /** The two halves meet at the first column where nothing of the whole is lost. */
  method SplitColumn(left: seq<string>, right: seq<string>, newLines: seq<string>, ghost whole: seq<string>)
    returns (split: nat)
    requires whole == left + right
    ensures split <= |newLines| && Lossless(left, right, newLines, whole, split)
    ensures forall c :: 0 <= c < split ==> !Lossless(left, right, newLines, whole, c)
  {
    var forward := LcsScores(left, newLines, Forward);
    var backward := LcsScores(right, newLines, Backward);
    var best: int := -1;
    split := 0;
    var column := 0;
    while column <= |newLines|
      invariant 0 <= column <= |newLines| + 1
      invariant split <= |newLines|
      invariant column > 0 ==> best == CutScore(left, right, newLines, split)
      invariant forall c :: 0 <= c < column ==> CutScore(left, right, newLines, c) <= best
      invariant forall c :: 0 <= c < split ==> CutScore(left, right, newLines, c) < best
      invariant column == 0 ==> best == -1
    {
      var score := forward[column] + backward[|newLines| - column];
      assert score == CutScore(left, right, newLines, column);
      if score > best {
        best := score;
        split := column;
      }
      column := column + 1;
    }
    BestIsLossless(left, right, newLines, whole, split);
  }

  method IndexOf(lines: seq<string>, line: string) returns (index: int)
    ensures index == -1 ==> line !in lines
    ensures index != -1 ==> 0 <= index < |lines| && lines[index] == line && line !in lines[..index]
  {
    index := 0;
    while index < |lines|
      invariant 0 <= index <= |lines|
      invariant line !in lines[..index]
    {
      if lines[index] == line {
        return;
      }
      index := index + 1;
    }
    index := -1;
  }

  lemma AppendNothing(a: seq<Pair>)
    ensures a + [] == a
  {
  }

  lemma AppendTwice(a: seq<Pair>, b: seq<Pair>, c: seq<Pair>)
    ensures a + b + c == a + (b + c)
  {
  }

  lemma AppendThrice(a: seq<Pair>, b: seq<Pair>, c: seq<Pair>, d: seq<Pair>)
    ensures a + b + c + d == a + (b + (c + d))
  {
  }

  lemma Halves(s: seq<string>, i: nat)
    requires i <= |s|
    ensures s == s[..i] + s[i..]
  {
  }

  lemma Rejoin(s: seq<string>, i: nat, j: nat)
    requires i <= j <= |s|
    ensures s[..i] + (s[i..j] + s[j..]) == s
  {
  }

  /** What a search has to push: a matching of its two sides at their offsets, of the LCS size. */
  ghost predicate Solves(m: seq<Pair>, oldLines: seq<string>, newLines: seq<string>, oldOffset: nat, newOffset: nat) {
    Matching(oldLines, newLines, oldOffset, newOffset, m) && |m| == Lcs(oldLines, newLines)
  }

  /** Solutions of the two halves solve the whole when the cut loses nothing. */
  lemma HalvesSolve(left: seq<string>, right: seq<string>, newLines: seq<string>, whole: seq<string>, split: nat,
                    o0: nat, o1: nat, p0: nat, p1: nat, m: seq<Pair>, n: seq<Pair>)
    requires split <= |newLines| && whole == left + right && p0 == o0 + |left| && p1 == o1 + split
    requires Solves(m, left, newLines[..split], o0, o1) && Solves(n, right, newLines[split..], p0, p1)
    requires Lossless(left, right, newLines, whole, split)
    ensures Solves(m + n, whole, newLines, o0, o1)
  {
    ConcatMatches(left, newLines[..split], right, newLines[split..], o0, o1, p0, p1, m, n);
    Halves(newLines, split);
  }

  lemma SingleSolves(line: string, newLines: seq<string>, column: int, o0: nat, o1: nat)
    requires column == -1 ==> line !in newLines
    requires column != -1 ==> 0 <= column < |newLines| && newLines[column] == line
    ensures Solves(if column == -1 then [] else [Pair(o0, o1 + column)], [line], newLines, o0, o1)
  {
    LcsSingle(line, newLines);
  }

  /** `newLines.some((line) => values.has(line))`: sides without a shared line match nothing. */
  method SharesLine(oldLines: seq<string>, newLines: seq<string>) returns (shared: bool)
    ensures shared <==> exists i, j :: 0 <= i < |oldLines| && 0 <= j < |newLines| && oldLines[i] == newLines[j]
    ensures shared <==> Lcs(oldLines, newLines) > 0
  {
    var values := set line | line in oldLines;
    shared := exists line :: line in newLines && line in values;
    if shared {
      var i, j :| 0 <= i < |oldLines| && 0 <= j < |newLines| && oldLines[i] == newLines[j];
      LcsBounds(oldLines, newLines, 0, 0, [Pair(i, j)]);
    } else {
      forall i, j | 0 <= i < |oldLines| && 0 <= j < |newLines| ensures oldLines[i] != newLines[j] {
        assert oldLines[i] in values && newLines[j] in newLines;
      }
      LcsDisjoint(oldLines, newLines);
    }
  }

  method MatchMiddle(oldLines: seq<string>, newLines: seq<string>, oldOffset: nat, newOffset: nat, matches: Matches)
    returns (ghost m: seq<Pair>)
    modifies matches
    ensures Solves(m, oldLines, newLines, oldOffset, newOffset)
    ensures matches.pairs == old(matches.pairs) + m
    decreases |oldLines|, 1
  {
    m := [];
    AppendNothing(matches.pairs);
    if |oldLines| == 0 || |newLines| == 0 {
      return;
    }
    if |oldLines| == 1 {
      assert oldLines == [oldLines[0]];
      var column := IndexOf(newLines, oldLines[0]);
      SingleSolves(oldLines[0], newLines, column, oldOffset, newOffset);
      if column != -1 {
        matches.Push(oldOffset, newOffset + column);
        m := [Pair(oldOffset, newOffset + column)];
      }
      return;
    }
    var shared := SharesLine(oldLines, newLines);
    if !shared {
      return;
    }
    m := MatchHalves(oldLines, newLines, oldOffset, newOffset, matches);
  }

  /** The divide step of `MatchMiddle`. */
  method MatchHalves(oldLines: seq<string>, newLines: seq<string>, oldOffset: nat, newOffset: nat, matches: Matches)
    returns (ghost m: seq<Pair>)
    requires |oldLines| > 1
    modifies matches
    ensures Solves(m, oldLines, newLines, oldOffset, newOffset)
    ensures matches.pairs == old(matches.pairs) + m
    decreases |oldLines|, 0
  {
    var middle := |oldLines| / 2;
    var left, right := oldLines[..middle], oldLines[middle..];
    Halves(oldLines, middle);
    var column := SplitColumn(left, right, newLines, oldLines);
    var newLeft, newRight := newLines[..column], newLines[column..];
    ghost var first := MatchLines(left, newLeft, oldOffset, newOffset, matches);
    ghost var second := MatchLines(right, newRight, oldOffset + middle, newOffset + column, matches);
    m := first + second;
    HalvesSolve(left, right, newLines, oldLines, column, oldOffset, newOffset, oldOffset + middle, newOffset + column,
                first, second);
    AppendTwice(old(matches.pairs), first, second);
  }

  /** The longest start two sides share, and the longest end they share besides. */
  ghost predicate Ends(a: seq<string>, b: seq<string>, p: nat, q: nat) {
    && p + q <= |a| && p + q <= |b| && a[..p] == b[..p] && a[|a| - q..] == b[|b| - q..]
    && (p == |a| || p == |b| || a[p] != b[p])
    && (p + q == |a| || p + q == |b| || a[|a| - q - 1] != b[|b| - q - 1])
  }

  /** The matches begin with the shared start and end with the shared end, line by line. */
  ghost predicate Keeps(m: seq<Pair>, a: seq<string>, b: seq<string>, o0: nat, o1: nat, p: nat, q: nat)
    requires Ends(a, b, p, q)
  {
    p + q <= |m| && IsRun(m[..p], o0, o1) && IsRun(m[|m| - q..], o0 + |a| - q, o1 + |b| - q)
  }

  ghost predicate KeepsEnds(m: seq<Pair>, a: seq<string>, b: seq<string>, o0: nat, o1: nat) {
    exists p, q :: Ends(a, b, p, q) && Keeps(m, a, b, o0, o1, p, q)
  }

  ghost predicate Answers(m: seq<Pair>, a: seq<string>, b: seq<string>, o0: nat, o1: nat) {
    Solves(m, a, b, o0, o1) && KeepsEnds(m, a, b, o0, o1)
  }

  lemma KeepsWhole(a: seq<string>, b: seq<string>, prefix: nat, oldEnd: nat, newEnd: nat, o0: nat, o1: nat,
                   first: seq<Pair>, inner: seq<Pair>, last: seq<Pair>)
    requires prefix <= oldEnd <= |a| && prefix <= newEnd <= |b| && |a| - oldEnd == |b| - newEnd
    requires Ends(a, b, prefix, |a| - oldEnd)
    requires |first| == prefix && IsRun(first, o0, o1)
    requires |last| == |a| - oldEnd && IsRun(last, o0 + oldEnd, o1 + newEnd)
    ensures KeepsEnds(first + (inner + last), a, b, o0, o1)
  {
    var m := first + (inner + last);
    assert m[..prefix] == first && m[|m| - |last|..] == last;
    assert Keeps(m, a, b, o0, o1, prefix, |last|);
  }

  /** Stripping equal ends keeps an optimal answer optimal. */
  lemma EndsSolve(p: seq<string>, a: seq<string>, b: seq<string>, s: seq<string>, o0: nat, o1: nat,
                  first: seq<Pair>, m: seq<Pair>, last: seq<Pair>)
    requires Matching(p, p, o0, o1, first) && |first| == |p|
    requires Solves(m, a, b, o0 + |p|, o1 + |p|)
    requires Matching(s, s, o0 + |p| + |a|, o1 + |p| + |b|, last) && |last| == |s|
    ensures Solves(first + (m + last), p + (a + s), p + (b + s), o0, o1)
  {
    LcsSharedSuffix(a, b, s);
    ConcatMatches(a, b, s, s, o0 + |p|, o1 + |p|, o0 + |p| + |a|, o1 + |p| + |b|, m, last);
    LcsSharedPrefix(p, a + s, b + s);
    ConcatMatches(p, p, a + s, b + s, o0, o1, o0 + |p|, o1 + |p|, first, m + last);
  }

  method MatchLines(oldLines: seq<string>, newLines: seq<string>, oldOffset: nat, newOffset: nat, matches: Matches)
    returns (ghost m: seq<Pair>)
    modifies matches
    ensures Answers(m, oldLines, newLines, oldOffset, newOffset)
    ensures matches.pairs == old(matches.pairs) + m
    decreases |oldLines|, 2
  {
    var prefix := 0;
    ghost var first: seq<Pair> := [];
    while prefix < |oldLines| && prefix < |newLines| && oldLines[prefix] == newLines[prefix]
      invariant 0 <= prefix <= |oldLines| && prefix <= |newLines|
      invariant oldLines[..prefix] == newLines[..prefix]
      invariant |first| == prefix && IsRun(first, oldOffset, newOffset)
      invariant matches.pairs == old(matches.pairs) + first
    {
      matches.Push(oldOffset + prefix, newOffset + prefix);
      AppendTwice(old(matches.pairs), first, [Pair(oldOffset + prefix, newOffset + prefix)]);
      first := first + [Pair(oldOffset + prefix, newOffset + prefix)];
      prefix := prefix + 1;
    }
    var oldEnd, newEnd := |oldLines|, |newLines|;
    while oldEnd > prefix && newEnd > prefix && oldLines[oldEnd - 1] == newLines[newEnd - 1]
      invariant prefix <= oldEnd <= |oldLines| && prefix <= newEnd <= |newLines|
      invariant oldLines[oldEnd..] == newLines[newEnd..]
      invariant matches.pairs == old(matches.pairs) + first
    {
      oldEnd := oldEnd - 1;
      newEnd := newEnd - 1;
      SuffixGrows(oldLines, newLines, oldEnd, newEnd);
    }
    var oldMiddle, newMiddle := oldLines[prefix..oldEnd], newLines[prefix..newEnd];
    ghost var inner := MatchMiddle(oldMiddle, newMiddle, oldOffset + prefix, newOffset + prefix, matches);
    ghost var done := matches.pairs;
    var index := 0;
    ghost var last: seq<Pair> := [];
    while index < |oldLines| - oldEnd
      invariant 0 <= index <= |oldLines| - oldEnd
      invariant |last| == index && IsRun(last, oldOffset + oldEnd, newOffset + newEnd)
      invariant matches.pairs == done + last
    {
      matches.Push(oldOffset + oldEnd + index, newOffset + newEnd + index);
      AppendTwice(done, last, [Pair(oldOffset + oldEnd + index, newOffset + newEnd + index)]);
      last := last + [Pair(oldOffset + oldEnd + index, newOffset + newEnd + index)];
      index := index + 1;
    }
    m := first + (inner + last);
    WholeAnswers(oldLines, newLines, prefix, oldEnd, newEnd, oldOffset, newOffset, first, inner, last);
    AppendThrice(old(matches.pairs), first, inner, last);
  }

  /** Consecutive pairs from (o0, o1) on. */
  ghost predicate IsRun(m: seq<Pair>, o0: nat, o1: nat) {
    forall k :: 0 <= k < |m| ==> m[k] == Pair(o0 + k, o1 + k)
  }

  lemma SuffixGrows(a: seq<string>, b: seq<string>, i: nat, j: nat)
    requires i < |a| && j < |b| && a[i + 1..] == b[j + 1..] && a[i] == b[j]
    ensures a[i..] == b[j..]
  {
    assert a[i..] == [a[i]] + a[i + 1..] && b[j..] == [b[j]] + b[j + 1..];
  }

  lemma WholeAnswers(oldLines: seq<string>, newLines: seq<string>, prefix: nat, oldEnd: nat, newEnd: nat,
                     o0: nat, o1: nat, first: seq<Pair>, inner: seq<Pair>, last: seq<Pair>)
    requires prefix <= oldEnd <= |oldLines| && prefix <= newEnd <= |newLines|
    requires |oldLines| - oldEnd == |newLines| - newEnd && Ends(oldLines, newLines, prefix, |oldLines| - oldEnd)
    requires |first| == prefix && IsRun(first, o0, o1)
    requires Solves(inner, oldLines[prefix..oldEnd], newLines[prefix..newEnd], o0 + prefix, o1 + prefix)
    requires |last| == |oldLines| - oldEnd && IsRun(last, o0 + oldEnd, o1 + newEnd)
    ensures Answers(first + (inner + last), oldLines, newLines, o0, o1)
  {
    WholeSolves(oldLines, newLines, prefix, oldEnd, newEnd, o0, o1, first, inner, last);
    KeepsWhole(oldLines, newLines, prefix, oldEnd, newEnd, o0, o1, first, inner, last);
  }

  lemma WholeSolves(oldLines: seq<string>, newLines: seq<string>, prefix: nat, oldEnd: nat, newEnd: nat,
                    o0: nat, o1: nat, first: seq<Pair>, inner: seq<Pair>, last: seq<Pair>)
    requires prefix <= oldEnd <= |oldLines| && prefix <= newEnd <= |newLines|
    requires oldLines[..prefix] == newLines[..prefix] && oldLines[oldEnd..] == newLines[newEnd..]
    requires |first| == prefix && IsRun(first, o0, o1)
    requires Solves(inner, oldLines[prefix..oldEnd], newLines[prefix..newEnd], o0 + prefix, o1 + prefix)
    requires |last| == |oldLines| - oldEnd && IsRun(last, o0 + oldEnd, o1 + newEnd)
    ensures Solves(first + (inner + last), oldLines, newLines, o0, o1)
  {
    var p, s, a, b := oldLines[..prefix], oldLines[oldEnd..], oldLines[prefix..oldEnd], newLines[prefix..newEnd];
    EndsSolve(p, a, b, s, o0, o1, first, inner, last);
    Rejoin(oldLines, prefix, oldEnd);
    Rejoin(newLines, prefix, newEnd);
  }
}
