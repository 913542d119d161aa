/** The edit script of a file mutation: rows that spell both files, with as few changed rows as
    any script that does. */
module FileDiff {
  import opened Subsequences
  import opened Lines
  import opened LineDiff

  datatype RowKind = Removed | Added | Context

  datatype LineNumber = NoLine | Line(number: nat)

  datatype Row = Row(kind: RowKind, oldLine: LineNumber, newLine: LineNumber, text: string)

  datatype FileDiff = FileDiff(additions: int, deletions: int, changedLines: int, lines: seq<Row>)

  // --- text and lines ---

  /** The lines of a file; a final newline ends the last line instead of opening another. */
  function LinesOf(value: string): seq<string> {
    var lines := Split(value, '\n');
    if lines[|lines| - 1] == "" then lines[..|lines| - 1] else lines
  }

  /** The text with its last line terminated. */
  function Terminated(value: string): string {
    if value == "" || value[|value| - 1] == '\n' then value else value + "\n"
  }

  function Unlines(lines: seq<string>): string {
    if lines == [] then "" else lines[0] + "\n" + Unlines(lines[1..])
  }

  lemma {:induction false} UnlinesJoin(lines: seq<string>)
    ensures Join(lines + [""], "\n") == Unlines(lines)
  {
    if lines != [] {
      UnlinesJoin(lines[1..]);
      JoinConcat([lines[0]], lines[1..] + [""], "\n");
      assert lines + [""] == [lines[0]] + (lines[1..] + [""]);
    }
  }

  lemma {:induction false} LastPieceEnds(pieces: seq<string>)
    requires pieces != []
    ensures pieces[|pieces| - 1] != "" ==>
      var text := Join(pieces, "\n");
      text != "" && text[|text| - 1] == pieces[|pieces| - 1][|pieces[|pieces| - 1]| - 1]
  {
    if |pieces| > 1 {
      LastPieceEnds(pieces[1..]);
    }
  }

  /** The lines spell the terminated text: only the final newline is lost. */
  lemma LinesSpellText(value: string)
    ensures Unlines(LinesOf(value)) == Terminated(value)
  {
    var pieces := Split(value, '\n');
    var last := pieces[|pieces| - 1];
    JoinSplit(value, '\n');
    if last == "" {
      assert pieces == LinesOf(value) + [""];
      UnlinesJoin(LinesOf(value));
      EndsInNewline(LinesOf(value));
    } else {
      JoinAppend(pieces, "", "\n");
      UnlinesJoin(pieces);
      LastPieceEnds(pieces);
      assert last in pieces && last[|last| - 1] in last;
    }
  }

  lemma {:induction false} EndsInNewline(lines: seq<string>)
    ensures Unlines(lines) == "" || Unlines(lines)[|Unlines(lines)| - 1] == '\n'
  {
    if lines != [] {
      EndsInNewline(lines[1..]);
    }
  }

  lemma {:induction false} LinesOfUnlines(lines: seq<string>)
    requires forall line :: line in lines ==> '\n' !in line
    ensures LinesOf(Unlines(lines)) == lines
  {
    UnlinesJoin(lines);
    SplitJoin(lines + [""], '\n');
  }

  /** Two files have the same lines exactly when they differ at most in a final newline. */
  lemma SameLinesIff(a: string, b: string)
    ensures LinesOf(a) == LinesOf(b) <==> Terminated(a) == Terminated(b)
  {
    LinesSpellText(a);
    LinesSpellText(b);
    LinesOfUnlines(LinesOf(a));
    LinesOfUnlines(LinesOf(b));
  }

  // --- scripts ---

  /** The old file as a script spells it. */
  ghost function OldSide(rows: seq<Row>): seq<string> {
    if rows == [] then []
    else
      var last := rows[|rows| - 1];
      OldSide(rows[..|rows| - 1]) + if last.kind == Added then [] else [last.text]
  }

  /** The new file as a script spells it. */
  ghost function NewSide(rows: seq<Row>): seq<string> {
    if rows == [] then []
    else
      var last := rows[|rows| - 1];
      NewSide(rows[..|rows| - 1]) + if last.kind == Removed then [] else [last.text]
  }

  ghost function Count(rows: seq<Row>, kind: RowKind): nat {
    if rows == [] then 0
    else Count(rows[..|rows| - 1], kind) + if rows[|rows| - 1].kind == kind then 1 else 0
  }

  /** The number of changed rows. */
  ghost function Changed(rows: seq<Row>): nat {
    Count(rows, Removed) + Count(rows, Added)
  }

  /** Every row carries its 1-based position on each side it belongs to. */
  ghost predicate Numbered(rows: seq<Row>) {
    rows != [] ==>
      var before, last := rows[..|rows| - 1], rows[|rows| - 1];
      && Numbered(before)
      && last.oldLine == (if last.kind == Added then NoLine else Line(|OldSide(before)| + 1))
      && last.newLine == (if last.kind == Removed then NoLine else Line(|NewSide(before)| + 1))
  }

  /** The lines a script keeps, by their positions on both sides. */
  ghost function Kept(rows: seq<Row>): seq<Pair> {
    if rows == [] then []
    else
      var before, last := rows[..|rows| - 1], rows[|rows| - 1];
      if last.kind == Context then Kept(before) + [Pair(|OldSide(before)|, |NewSide(before)|)] else Kept(before)
  }

  /** Within a change the removed rows come first: none follows an added one directly. */
  ghost predicate RemovedFirst(rows: seq<Row>) {
    forall k {:trigger rows[k]} :: 0 <= k < |rows| - 1 ==> !(rows[k].kind.Added? && rows[k + 1].kind.Removed?)
  }

  /** The context rows of any script are a matching of the two sides it spells. */
  lemma {:induction false} ContextMatches(rows: seq<Row>)
    ensures Matching(OldSide(rows), NewSide(rows), 0, 0, Kept(rows)) && |Kept(rows)| == Count(rows, Context)
    ensures |OldSide(rows)| == |Kept(rows)| + Count(rows, Removed)
    ensures |NewSide(rows)| == |Kept(rows)| + Count(rows, Added)
  {
    if rows != [] {
      var before, last := rows[..|rows| - 1], rows[|rows| - 1];
      ContextMatches(before);
      if last.kind == Context {
        MatchOneMore(OldSide(before), NewSide(before), Kept(before), last.text);
      }
    }
  }

  /** A line kept on both sides is one more match. */
  lemma MatchOneMore(a: seq<string>, b: seq<string>, m: seq<Pair>, line: string)
    requires Matching(a, b, 0, 0, m)
    ensures Matching(a + [line], b + [line], 0, 0, m + [Pair(|a|, |b|)])
  {
  }

  /** No script beats the table: the lower bound every script meets. */
  lemma ScriptBound(rows: seq<Row>)
    ensures Changed(rows) >= |OldSide(rows)| + |NewSide(rows)| - 2 * Lcs(OldSide(rows), NewSide(rows))
  {
    ContextMatches(rows);
    LcsBounds(OldSide(rows), NewSide(rows), 0, 0, Kept(rows));
  }

  // --- the emitter ---

  /** The rows so far spell the first `i` old and `j` new lines, keeping these of them. */
  ghost predicate Emitted(rows: seq<Row>, oldLines: seq<string>, newLines: seq<string>, i: nat, j: nat,
                          kept: seq<Pair>)
  {
    && i <= |oldLines| && j <= |newLines|
    && OldSide(rows) == oldLines[..i] && NewSide(rows) == newLines[..j]
    && Numbered(rows) && Kept(rows) == kept && RemovedFirst(rows)
  }

  /** No added row stands at the end. */
  ghost predicate MayRemove(rows: seq<Row>) {
    rows == [] || !rows[|rows| - 1].kind.Added?
  }

  lemma EmitOne(rows: seq<Row>, row: Row, oldLines: seq<string>, newLines: seq<string>, i: nat, j: nat, kept: seq<Pair>)
    requires Emitted(rows, oldLines, newLines, i, j, kept)
    requires row.kind != Added ==> i < |oldLines| && row.oldLine == Line(i + 1) && row.text == oldLines[i]
    requires row.kind != Removed ==> j < |newLines| && row.newLine == Line(j + 1) && row.text == newLines[j]
    requires row.kind == Added ==> row.oldLine == NoLine
    requires row.kind == Removed ==> row.newLine == NoLine && MayRemove(rows)
    ensures Emitted(rows + [row], oldLines, newLines,
                    if row.kind == Added then i else i + 1, if row.kind == Removed then j else j + 1,
                    if row.kind == Context then kept + [Pair(i, j)] else kept)
    ensures MayRemove(rows + [row]) <==> row.kind != Added
  {
    var after := rows + [row];
    assert after[..|after| - 1] == rows;
    if row.kind != Added {
      assert oldLines[..i + 1] == oldLines[..i] + [oldLines[i]];
    }
    if row.kind != Removed {
      assert newLines[..j + 1] == newLines[..j] + [newLines[j]];
    }
    forall k {:trigger after[k]} | 0 <= k < |after| - 1
      ensures !(after[k].kind.Added? && after[k + 1].kind.Removed?)
    {
      assert rows[k] == after[k] && (k < |rows| - 1 ==> rows[k + 1] == after[k + 1]);
    }
  }

  /** The removed rows and then the added rows up to the next match. */
  method EmitGap(rows: seq<Row>, oldLines: seq<string>, newLines: seq<string>, i: nat, j: nat, match_: Pair,
                 ghost kept: seq<Pair>)
    returns (out: seq<Row>)
    requires Emitted(rows, oldLines, newLines, i, j, kept) && MayRemove(rows)
    requires i <= match_.oldIndex <= |oldLines| && j <= match_.newIndex <= |newLines|
    ensures Emitted(out, oldLines, newLines, match_.oldIndex, match_.newIndex, kept)
  {
    out := rows;
    var oldIndex, newIndex := i, j;
    while oldIndex < match_.oldIndex
      invariant oldIndex <= match_.oldIndex
      invariant Emitted(out, oldLines, newLines, oldIndex, j, kept) && MayRemove(out)
    {
      var row := Row(Removed, Line(oldIndex + 1), NoLine, oldLines[oldIndex]);
      EmitOne(out, row, oldLines, newLines, oldIndex, j, kept);
      out := out + [row];
      oldIndex := oldIndex + 1;
    }
    while newIndex < match_.newIndex
      invariant newIndex <= match_.newIndex
      invariant Emitted(out, oldLines, newLines, oldIndex, newIndex, kept)
    {
      var row := Row(Added, NoLine, Line(newIndex + 1), newLines[newIndex]);
      EmitOne(out, row, oldLines, newLines, oldIndex, newIndex, kept);
      out := out + [row];
      newIndex := newIndex + 1;
    }
  }

  /** Where the emitter stands after `k` matches. */
  ghost function After(m: seq<Pair>, k: nat): Pair
    requires k <= |m|
  {
    if k == 0 then Pair(0, 0) else Pair(m[k - 1].oldIndex + 1, m[k - 1].newIndex + 1)
  }

  lemma OneMoreMatch(m: seq<Pair>, k: nat)
    requires k < |m|
    ensures m[..k + 1] == m[..k] + [m[k]]
  {
  }

  method EmitRows(oldLines: seq<string>, newLines: seq<string>, m: seq<Pair>) returns (rows: seq<Row>)
    requires Matching(oldLines, newLines, 0, 0, m)
    ensures Emitted(rows, oldLines, newLines, |oldLines|, |newLines|, m)
  {
    var matches := m + [Pair(|oldLines|, |newLines|)];
    rows := [];
    var oldIndex, newIndex := 0, 0;
    var k := 0;
    while k < |matches|
      invariant 0 <= k <= |matches|
      invariant k <= |m| ==> oldIndex == After(m, k).oldIndex && newIndex == After(m, k).newIndex
      invariant k <= |m| ==> Emitted(rows, oldLines, newLines, oldIndex, newIndex, m[..k]) && MayRemove(rows)
      invariant k == |m| + 1 ==> Emitted(rows, oldLines, newLines, |oldLines|, |newLines|, m)
    {
      rows := EmitGap(rows, oldLines, newLines, oldIndex, newIndex, matches[k], m[..k]);
      oldIndex, newIndex := matches[k].oldIndex, matches[k].newIndex;
      if oldIndex < |oldLines| {
        var row := Row(Context, Line(oldIndex + 1), Line(newIndex + 1), oldLines[matches[k].oldIndex]);
        EmitOne(rows, row, oldLines, newLines, oldIndex, newIndex, m[..k]);
        OneMoreMatch(m, k);
        rows := rows + [row];
        oldIndex, newIndex := oldIndex + 1, newIndex + 1;
      } else {
        assert m[..k] == m;
      }
      k := k + 1;
    }
  }

  /** The script is faithful, numbered, in order, counted correctly and minimal. */
  method CreateFileDiff(before: string, after: string) returns (diff: FileDiff)
    ensures OldSide(diff.lines) == LinesOf(before) && NewSide(diff.lines) == LinesOf(after)
    ensures Numbered(diff.lines) && RemovedFirst(diff.lines)
    ensures KeepsEnds(Kept(diff.lines), LinesOf(before), LinesOf(after), 0, 0)
    ensures diff.additions == Count(diff.lines, Added) && diff.deletions == Count(diff.lines, Removed)
    ensures diff.changedLines == Changed(diff.lines)
    ensures forall rows :: OldSide(rows) == LinesOf(before) && NewSide(rows) == LinesOf(after) ==>
      diff.changedLines <= Changed(rows)
    ensures diff.changedLines == 0 <==> Terminated(before) == Terminated(after)
  {
    var oldLines, newLines := LinesOf(before), LinesOf(after);
    var found := new Matches();
    ghost var m := MatchLines(oldLines, newLines, 0, 0, found);
    assert found.pairs == m;
    var rows := EmitRows(oldLines, newLines, found.pairs);
    var matchCount := |found.pairs| + 1;
    var additions, deletions := |newLines| - matchCount + 1, |oldLines| - matchCount + 1;
    diff := FileDiff(additions, deletions, additions + deletions, rows);
    assert rows[..|rows|] == rows && oldLines[..|oldLines|] == oldLines && newLines[..|newLines|] == newLines;
    ContextMatches(rows);
    forall other | OldSide(other) == oldLines && NewSide(other) == newLines
      ensures diff.changedLines <= Changed(other)
    {
      ScriptBound(other);
    }
    NoChangeIff(oldLines, newLines, m);
    SameLinesIff(before, after);
  }

  lemma NoChangeIff(oldLines: seq<string>, newLines: seq<string>, m: seq<Pair>)
    requires Matching(oldLines, newLines, 0, 0, m) && |m| == Lcs(oldLines, newLines)
    ensures |oldLines| + |newLines| - 2 * |m| == 0 <==> oldLines == newLines
  {
    LcsAtMostLength(oldLines, newLines);
    if oldLines == newLines {
      LcsSharedSuffix<string>([], [], oldLines);
      assert [] + oldLines == oldLines;
    } else if |m| == |oldLines| == |newLines| {
      FullMatchingPairs(oldLines, newLines, m);
    }
  }

  lemma {:induction false} FullMatchingPairs(a: seq<string>, b: seq<string>, m: seq<Pair>)
    requires Matching(a, b, 0, 0, m) && |m| == |a| == |b|
    ensures a == b
  {
    if m != [] {
      var n := |m| - 1;
      IncreasingFits(m[..n], m[n].oldIndex, m[n].newIndex);
      FullMatchingPairs(a[..n], b[..n], m[..n]);
      assert a == a[..n] + [a[n]] && b == b[..n] + [b[n]];
    }
  }
}
