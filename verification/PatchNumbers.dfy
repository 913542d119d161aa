/** Lines shown with numbers, and patches whose context carries those numbers. */
module PatchNumbers {
  import opened Decimal
  import opened Lines
  import opened Outcome
  import opened Text

  function Spaces(n: nat): (s: string)
    ensures |s| == n && forall i :: 0 <= i < n ==> s[i] == ' '
  {
    if n == 0 then "" else " " + Spaces(n - 1)
  }

  // --- numbered lines ---

  /** The text is a line with its number before it, however padded. */
  ghost predicate Labelled(text: string, n: nat, line: string) {
    exists pad: nat, digits: string :: LabelledWith(text, n, line, pad, digits)
  }

  ghost predicate LabelledWith(text: string, n: nat, line: string, pad: nat, digits: string) {
    digits != "" && AllDigits(digits) && Value(digits) == n && text == Spaces(pad) + digits + "\t" + line
  }

  datatype Reading = Numbered(n: nat, line: string) | NoNumber

  function LeadingSpaces(text: string): (n: nat)
    ensures n <= |text| && (n < |text| ==> text[n] != ' ')
    ensures forall i :: 0 <= i < n ==> text[i] == ' '
  {
    if text == "" || text[0] != ' ' then 0 else 1 + LeadingSpaces(text[1..])
  }

  /** What `/^ *(\d+)\t/` finds, and what is left without it. */
  function ReadNumber(text: string): Reading {
    var tail := text[LeadingSpaces(text)..];
    var n := LeadingDigits(tail);
    if n > 0 && n < |tail| && tail[n] == '\t' then Numbered(Value(tail[..n]), tail[n + 1..]) else NoNumber
  }

  /** The pattern finds exactly the labels there are. */
  lemma ReadNumberIff(text: string, n: nat, line: string)
    ensures ReadNumber(text) == Numbered(n, line) <==> Labelled(text, n, line)
  {
    var pad := LeadingSpaces(text);
    var tail := text[pad..];
    var k := LeadingDigits(tail);
    if ReadNumber(text) == Numbered(n, line) {
      assert text == Spaces(pad) + tail[..k] + "\t" + line;
      assert LabelledWith(text, n, line, pad, tail[..k]);
    }
    if Labelled(text, n, line) {
      var p: nat, digits :| LabelledWith(text, n, line, p, digits);
      LabelIsRead(text, n, line, p, digits);
    }
  }

  lemma LabelIsRead(text: string, n: nat, line: string, pad: nat, digits: string)
    requires LabelledWith(text, n, line, pad, digits)
    ensures ReadNumber(text) == Numbered(n, line)
  {
    assert text[pad] == digits[0];
    assert LeadingSpaces(text) == pad;
    var tail := text[pad..];
    assert tail == digits + "\t" + line;
    DigitsRun(digits, "\t" + line);
    assert digits + ("\t" + line) == tail;
    var k := |digits|;
    assert tail[..k] == digits && tail[k + 1..] == line;
  }

  /** One line of `formatLinesWithNumbers`. */
  function NumberLine(n: nat, line: string): string {
    var digits := Digits(n);
    (if |digits| < 6 then Spaces(6 - |digits|) else "") + digits + "\t" + line
  }

  lemma NumberLineIsLabelled(n: nat, line: string)
    ensures Labelled(NumberLine(n, line), n, line)
  {
    var digits := Digits(n);
    assert Spaces(0) == "";
    assert LabelledWith(NumberLine(n, line), n, line, if |digits| < 6 then 6 - |digits| else 0, digits);
  }

  /** Numbers below a million take six places, so their lines begin in one column. */
  lemma NumbersAlign(n: nat, line: string)
    ensures |NumberLine(n, line)| >= 7 + |line|
    ensures |NumberLine(n, line)| == 7 + |line| <==> n < 1_000_000
  {
    DigitsFit(n, 6);
    assert Power(6) == 1_000_000 by {
      assert Power(2) == 100 && Power(4) == 10_000;
    }
  }

  function NumberAll(lines: seq<string>, start: nat): (numbered: seq<string>)
    ensures |numbered| == |lines|
  {
    seq(|lines|, i requires 0 <= i < |lines| => NumberLine(start + i, lines[i]))
  }

  /** `formatLinesWithNumbers`. */
  function FormatLines(lines: seq<string>, start: nat): string {
    Join(NumberAll(lines, start), "\n")
  }

  /** A reader who cuts the display into lines finds each line under its own number. */
  lemma DisplaySplits(lines: seq<string>, start: nat)
    requires lines != [] && forall line :: line in lines ==> '\n' !in line
    ensures Split(FormatLines(lines, start), '\n') == NumberAll(lines, start)
    ensures forall i :: 0 <= i < |lines| ==> Labelled(NumberAll(lines, start)[i], start + i, lines[i])
  {
    var numbered := NumberAll(lines, start);
    forall text | text in numbered ensures '\n' !in text {
      var i :| 0 <= i < |numbered| && numbered[i] == text;
      assert '\n' !in lines[i] by {
        assert lines[i] in lines;
      }
      var digits := Digits(start + i);
      assert '\n' !in digits;
    }
    SplitJoin(numbered, '\n');
    forall i | 0 <= i < |lines| ensures Labelled(numbered[i], start + i, lines[i]) {
      NumberLineIsLabelled(start + i, lines[i]);
    }
  }

  // --- hunks ---

  datatype Side = Context | Removal | Addition

  datatype HunkLine = HunkLine(side: Side, text: string)

  datatype Anchor = NoAnchor | At(line: nat)

  datatype Hunk = Hunk(anchor: Anchor, lines: seq<HunkLine>)

  datatype Adaptation = Adaptation(line: nat, lineCount: nat)

  datatype Encoding = Raw | ReadFileNumbered | UnknownEncoding

  datatype Adapted = Adapted(hunks: seq<Hunk>, adaptations: seq<Adaptation>)

  /** The lines a hunk expects to find. */
  function OldLines(lines: seq<HunkLine>): seq<HunkLine> {
    if lines == [] then []
    else
      var n := |lines| - 1;
      if lines[n].side.Addition? then OldLines(lines[..n]) else OldLines(lines[..n]) + [lines[n]]
  }

  /** Every old line is numbered, in succession. */
  predicate Consecutive(expected: seq<HunkLine>, first: nat) {
    forall k :: 0 <= k < |expected| ==>
        ReadNumber(expected[k].text).Numbered? && ReadNumber(expected[k].text).n == first + k
  }

  function StripLine(line: HunkLine): HunkLine {
    if line.side.Addition? || ReadNumber(line.text).NoNumber? then line else line.(text := ReadNumber(line.text).line)
  }

  /** A hunk whose old lines carry the numbers of the file. */
  function AdaptHunk(hunk: Hunk): Result<Hunk> {
    var expected := OldLines(hunk.lines);
    if expected == [] || ReadNumber(expected[0].text).NoNumber? then Rejected
    else
      var first := ReadNumber(expected[0].text).n;
      if first > MAX_SAFE_INTEGER || first < 1 || !Consecutive(expected, first) then Rejected
      else if hunk.anchor.At? && hunk.anchor.line != first then Rejected
      else Ok(Hunk(At(first), seq(|hunk.lines|, i requires 0 <= i < |hunk.lines| => StripLine(hunk.lines[i]))))
  }

  /** The hunk is the plain one with its old lines numbered from the anchor on. */
  ghost predicate Relabels(hunk: Hunk, plain: Hunk) {
    && plain.anchor.At? && 1 <= plain.anchor.line <= MAX_SAFE_INTEGER
    && (hunk.anchor == NoAnchor || hunk.anchor == plain.anchor)
    && OldLines(hunk.lines) != [] && |hunk.lines| == |plain.lines|
    && forall i :: 0 <= i < |hunk.lines| ==> LineRelabels(hunk, plain, i)
  }

  /** The old lines carry successive numbers, from the hunk's anchor if it has one. */
  ghost predicate Numbers(hunk: Hunk) {
    exists plain :: Relabels(hunk, plain)
  }

  ghost predicate LineRelabels(hunk: Hunk, plain: Hunk, i: nat)
    requires i < |hunk.lines| == |plain.lines| && plain.anchor.At?
  {
    && hunk.lines[i].side == plain.lines[i].side
    && if hunk.lines[i].side.Addition? then hunk.lines[i] == plain.lines[i]
       else Labelled(hunk.lines[i].text, plain.anchor.line + |OldLines(hunk.lines[..i])|, plain.lines[i].text)
  }

  /** Where an old line stands among the old lines. */
  lemma {:induction false} OldLineAt(lines: seq<HunkLine>, i: nat)
    requires i < |lines| && !lines[i].side.Addition?
    ensures |OldLines(lines[..i])| < |OldLines(lines)| && OldLines(lines)[|OldLines(lines[..i])|] == lines[i]
  {
    var n := |lines| - 1;
    if i < n {
      OldLineAt(lines[..n], i);
      assert lines[..n][..i] == lines[..i];
    }
  }

  /** And the line an old line was. */
  lemma {:induction false} OldLineFrom(lines: seq<HunkLine>, k: nat) returns (i: nat)
    requires k < |OldLines(lines)|
    ensures i < |lines| && !lines[i].side.Addition? && |OldLines(lines[..i])| == k && OldLines(lines)[k] == lines[i]
  {
    var n := |lines| - 1;
    if k < |OldLines(lines[..n])| {
      i := OldLineFrom(lines[..n], k);
      assert lines[..n][..i] == lines[..i];
    } else {
      i := n;
    }
  }

  /** Adapting accepts a hunk exactly when it is some plain hunk with its old lines numbered, and
      yields that hunk. */
  lemma AdaptUndoesNumbering(hunk: Hunk, plain: Hunk)
    ensures AdaptHunk(hunk) == Ok(plain) <==> Relabels(hunk, plain)
  {
    if AdaptHunk(hunk) == Ok(plain) {
      AdaptedIsPlain(hunk, plain);
    }
    if Relabels(hunk, plain) {
      PlainIsAdapted(hunk, plain);
    }
  }

  lemma AdaptedIsPlain(hunk: Hunk, plain: Hunk)
    requires AdaptHunk(hunk) == Ok(plain)
    ensures Relabels(hunk, plain)
  {
    forall i | 0 <= i < |hunk.lines| ensures LineRelabels(hunk, plain, i) {
      if !hunk.lines[i].side.Addition? {
        OldLineAt(hunk.lines, i);
        ReadNumberIff(hunk.lines[i].text, plain.anchor.line + |OldLines(hunk.lines[..i])|, plain.lines[i].text);
      }
    }
  }

  lemma PlainIsAdapted(hunk: Hunk, plain: Hunk)
    requires Relabels(hunk, plain)
    ensures AdaptHunk(hunk) == Ok(plain)
  {
    var expected, first := OldLines(hunk.lines), plain.anchor.line;
    forall k | 0 <= k < |expected|
      ensures ReadNumber(expected[k].text).Numbered? && ReadNumber(expected[k].text).n == first + k
    {
      var i := OldLineFrom(hunk.lines, k);
      assert LineRelabels(hunk, plain, i);
      ReadNumberIff(expected[k].text, first + k, plain.lines[i].text);
    }
    assert ReadNumber(expected[0].text).n == first && Consecutive(expected, first);
    PlainIsStripped(hunk, plain);
  }

  lemma PlainIsStripped(hunk: Hunk, plain: Hunk)
    requires Relabels(hunk, plain)
    ensures plain.lines == seq(|hunk.lines|, i requires 0 <= i < |hunk.lines| => StripLine(hunk.lines[i]))
  {
    forall i | 0 <= i < |hunk.lines| ensures StripLine(hunk.lines[i]) == plain.lines[i] {
      assert LineRelabels(hunk, plain, i);
      if !hunk.lines[i].side.Addition? {
        ReadNumberIff(hunk.lines[i].text, plain.anchor.line + |OldLines(hunk.lines[..i])|, plain.lines[i].text);
      }
    }
  }

  /** The hunk with its old lines as the display shows them. */
  function NumberHunk(hunk: Hunk, start: nat): (numbered: Hunk)
    ensures |numbered.lines| == |hunk.lines|
  {
    hunk.(lines := seq(|hunk.lines|, i requires 0 <= i < |hunk.lines| =>
      if hunk.lines[i].side.Addition? then hunk.lines[i]
      else hunk.lines[i].(text := NumberLine(start + |OldLines(hunk.lines[..i])|, hunk.lines[i].text))))
  }

  lemma {:induction false} NumberingKeepsCount(hunk: Hunk, start: nat, i: nat)
    requires i <= |hunk.lines|
    ensures |OldLines(NumberHunk(hunk, start).lines[..i])| == |OldLines(hunk.lines[..i])|
  {
    var lines := NumberHunk(hunk, start).lines;
    if i > 0 {
      NumberingKeepsCount(hunk, start, i - 1);
      assert lines[..i][..i - 1] == lines[..i - 1] && hunk.lines[..i][..i - 1] == hunk.lines[..i - 1];
    }
  }

  /** Lines taken from the display into a patch come back as they are in the file, anchored where
      the display started. */
  lemma NumberedHunkComesBack(hunk: Hunk, start: nat)
    requires OldLines(hunk.lines) != [] && 1 <= start <= MAX_SAFE_INTEGER
    requires hunk.anchor == NoAnchor || hunk.anchor == At(start)
    ensures AdaptHunk(NumberHunk(hunk, start)) == Ok(hunk.(anchor := At(start)))
  {
    var numbered, plain := NumberHunk(hunk, start), hunk.(anchor := At(start));
    NumberingKeepsCount(hunk, start, |hunk.lines|);
    assert numbered.lines[..|hunk.lines|] == numbered.lines && hunk.lines[..|hunk.lines|] == hunk.lines;
    forall i | 0 <= i < |hunk.lines| ensures LineRelabels(numbered, plain, i) {
      NumberingKeepsCount(hunk, start, i);
      if !hunk.lines[i].side.Addition? {
        NumberLineIsLabelled(start + |OldLines(hunk.lines[..i])|, hunk.lines[i].text);
      }
    }
    AdaptUndoesNumbering(numbered, plain);
  }

  /** A hunk of context lines only. */
  function ContextOf(texts: seq<string>, anchor: Anchor): (hunk: Hunk)
    ensures |hunk.lines| == |texts|
  {
    Hunk(anchor, seq(|texts|, i requires 0 <= i < |texts| => HunkLine(Context, texts[i])))
  }

  lemma {:induction false} ContextCounts(texts: seq<string>, anchor: Anchor, i: nat)
    requires i <= |texts|
    ensures |OldLines(ContextOf(texts, anchor).lines[..i])| == i
  {
    if i > 0 {
      ContextCounts(texts, anchor, i - 1);
      assert ContextOf(texts, anchor).lines[..i][..i - 1] == ContextOf(texts, anchor).lines[..i - 1];
    }
  }

  lemma NumberedContext(lines: seq<string>, start: nat)
    ensures NumberHunk(ContextOf(lines, NoAnchor), start) == ContextOf(NumberAll(lines, start), NoAnchor)
  {
    var plain, shown := ContextOf(lines, NoAnchor), ContextOf(NumberAll(lines, start), NoAnchor);
    var numbered := NumberHunk(plain, start);
    assert numbered.anchor == NoAnchor == shown.anchor;
    assert numbered.lines == shown.lines by {
      forall i | 0 <= i < |lines| ensures numbered.lines[i] == shown.lines[i] {
        ContextCounts(lines, NoAnchor, i);
        var text := NumberLine(start + i, lines[i]);
        assert plain.lines[i] == HunkLine(Context, lines[i]);
        assert numbered.lines[i] == HunkLine(Context, text);
      }
    }
  }

  /** The whole way round: what the display shows, quoted as context, is the file's own lines. */
  lemma DisplayComesBack(lines: seq<string>, start: nat)
    requires lines != [] && 1 <= start <= MAX_SAFE_INTEGER && forall line :: line in lines ==> '\n' !in line
    ensures AdaptHunk(ContextOf(Split(FormatLines(lines, start), '\n'), NoAnchor)) == Ok(ContextOf(lines, At(start)))
  {
    DisplaySplits(lines, start);
    NumberedContext(lines, start);
    var plain := ContextOf(lines, NoAnchor);
    ContextCounts(lines, NoAnchor, |lines|);
    assert plain.lines[..|lines|] == plain.lines;
    NumberedHunkComesBack(plain, start);
  }

  /** `adaptPatchHunks`: raw hunks pass; numbered ones all adapt, each with a note of where it
      starts and how many lines it expects, or the whole patch is rejected. */
  method AdaptPatchHunks(hunks: seq<Hunk>, encoding: Encoding) returns (r: Result<Adapted>)
    ensures encoding.UnknownEncoding? ==> r.Rejected?
    ensures encoding.Raw? ==> r == Ok(Adapted(hunks, []))
    ensures encoding.ReadFileNumbered? ==>
      (r.Ok? <==> forall i :: 0 <= i < |hunks| ==> Numbers(hunks[i]))
    ensures encoding.ReadFileNumbered? && r.Ok? ==>
      && |r.value.hunks| == |r.value.adaptations| == |hunks|
      && forall i :: 0 <= i < |hunks| ==>
           && Relabels(hunks[i], r.value.hunks[i])
           && r.value.adaptations[i] == Adaptation(r.value.hunks[i].anchor.line, |OldLines(hunks[i].lines)|)
  {
    if encoding.UnknownEncoding? {
      return Rejected;
    }
    if encoding.Raw? {
      return Ok(Adapted(hunks, []));
    }
    var adapted: seq<Hunk>, adaptations := [], [];
    for i := 0 to |hunks|
      invariant |adapted| == |adaptations| == i
      invariant forall j :: 0 <= j < i ==>
        && Relabels(hunks[j], adapted[j])
        && adaptations[j] == Adaptation(adapted[j].anchor.line, |OldLines(hunks[j].lines)|)
    {
      var one := AdaptHunk(hunks[i]);
      if one.Rejected? {
        forall plain ensures !Relabels(hunks[i], plain) {
          AdaptUndoesNumbering(hunks[i], plain);
        }
        return Rejected;
      }
      AdaptUndoesNumbering(hunks[i], one.value);
      adapted := adapted + [one.value];
      adaptations := adaptations + [Adaptation(one.value.anchor.line, |OldLines(hunks[i].lines)|)];
    }
    forall i | 0 <= i < |hunks| ensures Numbers(hunks[i]) {
      assert Relabels(hunks[i], adapted[i]);
    }
    r := Ok(Adapted(adapted, adaptations));
  }
}
