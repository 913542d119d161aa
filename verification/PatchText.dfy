/** The text of a file as a patch sees it: a byte-order mark, lines, and one terminator per line. */
module PatchText {
  import opened Outcome

  datatype LineEnding = NoEnding | Lf | Crlf | MixedEndings

  /** `insertion` is the terminator given to inserted lines. */
  datatype PatchText = PatchText(bom: string, lines: seq<string>, endings: seq<string>, finalNewline: bool,
                                 insertion: string, lineEnding: LineEnding)

  const BOM := '\U{FEFF}'

  // --- splitting on /\r?\n/ ---

  /** How long a line terminator the text starts with. */
  function TerminatorAt(text: string): nat {
    if text != "" && text[0] == '\n' then 1
    else if |text| > 1 && text[0] == '\r' && text[1] == '\n' then 2
    else 0
  }

  /** The lines a text ends, their terminators, and what follows the last of these. */
  datatype Scanned = Scanned(lines: seq<string>, endings: seq<string>, last: string)

  /** The scan for `/\r?\n/`, from left to right. */
  function Scan(text: string): (s: Scanned)
    ensures |s.lines| == |s.endings|
    decreases |text|
  {
    if text == "" then Scanned([], [], "")
    else
      var t := TerminatorAt(text);
      if t > 0 then AfterEmptyLine(text[..t], Scan(text[t..])) else Before(text[0], Scan(text[1..]))
  }

  /** One more empty line at the front. */
  function AfterEmptyLine(ending: string, s: Scanned): Scanned {
    Scanned([""] + s.lines, [ending] + s.endings, s.last)
  }

  /** One more character before the first line. */
  function Before(c: char, s: Scanned): Scanned {
    if s.lines == [] then s.(last := [c] + s.last) else s.(lines := [[c] + s.lines[0]] + s.lines[1..])
  }

  /** `text.split(/\r?\n/)`. */
  function Pieces(text: string): seq<string> {
    Scan(text).lines + [Scan(text).last]
  }

  /** The matches of `/\r?\n/g`. */
  function Terminators(text: string): seq<string> {
    Scan(text).endings
  }

  /** Every line followed by its terminator. */
  function Weave(lines: seq<string>, endings: seq<string>): string
    requires |lines| == |endings|
  {
    if lines == [] then "" else lines[0] + endings[0] + Weave(lines[1..], endings[1..])
  }

  predicate IsTerminator(ending: string) {
    ending == "\n" || ending == "\r\n"
  }

  /** A line that keeps apart from its terminator. */
  predicate Separate(line: string, ending: string) {
    '\n' !in line && (ending == "\n" && line != "" ==> line[|line| - 1] != '\r')
  }

  ghost predicate AllSeparate(lines: seq<string>, endings: seq<string>) {
    && |lines| == |endings|
    && forall i :: 0 <= i < |lines| ==> IsTerminator(endings[i]) && Separate(lines[i], endings[i])
  }

  ghost predicate InOrder(s: Scanned) {
    AllSeparate(s.lines, s.endings) && '\n' !in s.last
  }

  /** The text that was scanned. */
  function Text(s: Scanned): string
    requires |s.lines| == |s.endings|
    decreases |s.lines|
  {
    if s.lines == [] then s.last else s.lines[0] + s.endings[0] + Text(Tail(s))
  }

  function Tail(s: Scanned): Scanned
    requires |s.lines| == |s.endings| && s.lines != []
  {
    Scanned(s.lines[1..], s.endings[1..], s.last)
  }

  lemma Regroup(a: string, b: string, c: string, d: string)
    ensures a + b + c + d == a + (b + c + d)
  {
  }

  lemma TextBefore(c: char, s: Scanned)
    requires |s.lines| == |s.endings|
    ensures Text(Before(c, s)) == [c] + Text(s)
  {
    if s.lines != [] {
      assert Tail(Before(c, s)) == Tail(s);
      Regroup([c], s.lines[0], s.endings[0], Text(Tail(s)));
    }
  }

  lemma TextAfterEmptyLine(ending: string, s: Scanned)
    requires |s.lines| == |s.endings|
    ensures Text(AfterEmptyLine(ending, s)) == ending + Text(s)
  {
    assert Tail(AfterEmptyLine(ending, s)) == s;
    assert "" + ending == ending;
  }

  /** A character that starts no terminator keeps the scan in order. */
  lemma BeforeInOrder(c: char, s: Scanned)
    requires InOrder(s) && TerminatorAt([c] + Text(s)) == 0
    ensures InOrder(Before(c, s))
  {
    if s.lines != [] && s.lines[0] == "" {
      assert ([c] + Text(s))[1] == s.endings[0][0];
    }
  }

  /** The pieces and terminators of a text, put together, are the text. */
  lemma {:induction false} ScanSpellsText(text: string)
    ensures InOrder(Scan(text)) && Text(Scan(text)) == text
    decreases |text|
  {
    var t := TerminatorAt(text);
    if text == "" {
    } else if t > 0 {
      ScanSpellsText(text[t..]);
      TextAfterEmptyLine(text[..t], Scan(text[t..]));
      assert text == text[..t] + text[t..];
    } else {
      ScanSpellsText(text[1..]);
      TextBefore(text[0], Scan(text[1..]));
      assert text == [text[0]] + text[1..];
      BeforeInOrder(text[0], Scan(text[1..]));
    }
  }

  /** The first character of what is not an empty line. */
  function First(s: Scanned): char
    requires if s.lines == [] then s.last != "" else s.lines[0] != ""
  {
    if s.lines == [] then s.last[0] else s.lines[0][0]
  }

  function Shorter(s: Scanned): Scanned
    requires if s.lines == [] then s.last != "" else s.lines[0] != ""
  {
    if s.lines == [] then s.(last := s.last[1..]) else s.(lines := [s.lines[0][1..]] + s.lines[1..])
  }

  lemma PeelFirst(s: Scanned)
    requires InOrder(s) && if s.lines == [] then s.last != "" else s.lines[0] != ""
    ensures InOrder(Shorter(s)) && Before(First(s), Shorter(s)) == s
    ensures TerminatorAt([First(s)] + Text(Shorter(s))) == 0
  {
    var shorter := Shorter(s);
    if s.lines == [] {
      assert First(s) in s.last && (|s.last| > 1 ==> s.last[1] in s.last);
    } else {
      var line := s.lines[0];
      assert First(s) in line && (|line| > 1 ==> line[1] in line);
      assert shorter.lines[1..] == s.lines[1..] && [line[0]] + line[1..] == line && [line] + s.lines[1..] == s.lines;
      assert Separate(line, s.endings[0]) && Separate(line[1..], s.endings[0]);
      if |line| == 1 {
        assert Text(shorter) == s.endings[0] + Text(Tail(shorter));
        assert Text(shorter)[0] == s.endings[0][0];
      } else {
        assert Text(shorter)[0] == line[1];
      }
    }
  }

  /** No other lines and terminators do. */
  lemma {:induction false} ScanOfText(s: Scanned)
    requires InOrder(s)
    ensures Scan(Text(s)) == s
    decreases |s.lines|, if s.lines == [] then |s.last| else |s.lines[0]|
  {
    if s.lines == [] && s.last == "" {
    } else if s.lines != [] && s.lines[0] == "" {
      var ending, text := s.endings[0], Text(s);
      ScanOfText(Tail(s));
      assert AfterEmptyLine(ending, Tail(s)) == s;
      TextAfterEmptyLine(ending, Tail(s));
      assert text[..|ending|] == ending && text[|ending|..] == Text(Tail(s));
    } else {
      PeelFirst(s);
      ScanOfText(Shorter(s));
      TextBefore(First(s), Shorter(s));
      assert Text(s)[1..] == Text(Shorter(s));
    }
  }

  /** A text whose last line has no terminator ends in it. */
  lemma {:induction false} TextWeaves(s: Scanned)
    requires |s.lines| == |s.endings|
    ensures Weave(s.lines, s.endings) + s.last == Text(s)
    decreases |s.lines|
  {
    if s.lines != [] {
      TextWeaves(Tail(s));
    }
  }

  // --- encoding ---

  /** The terminator written after a line. */
  function Terminator(d: PatchText, i: nat): string
    requires i < |d.endings|
  {
    if i == |d.lines| - 1 && !d.finalNewline then "" else if d.endings[i] == "" then d.insertion else d.endings[i]
  }

  function Written(d: PatchText): (endings: seq<string>)
    ensures |endings| == |d.endings|
  {
    seq(|d.endings|, i requires 0 <= i < |d.endings| => Terminator(d, i))
  }

  /** `encodePatchText`. */
  function Encode(d: PatchText): Result<string> {
    if |d.lines| != |d.endings| then Rejected else Ok(d.bom + Weave(d.lines, Written(d)))
  }

  /** The lines with a terminator, and the line without one if the text does not end in LF. */
  function Ended(d: PatchText): nat {
    if d.lines == [] || d.finalNewline then |d.lines| else |d.lines| - 1
  }

  function Unended(d: PatchText): string {
    if d.lines == [] || d.finalNewline then "" else d.lines[|d.lines| - 1]
  }

  /** The classification of the terminators in use. */
  predicate Classified(lineEnding: LineEnding, endings: seq<string>) {
    lineEnding == if "\r\n" in endings && "\n" in endings then MixedEndings
                  else if "\r\n" in endings then Crlf else if "\n" in endings then Lf else NoEnding
  }

  /** Lines and terminators collected from a text are in order. */
  ghost predicate Collected(d: PatchText) {
    && |d.lines| == |d.endings| && (d.finalNewline ==> d.lines != [])
    && AllSeparate(d.lines[..Ended(d)], d.endings[..Ended(d)])
    && (Ended(d) < |d.lines| ==> d.endings[Ended(d)] == "" && Unended(d) != "" && '\n' !in Unended(d))
  }

  /** What decoding yields: exactly one terminator per line, except that a last line may have
      none; no line runs into its terminator; the first terminator is the one for insertions. */
  ghost predicate WellFormed(d: PatchText) {
    && (d.bom == "" || d.bom == [BOM]) && Collected(d)
    && (d.bom == "" ==> !StartsWithBom(Weave(d.lines, d.endings)))
    && d.insertion == (if Ended(d) > 0 then d.endings[0] else "\n")
    && Classified(d.lineEnding, d.endings)
  }

  predicate StartsWithBom(text: string) {
    text != "" && text[0] == BOM
  }

  /** A well-formed text writes the terminators it has. */
  lemma WrittenAsRead(d: PatchText)
    requires WellFormed(d)
    ensures Written(d) == d.endings
  {
    var n := Ended(d);
    forall i | 0 <= i < |d.endings| ensures Terminator(d, i) == d.endings[i] {
      if i < n {
        assert d.endings[i] == d.endings[..n][i];
      }
    }
  }

  lemma {:induction false} WeaveAppend(lines: seq<string>, endings: seq<string>, line: string, ending: string)
    requires |lines| == |endings|
    ensures Weave(lines + [line], endings + [ending]) == Weave(lines, endings) + line + ending
  {
    if lines != [] {
      assert (lines + [line])[1..] == lines[1..] + [line] && (endings + [ending])[1..] == endings[1..] + [ending];
      WeaveAppend(lines[1..], endings[1..], line, ending);
    }
  }

  /** The ended lines of a decoding, and what follows them. */
  function Parts(d: PatchText): Scanned
    requires |d.lines| == |d.endings|
  {
    Scanned(d.lines[..Ended(d)], d.endings[..Ended(d)], Unended(d))
  }

  lemma PartsWeave(d: PatchText)
    requires Collected(d)
    ensures Weave(d.lines, d.endings) == Text(Parts(d))
  {
    var n := Ended(d);
    TextWeaves(Parts(d));
    if n < |d.lines| {
      WeaveAppend(d.lines[..n], d.endings[..n], Unended(d), "");
      assert d.lines[..n] + [Unended(d)] == d.lines && d.endings[..n] + [""] == d.endings;
    } else {
      assert d.lines[..n] == d.lines && d.endings[..n] == d.endings;
    }
  }

  /** They are what its text scans to. */
  lemma BodyScans(d: PatchText)
    requires WellFormed(d)
    ensures Scan(Weave(d.lines, d.endings)) == Parts(d)
  {
    PartsWeave(d);
    ScanOfText(Parts(d));
  }

  /** And they determine it. */
  lemma PartsDetermine(d: PatchText)
    requires WellFormed(d)
    ensures d.lines == Parts(d).lines + if Parts(d).last == "" then [] else [Parts(d).last]
    ensures d.endings == Parts(d).endings + if Parts(d).last == "" then [] else [""]
    ensures d.finalNewline == (Parts(d).last == "" && Parts(d).lines != [])
  {
    var n := Ended(d);
    if n < |d.lines| {
      assert d.lines[..n] + [Unended(d)] == d.lines && d.endings[..n] + [""] == d.endings;
    } else {
      assert d.lines[..n] == d.lines && d.endings[..n] == d.endings;
    }
  }

  /** The mark shows in the text. */
  lemma MarkShows(d: PatchText)
    requires WellFormed(d)
    ensures var text := d.bom + Weave(d.lines, d.endings);
            && (StartsWithBom(text) <==> d.bom != "") && text[|d.bom|..] == Weave(d.lines, d.endings)
  {
    assert d.bom == "" ==> d.bom + Weave(d.lines, d.endings) == Weave(d.lines, d.endings);
  }

  /** Two well-formed decodings of one text are the same: together with `DecodePatchText`, decoding
      undoes encoding on everything that decoding yields. */
  lemma DecodingIsUnique(d: PatchText, e: PatchText)
    requires WellFormed(d) && WellFormed(e) && Encode(d) == Encode(e)
    ensures d == e
  {
    WrittenAsRead(d);
    WrittenAsRead(e);
    MarkShows(d);
    MarkShows(e);
    BodyScans(d);
    BodyScans(e);
    PartsDetermine(d);
    PartsDetermine(e);
    assert Ended(d) == |Parts(d).lines| && Ended(e) == |Parts(e).lines|;
  }

  // --- edited texts ---

  /** A text a patch may have produced: lines may lack a terminator of their own, no line would
      run into the one it is given, and nothing turns into a byte-order mark. */
  ghost predicate Writable(d: PatchText) {
    && (d.bom == "" || d.bom == [BOM]) && |d.lines| == |d.endings| && IsTerminator(d.insertion)
    && (forall i :: 0 <= i < |d.endings| ==> d.endings[i] == "" || IsTerminator(d.endings[i]))
    && (forall i :: 0 <= i < |d.lines| ==> Separate(d.lines[i], Terminator(d, i)))
    && (if d.finalNewline then d.lines != [] else d.lines != [] ==> d.lines[|d.lines| - 1] != "")
    && (d.bom == "" ==> !StartsWithBom(Weave(d.lines, Written(d))))
  }

  /** Each line has the terminator it had, an inserted one that for insertions, and the last line
      has none if the text does not end in one. */
  predicate Filled(d: PatchText, endings: seq<string>) {
    && |endings| == |d.endings| == |d.lines|
    && (forall i :: 0 <= i < |endings| && (d.finalNewline || i < |endings| - 1) && d.endings[i] != "" ==>
          endings[i] == d.endings[i])
    && (forall i :: 0 <= i < |endings| && (d.finalNewline || i < |endings| - 1) && d.endings[i] == "" ==>
          endings[i] == d.insertion)
    && (endings != [] && !d.finalNewline ==> endings[|endings| - 1] == "")
  }

  /** Reading an edited text back yields the same lines, mark and final newline; only the missing
      terminators are filled in. */
  lemma EditsComeBack(d: PatchText, e: PatchText)
    requires Writable(d) && WellFormed(e) && Encode(e) == Encode(d)
    ensures e.bom == d.bom && e.lines == d.lines && e.finalNewline == d.finalNewline && Filled(d, e.endings)
  {
    var n, written := Ended(d), Written(d);
    var insertion := if n > 0 then written[0] else "\n";
    var lineEnding := if "\r\n" in written && "\n" in written then MixedEndings
                      else if "\r\n" in written then Crlf else if "\n" in written then Lf else NoEnding;
    var filled := d.(endings := written, insertion := insertion, lineEnding := lineEnding);
    assert Unended(filled) == Unended(d) && Ended(filled) == n;
    forall i | 0 <= i < n
      ensures IsTerminator(filled.endings[..n][i]) && Separate(filled.lines[..n][i], filled.endings[..n][i])
    {
      assert Separate(d.lines[i], Terminator(d, i));
    }
    if n < |d.lines| {
      assert Separate(d.lines[n], Terminator(d, n));
    }
    WrittenAsRead(filled);
    DecodingIsUnique(filled, e);
  }

  // --- decoding ---

  /** `classifyLineEndings`. */
  method ClassifyLineEndings(kinds: set<string>) returns (lineEnding: LineEnding)
    requires forall kind :: kind in kinds ==> IsTerminator(kind)
    ensures lineEnding == if "\r\n" in kinds && "\n" in kinds then MixedEndings
                          else if "\r\n" in kinds then Crlf else if "\n" in kinds then Lf else NoEnding
  {
    if |kinds| > 1 {
      assert "\r\n" in kinds && "\n" in kinds by {
        if "\r\n" !in kinds {
          assert kinds <= {"\n"};
          SubsetSize(kinds, {"\n"});
        } else if "\n" !in kinds {
          assert kinds <= {"\r\n"};
          SubsetSize(kinds, {"\r\n"});
        }
      }
      return MixedEndings;
    }
    if "\r\n" in kinds {
      if "\n" in kinds {
        SubsetSize({"\n", "\r\n"}, kinds);
      }
      return Crlf;
    }
    return if "\n" in kinds then Lf else NoEnding;
  }

  lemma {:induction false} SubsetSize<T>(small: set<T>, large: set<T>)
    requires small <= large
    ensures |small| <= |large|
  {
    if small != {} {
      var x :| x in small;
      SubsetSize(small - {x}, large - {x});
    }
  }

  lemma {:induction false} EndsInTerminator(s: Scanned)
    requires InOrder(s) && s.last == "" && s.lines != []
    ensures EndsInNewline(Text(s))
    decreases |s.lines|
  {
    if |s.lines| > 1 {
      EndsInTerminator(Tail(s));
    }
  }

  lemma {:induction false} EndsInLast(s: Scanned)
    requires |s.lines| == |s.endings| && s.last != ""
    ensures Text(s) != "" && Text(s)[|Text(s)| - 1] == s.last[|s.last| - 1]
    decreases |s.lines|
  {
    if s.lines != [] {
      EndsInLast(Tail(s));
    }
  }

  predicate EndsInNewline(text: string) {
    text != "" && text[|text| - 1] == '\n'
  }

  /** A text ends in LF when nothing follows its last terminator. */
  lemma LastPiece(text: string)
    requires text != ""
    ensures Scan(text).last == "" <==> EndsInNewline(text)
    ensures Scan(text).last == "" ==> Scan(text).lines != []
  {
    ScanSpellsText(text);
    var s := Scan(text);
    if s.last == "" {
      EndsInTerminator(s);
    } else {
      EndsInLast(s);
      assert s.last[|s.last| - 1] in s.last;
    }
  }

  /** What decoding collects from a text. */
  lemma Decodes(d: PatchText, content: string)
    requires d.finalNewline == EndsInNewline(content)
    requires d.lines == if content == "" then [] else if d.finalNewline then Scan(content).lines else Pieces(content)
    requires d.endings == Terminators(content) + if |d.lines| > |Terminators(content)| then [""] else []
    ensures Collected(d) && Weave(d.lines, d.endings) == content
  {
    var s := Scan(content);
    ScanSpellsText(content);
    if content != "" {
      LastPiece(content);
      assert Parts(d) == s;
    }
    PartsWeave(d);
  }

  /** The kinds of terminators found. */
  lemma KindsAre(d: PatchText, kinds: set<string>)
    requires Collected(d)
    requires kinds == set ending | ending in d.endings && ending != ""
    ensures forall kind :: kind in kinds ==> IsTerminator(kind)
    ensures |kinds| == 0 <==> Ended(d) == 0
  {
    var n := Ended(d);
    forall kind | kind in kinds ensures IsTerminator(kind) && n > 0 {
      var i :| 0 <= i < |d.endings| && d.endings[i] == kind;
      assert d.endings[..n][i] == kind;
    }
    if n > 0 {
      assert IsTerminator(d.endings[..n][0]) && d.endings[0] in kinds;
    } else {
      assert kinds == {};
    }
  }

  /** The format of collected lines, and the text they spell. */
  lemma FormatFits(draft: PatchText, d: PatchText, kinds: set<string>)
    requires Collected(draft) && (d.bom == "" || d.bom == [BOM])
    requires d.lines == draft.lines && d.endings == draft.endings && d.finalNewline == draft.finalNewline
    requires d.bom == "" ==> !StartsWithBom(Weave(d.lines, d.endings))
    requires kinds == set ending | ending in d.endings && ending != ""
    requires |kinds| == 0 || d.endings != []
    requires d.insertion == (if |kinds| == 0 then "\n" else d.endings[0])
    requires d.lineEnding == if "\r\n" in kinds && "\n" in kinds then MixedEndings
                             else if "\r\n" in kinds then Crlf else if "\n" in kinds then Lf else NoEnding
    ensures WellFormed(d) && Encode(d) == Ok(d.bom + Weave(d.lines, d.endings))
  {
    KindsAre(draft, kinds);
    WrittenAsRead(d);
  }

  /** The lines and terminators of what follows the mark. */
  method DecodeLines(content: string) returns (lines: seq<string>, endings: seq<string>, finalNewline: bool)
    ensures Collected(PatchText("", lines, endings, finalNewline, "", NoEnding)) && Weave(lines, endings) == content
  {
    finalNewline := EndsInNewline(content);
    lines := if content != "" then Pieces(content) else [];
    if finalNewline {
      lines := lines[..|lines| - 1];
      assert lines == Scan(content).lines;
    }
    endings := Terminators(content);
    if |lines| > |endings| {
      endings := endings + [""];
    }
    Decodes(PatchText("", lines, endings, finalNewline, "", NoEnding), content);
  }

  /** `decodePatchText`, of any well-formed string. */
  method DecodePatchText(original: string) returns (d: PatchText)
    ensures WellFormed(d) && Encode(d) == Ok(original)
  {
    var bom := if StartsWithBom(original) then [BOM] else "";
    var lines, endings, finalNewline := DecodeLines(original[|bom|..]);
    var kinds := set ending | ending in endings && ending != "";
    ghost var draft := PatchText("", lines, endings, finalNewline, "", NoEnding);
    KindsAre(draft, kinds);
    var insertion := if |kinds| == 0 then "\n" else endings[0];
    var lineEnding := ClassifyLineEndings(kinds);
    d := PatchText(bom, lines, endings, finalNewline, insertion, lineEnding);
    FormatFits(draft, d, kinds);
    assert bom + original[|bom|..] == original;
  }
}
