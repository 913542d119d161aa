/** The lines a patch may hold, said as its grammar says them, and that no others are read. */
module LongMemoryLines {
  import opened Decimal
  import opened Lines
  import opened Outcome
  import opened Text
  import opened LongMemory
  import opened LongMemoryRoundTrip
  import opened LongMemoryPatch
  import opened LongMemoryCommands

  predicate AllKeyChars(s: string) {
    forall i :: 0 <= i < |s| ==> IsKeyChar(s[i])
  }

  /** Whitespace and digits, or nothing. */
  ghost predicate IndexText(text: string, index: Number) {
    match index
    case NoNumber => text == ""
    case Number(n) => exists gap: string, digits: string :: IndexWith(text, n, gap, digits)
  }

  predicate IndexWith(text: string, n: nat, gap: string, digits: string) {
    text == gap + digits && gap != "" && AllSpace(gap) && digits != "" && AllDigits(digits) && Value(digits) == n
  }

  /** Perhaps whitespace; then nothing, or a colon, perhaps whitespace, and a text on one line. */
  ghost predicate ArgumentText(text: string, value: Argument) {
    match value
    case NoValue => AllSpace(text)
    case Given(v) => exists front: string, gap: string, raw: string :: ArgumentWith(text, v, front, gap, raw)
  }

  predicate ArgumentWith(text: string, value: string, front: string, gap: string, raw: string) {
    && text == front + ([COLON] + (gap + raw)) && AllSpace(front) && AllSpace(gap)
    && raw != "" && !IsSpace(raw[0]) && OneLine(raw) && value == Trim(raw)
  }

  /** The action, whitespace, a key, perhaps an index, perhaps a value. */
  ghost predicate IsPatchLine(line: string, p: Parts) {
    exists gap: string, middle: string, end: string :: PatchLineWith(line, p, gap, middle, end)
  }

  ghost predicate PatchLineWith(line: string, p: Parts, gap: string, middle: string, end: string) {
    && line == ActionWord(p.action) + (gap + (p.key + (middle + end)))
    && gap != "" && AllSpace(gap) && p.key != "" && AllKeyChars(p.key)
    && IndexText(middle, p.index) && ArgumentText(end, p.value)
  }

  // --- runs ---

  lemma {:induction false} SpacesEnd(gap: string, rest: string)
    requires AllSpace(gap) && (rest == "" || !IsSpace(rest[0]))
    ensures SpaceRun(gap + rest) == |gap|
  {
    if gap == "" {
      assert gap + rest == rest;
    } else {
      SpacesEnd(gap[1..], rest);
      assert (gap + rest)[1..] == gap[1..] + rest;
    }
  }

  lemma Parted(a: string, b: string)
    ensures (a + b)[..|a|] == a && (a + b)[|a|..] == b
  {
  }

  lemma PutTogether(s: string, n: nat)
    requires n <= |s|
    ensures s == s[..n] + s[n..]
  {
  }

  // --- what is read is such a line ---

  lemma ActionsAre(line: string)
    requires ReadAction(line).Ok?
    ensures line == ActionWord(ReadAction(line).value.0) + ReadAction(line).value.1
  {
  }

  lemma HeadAndTail(s: string)
    requires s != ""
    ensures s == [s[0]] + s[1..]
  {
  }

  lemma ReadArgumentIs(text: string)
    requires ReadArgument(text).Ok?
    ensures ArgumentText(text, ReadArgument(text).value)
  {
    var w := SpaceRun(text);
    var front, end := text[..w], text[w..];
    PutTogether(text, w);
    if end == "" {
      assert front == text;
    } else {
      HeadAndTail(end);
      var rest := end[1..];
      assert text == front + ([COLON] + rest);
      ArgumentFollows(text, front, rest, ReadArgument(text).value.value);
    }
  }

  lemma ArgumentFollows(text: string, front: string, rest: string, value: string)
    requires text == front + ([COLON] + rest) && AllSpace(front)
    requires rest[SpaceRun(rest)..] != "" && OneLine(rest[SpaceRun(rest)..]) && value == Trim(rest[SpaceRun(rest)..])
    ensures ArgumentText(text, Given(value))
  {
    var v := SpaceRun(rest);
    PutTogether(rest, v);
    assert ArgumentWith(text, value, front, rest[..v], rest[v..]);
  }

  lemma ReadIndexIs(text: string) returns (middle: string)
    ensures text == middle + ReadIndex(text).1 && IndexText(middle, ReadIndex(text).0)
  {
    var w := SpaceRun(text);
    var d := LeadingDigits(text[w..]);
    middle := if ReadIndex(text).0.Number? then text[..w] + text[w..][..d] else "";
    if ReadIndex(text).0.Number? {
      PutTogether(text, w);
      PutTogether(text[w..], d);
      assert IndexWith(middle, ReadIndex(text).0.n, text[..w], text[w..][..d]);
    }
  }

  lemma ReadPartsAre(line: string)
    requires ReadParts(line).Ok?
    ensures IsPatchLine(line, ReadParts(line).value)
  {
    var action, rest := ReadAction(line).value.0, ReadAction(line).value.1;
    ActionsAre(line);
    var w := SpaceRun(rest);
    PutTogether(rest, w);
    var keyed := rest[w..];
    var k := KeyRun(keyed);
    PutTogether(keyed, k);
    var middle := ReadIndexIs(keyed[k..]);
    ReadArgumentIs(ReadIndex(keyed[k..]).1);
    assert PatchLineWith(line, ReadParts(line).value, rest[..w], middle, ReadIndex(keyed[k..]).1);
  }

  // --- such a line is read ---

  lemma ArgumentIsRead(text: string, value: Argument)
    requires ArgumentText(text, value)
    ensures ReadArgument(text) == Ok(value)
    ensures text == "" || IsSpace(text[0]) || text[0] == COLON
    ensures SpaceRun(text) == |text| || text[SpaceRun(text)] == COLON
  {
    if value.NoValue? {
      SpacesEnd(text, "");
      assert text + "" == text;
    } else {
      var front, gap, raw :| ArgumentWith(text, value.value, front, gap, raw);
      var rest := [COLON] + (gap + raw);
      SpacesEnd(front, rest);
      Parted(front, rest);
      SpacesEnd(gap, raw);
      Parted(gap, raw);
      assert rest[1..] == gap + raw;
    }
  }

  lemma IndexReads(middle: string, index: Number, end: string, value: Argument)
    requires IndexText(middle, index) && ArgumentText(end, value)
    ensures ReadIndex(middle + end) == (index, end)
    ensures middle + end == "" || IsSpace((middle + end)[0]) || (middle + end)[0] == COLON
  {
    ArgumentIsRead(end, value);
    var text := middle + end;
    if index.NoNumber? {
      assert text == end;
      var w := SpaceRun(text);
      assert LeadingDigits(text[w..]) == 0;
    } else {
      var gap, digits :| IndexWith(middle, index.n, gap, digits);
      assert text == gap + (digits + end) && IsDigit(digits[0]) && !IsSpace(digits[0]);
      SpacesEnd(gap, digits + end);
      Parted(gap, digits + end);
      DigitsRun(digits, end);
      Parted(digits, end);
    }
  }

  lemma ActionReads(action: Action, rest: string)
    ensures ReadAction(ActionWord(action) + rest) == Ok((action, rest))
  {
    var line := ActionWord(action) + rest;
    assert line[|ActionWord(action)|..] == rest;
    assert line[0] == ActionWord(action)[0] && line[1] == ActionWord(action)[1];
  }

  lemma PatchLineReads(line: string, p: Parts)
    requires IsPatchLine(line, p)
    ensures ReadParts(line) == Ok(p)
  {
    var gap, middle, end :| PatchLineWith(line, p, gap, middle, end);
    var tail := middle + end;
    ActionReads(p.action, gap + (p.key + tail));
    assert IsKeyChar(p.key[0]) && !IsSpace((p.key + tail)[0]);
    SpacesEnd(gap, p.key + tail);
    Parted(gap, p.key + tail);
    IndexReads(middle, p.index, end, p.value);
    KeyRunIs(p.key, tail);
    Parted(p.key, tail);
    ArgumentIsRead(end, p.value);
  }

  /** Parts make a command of a field exactly if they are its parts and it is of the field's kind. */
  lemma CommandOfIff(kind: Kind, p: Parts, c: Command)
    ensures CommandOf(kind, p) == Ok(c) <==> p == PartsOf(c) && ForSingle(c) == kind.SingleKind?
  {
  }

  lemma PartsAreReadIff(line: string, p: Parts)
    ensures ReadParts(line) == Ok(p) <==> IsPatchLine(line, p)
  {
    if ReadParts(line) == Ok(p) {
      ReadPartsAre(line);
    }
    if IsPatchLine(line, p) {
      PatchLineReads(line, p);
    }
  }

  /** A patch line is read exactly if it is one, and as the command it spells. */
  lemma LineIsReadIff(model: seq<Field>, line: string, c: Command)
    ensures ParsePatchLine(model, line) == Ok(c) <==>
              && Declares(model, c.key) && ForSingle(c) == FieldOf(model, c.key).kind.SingleKind?
              && IsPatchLine(line, PartsOf(c))
  {
    PartsAreReadIff(line, PartsOf(c));
    if ReadParts(line).Ok? && Declares(model, ReadParts(line).value.key) {
      CommandOfIff(FieldOf(model, ReadParts(line).value.key).kind, ReadParts(line).value, c);
    }
  }

  /** The line spells the command, of a field of its kind. */
  ghost predicate Spells(model: seq<Field>, line: string, c: Command) {
    && Declares(model, c.key) && ForSingle(c) == FieldOf(model, c.key).kind.SingleKind?
    && IsPatchLine(line, PartsOf(c))
  }

  ghost predicate AllSpell(model: seq<Field>, lines: seq<string>, commands: seq<Command>) {
    |commands| == |lines| && forall i :: 0 <= i < |lines| ==> Spells(model, lines[i], commands[i])
  }

  lemma {:induction false} AsManyCommands(model: seq<Field>, lines: seq<string>)
    requires ParseLines(model, lines).Ok?
    ensures |ParseLines(model, lines).value| == |lines|
  {
    if lines != [] {
      AsManyCommands(model, lines[..|lines| - 1]);
    }
  }

  lemma OneLineMore(model: seq<Field>, before: seq<string>, line: string, earlier: seq<Command>, c: Command)
    ensures ParseLines(model, before + [line]) == Ok(earlier + [c]) <==>
              ParseLines(model, before) == Ok(earlier) && ParsePatchLine(model, line) == Ok(c)
  {
    assert (before + [line])[..|before|] == before;
    if ParseLines(model, before + [line]).Ok? {
      var all := ParseLines(model, before + [line]).value;
      assert all[..|all| - 1] == ParseLines(model, before).value;
      assert (earlier + [c])[..|earlier|] == earlier;
    }
  }

  lemma SpellOneMore(model: seq<Field>, before: seq<string>, line: string, earlier: seq<Command>, c: Command)
    ensures AllSpell(model, before + [line], earlier + [c]) <==>
              AllSpell(model, before, earlier) && Spells(model, line, c)
  {
    var lines, commands := before + [line], earlier + [c];
    if |before| == |earlier| {
      assert lines[|before|] == line && commands[|before|] == c;
      assert forall i :: 0 <= i < |before| ==> lines[i] == before[i] && commands[i] == earlier[i];
    }
  }

  lemma {:induction false} LinesAreReadIff(model: seq<Field>, lines: seq<string>, commands: seq<Command>)
    ensures ParseLines(model, lines) == Ok(commands) <==> AllSpell(model, lines, commands)
  {
    if lines != [] && commands != [] {
      var n, m := |lines| - 1, |commands| - 1;
      LinesAreReadIff(model, lines[..n], commands[..m]);
      LineIsReadIff(model, lines[n], commands[m]);
      InitLast(lines);
      InitLast(commands);
      OneLineMore(model, lines[..n], lines[n], commands[..m], commands[m]);
      SpellOneMore(model, lines[..n], lines[n], commands[..m], commands[m]);
    } else if ParseLines(model, lines).Ok? {
      AsManyCommands(model, lines);
    }
  }

  /** A patch is accepted, as these commands, exactly if its lines that are not blank spell them one
      by one, or it has no commands and `NOOP` for its only line. */
  lemma PatchIsReadIff(model: seq<Field>, text: string, commands: seq<Command>)
    ensures var lines := NonEmpty(TrimmedLines(StripFence(text)));
            ParsePatch(model, text) == Ok(commands) <==>
              || (lines == [NOOP] && commands == [])
              || (lines != [] && NOOP !in lines && AllSpell(model, lines, commands))
  {
    PatchLines(model, text, NonEmpty(TrimmedLines(StripFence(text))), commands);
  }

  lemma PatchLines(model: seq<Field>, text: string, lines: seq<string>, commands: seq<Command>)
    requires lines == NonEmpty(TrimmedLines(StripFence(text)))
    ensures ParsePatch(model, text) == Ok(commands) <==>
              || (lines == [NOOP] && commands == [])
              || (lines != [] && NOOP !in lines && AllSpell(model, lines, commands))
  {
    if NOOP in lines {
      if |lines| == 1 {
        assert lines[0] == NOOP;
      }
      assert lines == [NOOP] <==> |lines| == 1;
    } else {
      LinesAreReadIff(model, lines, commands);
      assert NOOP in [NOOP];
    }
  }
}
