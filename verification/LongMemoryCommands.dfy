/** The text of a long-memory patch: one command a line, as the patch grammar writes them. */
module LongMemoryCommands {
  import opened Decimal
  import opened Lines
  import opened Outcome
  import opened Text
  import opened LongMemory
  import opened LongMemoryRoundTrip
  import opened LongMemoryPatch

  datatype Action = Add | Update | Delete

  datatype Number = NoNumber | Number(n: nat)

  datatype Argument = NoValue | Given(value: string)

  /** What `PATCH_LINE_RE` captures. */
  datatype Parts = Parts(action: Action, key: string, index: Number, value: Argument)

  function ActionWord(action: Action): string {
    match action
    case Add => "ADD"
    case Update => "UPDATE"
    case Delete => "DELETE"
  }

  /** The action the line starts with, and what follows it. */
  function ReadAction(line: string): Result<(Action, string)> {
    if "ADD" <= line then Ok((Add, line[3..]))
    else if "UPDATE" <= line then Ok((Update, line[6..]))
    else if "DELETE" <= line then Ok((Delete, line[6..]))
    else Rejected
  }

  /** An index, if whitespace and digits come next, and what follows it. */
  function ReadIndex(text: string): (Number, string) {
    var w := SpaceRun(text);
    var d := LeadingDigits(text[w..]);
    if w > 0 && d > 0 then (Number(Value(text[w..][..d])), text[w..][d..]) else (NoNumber, text)
  }

  /** The end of the line: nothing, or a colon and a value. */
  function ReadArgument(text: string): Result<Argument> {
    var rest := text[SpaceRun(text)..];
    if rest == "" then Ok(NoValue)
    else if rest[0] != COLON then Rejected
    else
      var value := rest[1..][SpaceRun(rest[1..])..];
      if value == "" || !OneLine(value) then Rejected else Ok(Given(Trim(value)))
  }

  function ReadParts(line: string): Result<Parts> {
    var action :- ReadAction(line);
    var w := SpaceRun(action.1);
    var keyed := action.1[w..];
    var k := KeyRun(keyed);
    if w == 0 || k == 0 then Rejected
    else
      var index := ReadIndex(keyed[k..]);
      var value :- ReadArgument(index.1);
      Ok(Parts(action.0, keyed[..k], index.0, value))
  }

  /** The command of a field's kind that has these parts, if there is one. */
  function CommandOf(kind: Kind, p: Parts): Result<Command> {
    if p.action.Add? && kind.ListKind? && p.index.NoNumber? && p.value.Given? then Ok(AddItem(p.key, p.value.value))
    else if p.action.Update? && kind.ListKind? && p.index.Number? && p.value.Given? then
      Ok(UpdateItem(p.key, p.index.n, p.value.value))
    else if p.action.Delete? && kind.ListKind? && p.index.Number? && p.value.NoValue? then
      Ok(DeleteItem(p.key, p.index.n))
    else if p.action.Update? && kind.SingleKind? && p.index.NoNumber? && p.value.Given? then
      Ok(SetSingle(p.key, p.value.value))
    else if p.action.Delete? && kind.SingleKind? && p.index.NoNumber? && p.value.NoValue? then
      Ok(ClearSingle(p.key))
    else Rejected
  }

  /** `parsePatchLine`. */
  function ParsePatchLine(model: seq<Field>, line: string): Result<Command> {
    var parts :- ReadParts(line);
    if !Declares(model, parts.key) then Rejected else CommandOf(FieldOf(model, parts.key).kind, parts)
  }

  /** A line of the patch grammar. */
  function CommandLine(c: Command): string {
    match c
    case SetSingle(key, value) => "UPDATE " + (key + ([COLON] + value))
    case ClearSingle(key) => "DELETE " + key
    case AddItem(key, value) => "ADD " + (key + ([COLON] + value))
    case UpdateItem(key, index, value) => "UPDATE " + (key + (" " + (Digits(index) + ([COLON] + value))))
    case DeleteItem(key, index) => "DELETE " + (key + (" " + Digits(index)))
  }

  // --- the grammar is read ---

  lemma ActionIsRead(action: Action, rest: string)
    ensures ReadAction(ActionWord(action) + " " + rest) == Ok((action, " " + rest))
  {
    var line := ActionWord(action) + " " + rest;
    assert line[|ActionWord(action)|..] == " " + rest;
    assert line[0] == ActionWord(action)[0];
  }

  lemma ValueIsRead(value: string)
    requires Clean(value)
    ensures ReadArgument([COLON] + value) == Ok(Given(value))
        && ReadIndex([COLON] + value) == (NoNumber, [COLON] + value)
  {
    var text := [COLON] + value;
    assert SpaceRun(text) == 0 && text[0..] == text;
    assert text[1..] == value && SpaceRun(value) == 0 && value[0..] == value;
    TrimFixesTrimmed(value);
  }

  lemma IndexIsRead(n: nat, rest: string)
    requires rest == "" || !IsDigit(rest[0])
    ensures ReadIndex(" " + (Digits(n) + rest)) == (Number(n), rest)
  {
    var digits := Digits(n);
    var tail := digits + rest;
    var text := " " + tail;
    assert text[1..] == tail && tail[0] == digits[0] && IsDigit(digits[0]);
    assert SpaceRun(tail) == 0;
    assert SpaceRun(text) == 1;
    DigitsRun(digits, rest);
    assert tail[..|digits|] == digits && tail[|digits|..] == rest;
  }

  /** Word, space, key, and then an index and a value. */
  lemma PartsAreRead(action: Action, key: string, rest: string, index: Number, left: string, value: Argument)
    requires IsFieldKey(key) && (rest == "" || !IsKeyChar(rest[0]))
    requires ReadIndex(rest) == (index, left) && ReadArgument(left) == Ok(value)
    ensures ReadParts(ActionWord(action) + " " + (key + rest)) == Ok(Parts(action, key, index, value))
  {
    var keyed := key + rest;
    ActionIsRead(action, keyed);
    assert (" " + keyed)[1..] == keyed && keyed[0] == key[0] && !IsSpace(key[0]);
    assert SpaceRun(" " + keyed) == 1;
    KeyRunIs(key, rest);
    assert keyed[..|key|] == key && keyed[|key|..] == rest;
  }

  lemma NothingIsRead()
    ensures ReadIndex("") == (NoNumber, "") && ReadArgument("") == Ok(NoValue)
  {
  }

  lemma WordsAre()
    ensures ActionWord(Add) + " " == "ADD " && ActionWord(Update) + " " == "UPDATE "
        && ActionWord(Delete) + " " == "DELETE "
  {
  }

  lemma ValueLineIsRead(action: Action, key: string, value: string)
    requires IsFieldKey(key) && Clean(value)
    ensures ReadParts(ActionWord(action) + " " + (key + ([COLON] + value)))
        == Ok(Parts(action, key, NoNumber, Given(value)))
  {
    ValueIsRead(value);
    PartsAreRead(action, key, [COLON] + value, NoNumber, [COLON] + value, Given(value));
  }

  lemma IndexedLineIsRead(action: Action, key: string, index: nat, rest: string, value: Argument)
    requires IsFieldKey(key) && (rest == "" || !IsDigit(rest[0])) && ReadArgument(rest) == Ok(value)
    ensures ReadParts(ActionWord(action) + " " + (key + (" " + (Digits(index) + rest))))
        == Ok(Parts(action, key, Number(index), value))
  {
    IndexIsRead(index, rest);
    PartsAreRead(action, key, " " + (Digits(index) + rest), Number(index), rest, value);
  }

  lemma BareLineIsRead(action: Action, key: string)
    requires IsFieldKey(key)
    ensures ReadParts(ActionWord(action) + " " + key) == Ok(Parts(action, key, NoNumber, NoValue))
  {
    NothingIsRead();
    NothingAfter(key);
    PartsAreRead(action, key, "", NoNumber, "", NoValue);
  }

  /** The parts a command is written with. */
  function PartsOf(c: Command): Parts {
    match c
    case SetSingle(key, value) => Parts(Update, key, NoNumber, Given(value))
    case ClearSingle(key) => Parts(Delete, key, NoNumber, NoValue)
    case AddItem(key, value) => Parts(Add, key, NoNumber, Given(value))
    case UpdateItem(key, index, value) => Parts(Update, key, Number(index), Given(value))
    case DeleteItem(key, index) => Parts(Delete, key, Number(index), NoValue)
  }

  lemma PartsComeBack(c: Command)
    requires IsFieldKey(c.key) && (c.SetSingle? || c.AddItem? || c.UpdateItem? ==> Clean(c.value))
    ensures ReadParts(CommandLine(c)) == Ok(PartsOf(c))
  {
    WordsAre();
    match c
    case SetSingle(key, value) => ValueLineIsRead(Update, key, value);
    case ClearSingle(key) => BareLineIsRead(Delete, key);
    case AddItem(key, value) => ValueLineIsRead(Add, key, value);
    case UpdateItem(key, index, value) =>
      ValueIsRead(value);
      IndexedLineIsRead(Update, key, index, [COLON] + value, Given(value));
    case DeleteItem(key, index) =>
      NothingIsRead();
      NothingAfter(Digits(index));
      IndexedLineIsRead(Delete, key, index, "", NoValue);
  }

  /** Every line of the grammar is read as the command it was written for. */
  lemma GrammarIsRead(model: seq<Field>, c: Command)
    requires WellShaped(model, c) && IsFieldKey(c.key)
    ensures ParsePatchLine(model, CommandLine(c)) == Ok(c)
  {
    PartsComeBack(c);
    CommandOfParts(model, c);
    ParsedFrom(model, CommandLine(c), PartsOf(c));
  }

  lemma CommandOfParts(model: seq<Field>, c: Command)
    requires WellShaped(model, c)
    ensures PartsOf(c).key == c.key && CommandOf(FieldOf(model, c.key).kind, PartsOf(c)) == Ok(c)
  {
  }

  lemma ParsedFrom(model: seq<Field>, line: string, parts: Parts)
    requires ReadParts(line) == Ok(parts) && Declares(model, parts.key)
    ensures ParsePatchLine(model, line) == CommandOf(FieldOf(model, parts.key).kind, parts)
  {
  }

  lemma PartsAreClean(line: string)
    requires ReadParts(line).Ok? && ReadParts(line).value.value.Given?
    ensures Clean(ReadParts(line).value.value.value)
  {
    var keyed := ReadAction(line).value.1;
    var after := keyed[SpaceRun(keyed)..];
    ArgumentIsClean(ReadIndex(after[KeyRun(after)..]).1);
  }

  /** Whatever is read is well-shaped: a clean value, a command of the field's kind. */
  lemma ReadIsShaped(model: seq<Field>, line: string)
    requires ParsePatchLine(model, line).Ok?
    ensures WellShaped(model, ParsePatchLine(model, line).value)
  {
    var p := ReadParts(line).value;
    if p.value.Given? {
      PartsAreClean(line);
    }
    CommandIsShaped(model, p);
  }

  lemma CommandIsShaped(model: seq<Field>, p: Parts)
    requires Declares(model, p.key) && CommandOf(FieldOf(model, p.key).kind, p).Ok?
        && (p.value.Given? ==> Clean(p.value.value))
    ensures WellShaped(model, CommandOf(FieldOf(model, p.key).kind, p).value)
  {
  }

  lemma ArgumentIsClean(text: string)
    requires ReadArgument(text).Ok? && ReadArgument(text).value.Given?
    ensures Clean(ReadArgument(text).value.value)
  {
    var rest := text[SpaceRun(text)..];
    var value := rest[1..][SpaceRun(rest[1..])..];
    TrimIsClean(value);
    TrimLeaves(value);
  }

  // --- the batch ---

  const NOOP := "NOOP"
  const FENCE := "```"

  predicate IsLanguageChar(c: char) {
    'a' <= c <= 'z' || 'A' <= c <= 'Z' || '0' <= c <= '9' || c == '_' || c == '-'
  }

  function LanguageRun(s: string): (n: nat)
    ensures n <= |s|
  {
    if s == "" || !IsLanguageChar(s[0]) then 0 else 1 + LanguageRun(s[1..])
  }

  /** `stripMarkdownFence`. */
  function StripFence(input: string): string {
    var text := Trim(input);
    if |text| < 6 || text[..3] != FENCE || text[|text| - 3..] != FENCE then text
    else
      var inner := text[3..|text| - 3];
      Trim(inner[LanguageRun(inner)..])
  }

  function ParseLines(model: seq<Field>, lines: seq<string>): Result<seq<Command>> {
    if lines == [] then Ok([])
    else
      var before :- ParseLines(model, lines[..|lines| - 1]);
      var last :- ParsePatchLine(model, lines[|lines| - 1]);
      Ok(before + [last])
  }

  /** `parseLongMemoryPatch`. */
  function ParsePatch(model: seq<Field>, text: string): Result<seq<Command>> {
    var lines := NonEmpty(TrimmedLines(StripFence(text)));
    if lines == [] then Rejected
    else if NOOP in lines then (if |lines| > 1 then Rejected else Ok([]))
    else ParseLines(model, lines)
  }

  function CommandLines(commands: seq<Command>): (lines: seq<string>)
    ensures |lines| == |commands|
  {
    if commands == [] then [] else CommandLines(commands[..|commands| - 1]) + [CommandLine(commands[|commands| - 1])]
  }

  /** A command line is printable, and no fence, no `NOOP`. */
  predicate PlainLine(line: string) {
    Printable(line) && line != "" && line != NOOP && line[0] != FENCE[0]
  }

  /** The end of a command line. */
  predicate LineEnd(s: string) {
    s != "" && OneLine(s) && !IsSpace(s[|s| - 1])
  }

  lemma LineEndGrows(front: string, s: string)
    requires OneLine(front) && LineEnd(s)
    ensures LineEnd(front + s)
  {
    var line := front + s;
    assert line[|line| - 1] == s[|s| - 1];
  }

  lemma KeyEndsLine(key: string)
    requires IsFieldKey(key)
    ensures LineEnd(key)
  {
    assert IsKeyChar(key[|key| - 1]);
  }

  lemma DigitsEndLine(digits: string)
    requires AllDigits(digits) && digits != ""
    ensures LineEnd(digits)
  {
    forall i | 0 <= i < |digits| ensures !EndsLine(digits[i]) {
      assert IsDigit(digits[i]);
    }
    assert IsDigit(digits[|digits| - 1]);
  }

  lemma LineIsPlain(front: string, back: string)
    requires front != "" && front[0] in "AUD" && OneLine(front) && LineEnd(back) && |front + back| > 4
    ensures PlainLine(front + back)
  {
    LineEndGrows(front, back);
    assert (front + back)[0] == front[0];
  }

  lemma CommandIsPlain(model: seq<Field>, c: Command)
    requires WellShaped(model, c) && IsFieldKey(c.key)
    ensures PlainLine(CommandLine(c))
  {
    KeyEndsLine(c.key);
    match c
    case SetSingle(key, value) =>
      LineEndGrows([COLON], value);
      LineEndGrows(key, [COLON] + value);
      LineIsPlain("UPDATE ", key + ([COLON] + value));
    case ClearSingle(key) =>
      LineIsPlain("DELETE ", key);
    case AddItem(key, value) =>
      LineEndGrows([COLON], value);
      LineEndGrows(key, [COLON] + value);
      LineIsPlain("ADD ", key + ([COLON] + value));
    case UpdateItem(key, index, value) =>
      LineEndGrows([COLON], value);
      IndexedLineIsPlain("UPDATE ", key, index, [COLON] + value);
    case DeleteItem(key, index) =>
      DeleteLineIsPlain(key, index);
  }

  lemma IndexedLineIsPlain(front: string, key: string, index: nat, back: string)
    requires IsFieldKey(key) && LineEnd(key) && LineEnd(back) && (front == "UPDATE " || front == "DELETE ")
    ensures PlainLine(front + (key + (" " + (Digits(index) + back))))
  {
    DigitsEndLine(Digits(index));
    LineEndGrows(Digits(index), back);
    LineEndGrows(" ", Digits(index) + back);
    LineEndGrows(key, " " + (Digits(index) + back));
    LineIsPlain(front, key + (" " + (Digits(index) + back)));
  }

  lemma DeleteLineIsPlain(key: string, index: nat)
    requires IsFieldKey(key) && LineEnd(key)
    ensures PlainLine("DELETE " + (key + (" " + Digits(index))))
  {
    DigitsEndLine(Digits(index));
    LineEndGrows(" ", Digits(index));
    LineEndGrows(key, " " + Digits(index));
    LineIsPlain("DELETE ", key + (" " + Digits(index)));
  }

  ghost predicate AllKeys(commands: seq<Command>) {
    forall i {:trigger IsFieldKey(commands[i].key)} :: 0 <= i < |commands| ==> IsFieldKey(commands[i].key)
  }

  lemma KeysPrefix(commands: seq<Command>, n: nat)
    requires AllKeys(commands) && n <= |commands|
    ensures AllKeys(commands[..n])
  {
    forall i | 0 <= i < n ensures IsFieldKey(commands[..n][i].key) {
      assert IsFieldKey(commands[i].key);
    }
  }

  ghost predicate AllPlain(lines: seq<string>) {
    forall i {:trigger PlainLine(lines[i])} :: 0 <= i < |lines| ==> PlainLine(lines[i])
  }

  lemma {:induction false} LinesArePlain(model: seq<Field>, commands: seq<Command>)
    requires AllShaped(model, commands) && AllKeys(commands)
    ensures AllPlain(CommandLines(commands))
  {
    if commands != [] {
      var n := |commands| - 1;
      var lines, last := CommandLines(commands[..n]), CommandLine(commands[n]);
      ShapedPrefix(model, commands, n);
      KeysPrefix(commands, n);
      LinesArePlain(model, commands[..n]);
      assert WellShaped(model, commands[n]) && IsFieldKey(commands[n].key);
      CommandIsPlain(model, commands[n]);
      forall i | 0 <= i <= n ensures PlainLine((lines + [last])[i]) {
        assert i < n ==> PlainLine(lines[i]);
      }
    }
  }

  /** The lines are read one by one. */
  ghost predicate LinesRead(model: seq<Field>, lines: seq<string>, commands: seq<Command>) {
    |lines| == |commands| && forall i :: 0 <= i < |lines| ==> ReadsAs(model, lines[i], commands[i])
  }

  predicate ReadsAs(model: seq<Field>, line: string, c: Command) {
    ParsePatchLine(model, line) == Ok(c)
  }

  lemma {:induction false} LinesParse(model: seq<Field>, lines: seq<string>, commands: seq<Command>)
    requires LinesRead(model, lines, commands)
    ensures ParseLines(model, lines) == Ok(commands)
  {
    if lines != [] {
      var n := |lines| - 1;
      LinesParse(model, lines[..n], commands[..n]);
      assert ReadsAs(model, lines[n], commands[n]);
      OneLineParsed(model, lines[..n], commands[..n], lines[n], commands[n]);
      InitLast(lines);
      InitLast(commands);
    }
  }

  lemma {:induction false} CommandLineAt(commands: seq<Command>, i: nat)
    requires i < |commands|
    ensures CommandLines(commands)[i] == CommandLine(commands[i])
  {
    if i < |commands| - 1 {
      CommandLineAt(commands[..|commands| - 1], i);
    }
  }

  lemma CommandsAreRead(model: seq<Field>, commands: seq<Command>)
    requires AllShaped(model, commands) && AllKeys(commands)
    ensures ParseLines(model, CommandLines(commands)) == Ok(commands)
  {
    forall i | 0 <= i < |commands| ensures ReadsAs(model, CommandLines(commands)[i], commands[i]) {
      CommandLineAt(commands, i);
      assert WellShaped(model, commands[i]) && IsFieldKey(commands[i].key);
      GrammarIsRead(model, commands[i]);
    }
    LinesParse(model, CommandLines(commands), commands);
  }

  lemma OneLineParsed(model: seq<Field>, lines: seq<string>, commands: seq<Command>, line: string, c: Command)
    requires ParseLines(model, lines) == Ok(commands) && ParsePatchLine(model, line) == Ok(c)
    ensures ParseLines(model, lines + [line]) == Ok(commands + [c])
  {
    assert (lines + [line])[..|lines|] == lines;
  }

  /** No fence is taken off a text that starts like a command. */
  lemma NoFence(text: string)
    requires text != "" && Trim(text) == text && text[0] != FENCE[0]
    ensures StripFence(text) == text
  {
    assert |text| >= 3 ==> text[..3][0] == text[0];
  }

  /** A patch written by the grammar is read as its commands. */
  lemma PatchComesBack(model: seq<Field>, commands: seq<Command>)
    requires commands != [] && AllShaped(model, commands) && AllKeys(commands)
    ensures ParsePatch(model, Join(CommandLines(commands), "\n")) == Ok(commands)
  {
    var lines := CommandLines(commands);
    LinesArePlain(model, commands);
    assert PlainLine(lines[0]) && PlainLine(lines[|lines| - 1]);
    JoinedIsTrimmed(lines);
    TrimFixesTrimmed(Join(lines, "\n"));
    NoFence(Join(lines, "\n"));
    PlainIsPrintable(lines);
    LinesComeBack(lines);
    PlainIsNotEmpty(lines);
    NoneIsEmpty(lines);
    CommandsAreRead(model, commands);
  }

  lemma PlainIsNotEmpty(lines: seq<string>)
    requires AllPlain(lines)
    ensures "" !in lines
  {
    forall i | 0 <= i < |lines| ensures lines[i] != "" {
      assert PlainLine(lines[i]);
    }
  }

  lemma PlainIsPrintable(lines: seq<string>)
    requires AllPlain(lines)
    ensures AllPrintable(lines) && NOOP !in lines
  {
    forall i | 0 <= i < |lines| ensures Printable(lines[i]) && lines[i] != NOOP {
      assert PlainLine(lines[i]);
    }
  }

  lemma {:induction false} LinesAreShaped(model: seq<Field>, lines: seq<string>)
    requires ParseLines(model, lines).Ok?
    ensures AllShaped(model, ParseLines(model, lines).value)
  {
    if lines != [] {
      var n := |lines| - 1;
      LinesAreShaped(model, lines[..n]);
      ReadIsShaped(model, lines[n]);
      ShapedAppend(model, ParseLines(model, lines[..n]).value, ParsePatchLine(model, lines[n]).value);
    }
  }

  lemma ShapedAppend(model: seq<Field>, commands: seq<Command>, c: Command)
    requires AllShaped(model, commands) && WellShaped(model, c)
    ensures AllShaped(model, commands + [c])
  {
    forall i | 0 <= i <= |commands| ensures WellShaped(model, (commands + [c])[i]) {
      assert i < |commands| ==> WellShaped(model, commands[i]);
    }
  }

  /** Every patch text that is accepted gives commands a patch may be applied with. */
  lemma ReadPatchIsShaped(model: seq<Field>, text: string)
    requires ParsePatch(model, text).Ok?
    ensures AllShaped(model, ParsePatch(model, text).value) && AllDeclared(model, ParsePatch(model, text).value)
  {
    var lines := NonEmpty(TrimmedLines(StripFence(text)));
    if NOOP !in lines {
      LinesAreShaped(model, lines);
      ShapedAreDeclared(model, ParsePatch(model, text).value);
    }
  }

  // --- fences and the empty patch ---

  /** A text between fences, the first one naming a language. */
  function Fenced(language: string, body: string): string {
    FENCE + (language + ("\n" + body + "\n")) + FENCE
  }

  predicate AllLanguage(s: string) {
    forall i :: 0 <= i < |s| ==> IsLanguageChar(s[i])
  }

  predicate IsFenced(text: string) {
    |text| >= 6 && text[..3] == FENCE && text[|text| - 3..] == FENCE
  }

  lemma {:induction false} LanguageRunIs(language: string, rest: string)
    requires AllLanguage(language) && rest != "" && !IsLanguageChar(rest[0])
    ensures LanguageRun(language + rest) == |language|
  {
    if language == "" {
      assert language + rest == rest;
    } else {
      LanguageRunIs(language[1..], rest);
      assert (language + rest)[1..] == language[1..] + rest;
    }
  }

  lemma FencedParts(inner: string)
    ensures var text := FENCE + inner + FENCE;
            IsFenced(text) && text[3..|text| - 3] == inner && Trimmed(text)
  {
    var text := FENCE + inner + FENCE;
    assert text[..3] == FENCE && text[|text| - 3..] == FENCE;
  }

  /** A fence around a patch is taken off, with its language and the space about it. */
  lemma FenceIsStripped(front: string, language: string, body: string, back: string)
    requires AllSpace(front) && AllSpace(back) && AllLanguage(language) && Canonical(body)
    ensures StripFence(front + Fenced(language, body) + back) == body
  {
    var rest := "\n" + body + "\n";
    var inner := language + rest;
    FencedParts(inner);
    TrimAround(front, Fenced(language, body), back);
    LanguageRunIs(language, rest);
    assert inner[|language|..] == rest;
    TrimAround("\n", body, "\n");
  }

  /** Any other text is only trimmed. */
  lemma OthersAreTrimmed(front: string, text: string, back: string)
    requires AllSpace(front) && AllSpace(back) && Canonical(text) && !IsFenced(text)
    ensures StripFence(front + text + back) == text
  {
    TrimAround(front, text, back);
  }

  /** So a fenced patch is read as the patch inside. */
  lemma FencedPatchIsRead(model: seq<Field>, front: string, language: string, body: string, back: string)
    requires AllSpace(front) && AllSpace(back) && AllLanguage(language) && Canonical(body) && !IsFenced(body)
    ensures ParsePatch(model, front + Fenced(language, body) + back) == ParsePatch(model, body)
  {
    FenceIsStripped(front, language, body, back);
    OthersAreTrimmed("", body, "");
    assert "" + body + "" == body;
  }

  /** A NOOP is the empty patch on a line of its own, and refused beside any other line. */
  lemma NoopStandsAlone(model: seq<Field>, lines: seq<string>)
    requires lines != [] && AllPrintable(lines) && "" !in lines && NOOP in lines && lines[0][0] != FENCE[0]
    ensures ParsePatch(model, Join(lines, "\n")) == if lines == [NOOP] then Ok([]) else Rejected
  {
    assert Printable(lines[0]) && Printable(lines[|lines| - 1]) && lines[|lines| - 1] in lines;
    JoinedIsTrimmed(lines);
    TrimFixesTrimmed(Join(lines, "\n"));
    NoFence(Join(lines, "\n"));
    LinesComeBack(lines);
    NoneIsEmpty(lines);
    if |lines| == 1 {
      assert lines == [lines[0]];
    }
  }

  /** A blank patch is refused. */
  lemma BlankIsRefused(model: seq<Field>, text: string)
    requires AllSpace(text)
    ensures ParsePatch(model, text).Rejected?
  {
    TrimStartSkips(text, "");
    assert text + "" == text && Trim(text) == "";
    assert Split(NormalizeNewlines(""), '\n') == [""];
    assert TrimmedLines("") == [""];
    assert [""][..0] == [];
  }
}
