/** The parser of server-sent events, fed the body of a response in chunks. */
module EventStream {
  import opened Lines

  datatype Message = Message(event: string, data: string)

  // --- the declarative reading (WHATWG HTML, sections 9.2.5 and 9.2.6) ---

  /** The lines a text completes: each ends in CRLF, LF or CR. */
  function CompleteLines(text: string): seq<string> {
    var pieces := Split(NormalizeNewlines(text), '\n');
    pieces[..|pieces| - 1]
  }

  /** What follows the last line ending. */
  function UnfinishedLine(text: string): string {
    var pieces := Split(NormalizeNewlines(text), '\n');
    pieces[|pieces| - 1]
  }

  /** The field a line sets; a comment has the empty name. */
  datatype Field = Field(name: string, value: string)

  function FieldOf(line: string): Field {
    if ':' in line then
      var colon := IndexOf(line, ':');
      Field(line[..colon], WithoutSpace(line[colon + 1..]))
    else Field(line, "")
  }

  /** Only one leading space is dropped. */
  function WithoutSpace(raw: string): string {
    if raw != "" && raw[0] == ' ' then raw[1..] else raw
  }

  /** The `data` values among the lines of an event. */
  function DataOf(lines: seq<string>): seq<string> {
    if lines == [] then []
    else
      var field := FieldOf(lines[|lines| - 1]);
      if field.name == "data" then DataOf(lines[..|lines| - 1]) + [field.value] else DataOf(lines[..|lines| - 1])
  }

  /** The last `event` value among the lines of an event, if any. */
  function TypeOf(lines: seq<string>): string {
    if lines == [] then ""
    else
      var field := FieldOf(lines[|lines| - 1]);
      if field.name == "event" then field.value else TypeOf(lines[..|lines| - 1])
  }

  /** The message of one event, if it has data. */
  function MessageOf(lines: seq<string>): seq<Message> {
    if DataOf(lines) == [] then []
    else [Message(if TypeOf(lines) == "" then "message" else TypeOf(lines), Join(DataOf(lines), "\n"))]
  }

  /** Blank lines end events; lines after the last blank one belong to an event still open. */
  function Messages(lines: seq<string>): seq<Message> {
    if "" !in lines then []
    else
      var blank := FirstBlank(lines);
      MessageOf(lines[..blank]) + Messages(lines[blank + 1..])
  }

  function FirstBlank(lines: seq<string>): (i: nat)
    requires "" in lines
    ensures i < |lines| && lines[i] == "" && "" !in lines[..i]
  {
    if lines[0] == "" then 0 else 1 + FirstBlank(lines[1..])
  }

  /** The lines of the event still open. */
  function OpenLines(lines: seq<string>): seq<string> {
    if lines == [] || lines[|lines| - 1] == "" then [] else OpenLines(lines[..|lines| - 1]) + [lines[|lines| - 1]]
  }

  /** What a reader of the whole text is told. */
  function MessagesOf(text: string): seq<Message> {
    Messages(CompleteLines(text))
  }

  // --- one more line, one more character ---

  lemma {:induction false} OpenLinesAfter(lines: seq<string>, k: nat)
    requires k < |lines| && lines[k] == ""
    ensures OpenLines(lines) == OpenLines(lines[k + 1..])
  {
    var n := |lines| - 1;
    if k < n && lines[n] != "" {
      OpenLinesAfter(lines[..n], k);
      assert lines[..n][k + 1..] == lines[k + 1..][..n - k - 1];
    }
  }

  lemma {:induction false} OpenLinesAll(lines: seq<string>)
    requires "" !in lines
    ensures OpenLines(lines) == lines
  {
    if lines != [] {
      OpenLinesAll(lines[..|lines| - 1]);
    }
  }

  lemma {:induction false} FirstBlankIs(lines: seq<string>, i: nat)
    requires i < |lines| && lines[i] == "" && "" !in lines[..i]
    ensures FirstBlank(lines) == i
  {
    if i > 0 {
      assert lines[0] == lines[..i][0] && lines[1..][..i - 1] == lines[..i][1..];
      FirstBlankIs(lines[1..], i - 1);
    }
  }

  lemma SliceAppend(lines: seq<string>, line: string, k: nat)
    requires k < |lines|
    ensures (lines + [line])[..k] == lines[..k] && (lines + [line])[k + 1..] == lines[k + 1..] + [line]
  {
  }

  /** A blank line tells the event still open; any other line tells nothing yet. */
  lemma {:induction false} MessagesAppend(lines: seq<string>, line: string)
    ensures Messages(lines + [line]) ==
              if line == "" then Messages(lines) + MessageOf(OpenLines(lines)) else Messages(lines)
  {
    if "" in lines {
      var blank := FirstBlank(lines);
      var rest := lines[blank + 1..];
      SliceAppend(lines, line, blank);
      FirstBlankIs(lines + [line], blank);
      MessagesAppend(rest, line);
      OpenLinesAfter(lines, blank);
      Regroup(MessageOf(lines[..blank]), Messages(rest), MessageOf(OpenLines(rest)));
    } else if line == "" {
      LastBlank(lines);
      OpenLinesAll(lines);
    }
  }

  lemma LastBlank(lines: seq<string>)
    requires "" !in lines
    ensures Messages(lines + [""]) == MessageOf(lines)
  {
    var longer := lines + [""];
    assert longer[..|lines|] == lines && longer[|lines| + 1..] == [];
    FirstBlankIs(longer, |lines|);
  }

  /** The parser's variables after reading a text. */
  ghost predicate Tracks(line: string, skipLineFeed: bool, event: string, data: seq<string>, told: seq<Message>,
                         text: string)
  {
    var open := OpenLines(CompleteLines(text));
    && line == UnfinishedLine(text) && skipLineFeed == EndsWith(text, '\r')
    && event == TypeOf(open) && data == DataOf(open) && told == MessagesOf(text)
  }

  /** A text's lines, read off its pieces. */
  lemma LinesAre(text: string, complete: seq<string>, last: string)
    requires Split(NormalizeNewlines(text), '\n') == complete + [last]
    ensures CompleteLines(text) == complete && UnfinishedLine(text) == last
  {
  }

  /** What a character adds to the lines of a text. */
  lemma LinesAppend(text: string, c: char)
    requires !(c == '\n' && EndsWith(text, '\r'))
    ensures if c == '\r' || c == '\n' then
              CompleteLines(text + [c]) == CompleteLines(text) + [UnfinishedLine(text)]
                  && UnfinishedLine(text + [c]) == ""
            else
              CompleteLines(text + [c]) == CompleteLines(text)
                  && UnfinishedLine(text + [c]) == UnfinishedLine(text) + [c]
  {
    NormalizeAppend(text, c);
    SplitAppend(NormalizeNewlines(text), if c == '\r' then '\n' else c, '\n');
    var complete, last := CompleteLines(text), UnfinishedLine(text);
    assert Split(NormalizeNewlines(text), '\n') == complete + [last];
    if c == '\r' || c == '\n' {
      LinesAre(text + [c], complete + [last], "");
    } else {
      LinesAre(text + [c], complete, last + [c]);
    }
  }

  /** The LF of a CRLF adds nothing. */
  lemma LineFeedSkipped(text: string)
    requires EndsWith(text, '\r')
    ensures CompleteLines(text + "\n") == CompleteLines(text) && UnfinishedLine(text + "\n") == UnfinishedLine(text)
  {
    NormalizeAppend(text, '\n');
  }

  /** The open event after one more complete line. */
  lemma OpenAppend(lines: seq<string>, line: string)
    ensures OpenLines(lines + [line]) == if line == "" then [] else OpenLines(lines) + [line]
    ensures line != "" ==>
      && TypeOf(OpenLines(lines) + [line]) ==
           (if FieldOf(line).name == "event" then FieldOf(line).value else TypeOf(OpenLines(lines)))
      && DataOf(OpenLines(lines) + [line]) ==
           if FieldOf(line).name == "data" then DataOf(OpenLines(lines)) + [FieldOf(line).value]
           else DataOf(OpenLines(lines))
  {
    assert (lines + [line])[..|lines|] == lines;
    var open := OpenLines(lines);
    assert (open + [line])[..|open|] == open;
  }

  /** CR, LF and CRLF are one and the same line ending. */
  lemma EndingsAreEquivalent(text: string)
    ensures MessagesOf(NormalizeNewlines(text)) == MessagesOf(text)
  {
    NormalizeFixesPlain(NormalizeNewlines(text));
  }

  /** What a complete line does to the event being read. */
  predicate Dispatched(line: string, event: string, data: seq<string>, event': string, data': seq<string>,
                       events: seq<Message>)
  {
    if line == "" then
      && event' == "" && data' == []
      && events == if data == [] then [] else [Message(if event == "" then "message" else event, Join(data, "\n"))]
    else
      && events == []
      && event' == (if FieldOf(line).name == "event" then FieldOf(line).value else event)
      && data' == if FieldOf(line).name == "data" then data + [FieldOf(line).value] else data
  }

  lemma LineEnds(line: string, skipLineFeed: bool, event: string, data: seq<string>, told: seq<Message>, text: string,
                 c: char, event': string, data': seq<string>, events: seq<Message>)
    requires Tracks(line, skipLineFeed, event, data, told, text) && (c == '\r' || (c == '\n' && !skipLineFeed))
    requires Dispatched(line, event, data, event', data', events)
    ensures Tracks("", c == '\r', event', data', told + events, text + [c])
  {
    LinesAppend(text, c);
    OpenAppend(CompleteLines(text), line);
    MessagesAppend(CompleteLines(text), line);
  }

  lemma CharacterReads(line: string, event: string, data: seq<string>, told: seq<Message>, skip: bool, text: string,
                       c: char)
    requires Tracks(line, skip, event, data, told, text) && c != '\r' && c != '\n'
    ensures Tracks(line + [c], false, event, data, told, text + [c])
  {
    LinesAppend(text, c);
  }

  lemma LineFeedReads(line: string, event: string, data: seq<string>, told: seq<Message>, text: string)
    requires Tracks(line, true, event, data, told, text)
    ensures Tracks(line, false, event, data, told, text + "\n")
  {
    LineFeedSkipped(text);
  }

  lemma NothingTold(told: seq<Message>)
    ensures told + [] == told
  {
  }

  lemma Longer<T>(before: seq<T>, text: seq<T>, i: nat)
    requires i < |text|
    ensures before + text[..i] + [text[i]] == before + text[..i + 1]
  {
  }

  // --- the parser ---

  class Parser {
    var line: string
    var skipLineFeed: bool
    var event: string
    var data: seq<string>
    /** Everything fed, and everything told. */
    ghost var fed: string
    ghost var told: seq<Message>

    ghost predicate Valid()
      reads this
    {
      Tracks(line, skipLineFeed, event, data, told, fed)
    }

    constructor ()
      ensures Valid() && fed == "" && told == []
    {
      line, skipLineFeed, event, data, fed, told := "", false, "", [], "", [];
    }

    /** A line is complete: a blank one ends the event, any other may set a field. */
    method DispatchLine() returns (events: seq<Message>)
      modifies this`event, this`data
      ensures Dispatched(line, old(event), old(data), event, data, events)
    {
      events := [];
      if line == "" {
        if data != [] {
          events := [Message(if event == "" then "message" else event, Join(data, "\n"))];
        }
        event, data := "", [];
        return;
      }
      var field, raw := line, "";
      if ':' in line {
        var separator := IndexOf(line, ':');
        if separator == 0 {
          return;
        }
        field, raw := line[..separator], line[separator + 1..];
      }
      var value := if raw != "" && raw[0] == ' ' then raw[1..] else raw;
      if field == "event" {
        event := value;
      } else if field == "data" {
        data := data + [value];
      }
    }

    /** Reads one character. */
    method Read(c: char) returns (events: seq<Message>)
      requires Valid()
      modifies this
      ensures Valid() && fed == old(fed) + [c] && told == old(told) + events
    {
      events := [];
      NothingTold(told);
      if skipLineFeed && c == '\n' {
        LineFeedReads(line, event, data, told, fed);
        skipLineFeed := false;
      } else if c == '\r' || c == '\n' {
        events := DispatchLine();
        LineEnds(line, skipLineFeed, old(event), old(data), told, fed, c, event, data, events);
        line, skipLineFeed, told := "", c == '\r', told + events;
      } else {
        CharacterReads(line, event, data, told, skipLineFeed, fed, c);
        skipLineFeed := false;
        line := line + [c];
      }
      fed := fed + [c];
    }

    /** Reads one chunk; with what was told before, the events told are those of the whole text. */
    method Push(text: string) returns (events: seq<Message>)
      requires Valid()
      modifies this
      ensures Valid() && fed == old(fed) + text && told == old(told) + events
    {
      events := [];
      ghost var before, earlier := fed, told;
      for i := 0 to |text|
        invariant Valid() && fed == before + text[..i] && told == earlier + events
      {
        Longer(before, text, i);
        var more := Read(text[i]);
        Regroup(earlier, events, more);
        events := events + more;
      }
      assert text[..|text|] == text;
    }
  }

  function Flatten(chunks: seq<string>): string {
    if chunks == [] then "" else Flatten(chunks[..|chunks| - 1]) + chunks[|chunks| - 1]
  }

  /** `streamServerSentEvents`: however the text is cut into chunks, the events are those of the
      whole text. */
  method StreamEvents(chunks: seq<string>) returns (events: seq<Message>)
    ensures events == MessagesOf(Flatten(chunks))
  {
    var parser := new Parser();
    events := [];
    for i := 0 to |chunks|
      invariant parser.Valid() && parser.fed == Flatten(chunks[..i]) && parser.told == events
    {
      assert chunks[..i + 1][..i] == chunks[..i];
      var more := parser.Push(chunks[i]);
      events := events + more;
    }
    assert chunks[..|chunks|] == chunks;
  }

  /** `parseServerSentEvents`. */
  method ParseEvents(text: string) returns (events: seq<Message>)
    ensures events == MessagesOf(text)
  {
    var parser := new Parser();
    events := parser.Push(text);
    assert [] + events == events && "" + text == text;
  }
}
