/** Event streams as a server writes them, and that the parser tells the messages written. */
module EventWriting {
  import opened Lines
  import opened EventStream

  /** A field line: the name, a colon, at most one space, and the value. */
  function FieldLine(name: string, spaced: bool, value: string): string {
    name + ":" + ((if spaced then " " else "") + value)
  }

  /** A value that starts with a space needs one more before it. */
  predicate Writable(spaced: bool, value: string) {
    spaced || value == "" || value[0] != ' '
  }

  lemma {:induction false} IndexOfColon(name: string, rest: string)
    requires ':' !in name
    ensures ':' in name + ":" + rest && IndexOf(name + ":" + rest, ':') == |name|
  {
    var s := name + ":" + rest;
    assert s[|name|] == ':';
    if name != "" {
      IndexOfColon(name[1..], rest);
      assert s[1..] == name[1..] + ":" + rest && name[0] in name;
    }
  }

  /** The name up to the first colon, and the value after it but for one space. */
  lemma FieldIsRead(name: string, spaced: bool, value: string)
    requires ':' !in name && Writable(spaced, value)
    ensures FieldOf(FieldLine(name, spaced, value)) == Field(name, value)
  {
    var raw := (if spaced then " " else "") + value;
    IndexOfColon(name, raw);
    var line := FieldLine(name, spaced, value);
    assert line[..|name|] == name && line[|name| + 1..] == raw;
    assert spaced ==> raw[1..] == value;
    assert !spaced ==> raw == value;
  }

  /** A line without a colon is a name alone. */
  lemma NameIsRead(name: string)
    requires ':' !in name
    ensures FieldOf(name) == Field(name, "")
  {
  }

  lemma DataAppend(lines: seq<string>, line: string)
    ensures DataOf(lines + [line]) ==
              if FieldOf(line).name == "data" then DataOf(lines) + [FieldOf(line).value] else DataOf(lines)
    ensures TypeOf(lines + [line]) == if FieldOf(line).name == "event" then FieldOf(line).value else TypeOf(lines)
  {
    assert (lines + [line])[..|lines|] == lines;
  }

  /** Another `data` line adds to the data, another `event` line replaces the type, and any other
      field, or a comment, changes neither. */
  lemma FieldTells(lines: seq<string>, name: string, spaced: bool, value: string)
    requires ':' !in name && Writable(spaced, value)
    ensures var longer := lines + [FieldLine(name, spaced, value)];
            && DataOf(longer) == (if name == "data" then DataOf(lines) + [value] else DataOf(lines))
            && TypeOf(longer) == if name == "event" then value else TypeOf(lines)
  {
    FieldIsRead(name, spaced, value);
    DataAppend(lines, FieldLine(name, spaced, value));
  }

  predicate IsField(line: string, name: string) {
    FieldOf(line).name == name
  }

  /** The i-th line is the last field of this name. */
  predicate IsLast(lines: seq<string>, name: string, i: nat) {
    i < |lines| && IsField(lines[i], name) && forall j :: i < j < |lines| ==> !IsField(lines[j], name)
  }

  lemma {:induction false} LastTells(lines: seq<string>)
    ensures DataOf(lines) == [] <==> forall i :: 0 <= i < |lines| ==> !IsField(lines[i], "data")
    ensures forall i: nat :: IsLast(lines, "event", i) ==> TypeOf(lines) == FieldOf(lines[i]).value
    ensures (forall i :: 0 <= i < |lines| ==> !IsField(lines[i], "event")) ==> TypeOf(lines) == ""
  {
    if lines != [] {
      var n := |lines| - 1;
      LastTells(lines[..n]);
      forall i: nat | IsLast(lines, "event", i) ensures TypeOf(lines) == FieldOf(lines[i]).value {
        if i < n {
          assert IsLast(lines[..n], "event", i) && !IsField(lines[n], "event");
        }
      }
    }
  }

  /** Lines tell a message exactly if one of them is `data`, and its type is the last one named, or
      the usual one if none is or that one is empty. */
  lemma MessageIs(lines: seq<string>)
    ensures |MessageOf(lines)| == if exists i :: 0 <= i < |lines| && IsField(lines[i], "data") then 1 else 0
    ensures forall m :: m in MessageOf(lines) ==>
              && ((forall i :: 0 <= i < |lines| ==> !IsField(lines[i], "event")) ==> m.event == "message")
              && forall i: nat :: IsLast(lines, "event", i) ==>
                   m.event == if FieldOf(lines[i]).value == "" then "message" else FieldOf(lines[i]).value
  {
    LastTells(lines);
  }

  // --- writing ---

  function DataLines(pieces: seq<string>): seq<string> {
    if pieces == [] then [] else DataLines(pieces[..|pieces| - 1]) + [FieldLine("data", true, pieces[|pieces| - 1])]
  }

  /** One message: its type, unless it is the usual one, and a `data` line for each line of its data. */
  function BlockOf(m: Message): seq<string> {
    (if m.event == "message" then [] else [FieldLine("event", true, m.event)]) + DataLines(Split(m.data, '\n'))
  }

  /** Each message and a blank line after it. */
  function LinesOf(messages: seq<Message>): seq<string> {
    if messages == [] then []
    else LinesOf(messages[..|messages| - 1]) + BlockOf(messages[|messages| - 1]) + [""]
  }

  function Written(messages: seq<Message>): string {
    Join(LinesOf(messages) + [""], "\n")
  }

  /** What can be written: a type on one line, data without CR. */
  predicate CanWrite(m: Message) {
    m.event != "" && '\n' !in m.event && '\r' !in m.event && '\r' !in m.data
  }

  // --- and read ---

  lemma {:induction false} DataLinesRead(lines: seq<string>, pieces: seq<string>)
    ensures DataOf(lines + DataLines(pieces)) == DataOf(lines) + pieces
    ensures TypeOf(lines + DataLines(pieces)) == TypeOf(lines)
  {
    if pieces == [] {
      assert lines + [] == lines;
    } else {
      var n := |pieces| - 1;
      DataLinesRead(lines, pieces[..n]);
      FieldTells(lines + DataLines(pieces[..n]), "data", true, pieces[n]);
      Regroup(lines, DataLines(pieces[..n]), [FieldLine("data", true, pieces[n])]);
      Regroup(DataOf(lines), pieces[..n], [pieces[n]]);
      InitLast(pieces);
    }
  }

  lemma BlockIsRead(m: Message)
    requires CanWrite(m)
    ensures MessageOf(BlockOf(m)) == [m]
  {
    var named: seq<string> := if m.event == "message" then [] else [FieldLine("event", true, m.event)];
    FieldTells([], "event", true, m.event);
    assert [] + [FieldLine("event", true, m.event)] == [FieldLine("event", true, m.event)];
    DataLinesRead(named, Split(m.data, '\n'));
    JoinSplit(m.data, '\n');
    assert DataOf(named) == [] && [] + Split(m.data, '\n') == Split(m.data, '\n');
  }

  lemma {:induction false} NoBlankData(pieces: seq<string>)
    ensures "" !in DataLines(pieces)
  {
    if pieces != [] {
      NoBlankData(pieces[..|pieces| - 1]);
    }
  }

  lemma NoBlankLine(m: Message)
    ensures "" !in BlockOf(m)
  {
    NoBlankData(Split(m.data, '\n'));
  }

  /** Lines without a blank one join the event still open. */
  lemma {:induction false} OpenGrows(lines: seq<string>, block: seq<string>)
    requires "" !in block
    ensures Messages(lines + block) == Messages(lines) && OpenLines(lines + block) == OpenLines(lines) + block
  {
    if block == [] {
      assert lines + [] == lines && OpenLines(lines) + [] == OpenLines(lines);
    } else {
      var n := |block| - 1;
      OpenGrows(lines, block[..n]);
      MessagesAppend(lines + block[..n], block[n]);
      Regroup(lines, block[..n], [block[n]]);
      Regroup(OpenLines(lines), block[..n], [block[n]]);
      InitLast(block);
      assert (lines + block[..n] + [block[n]])[..|lines| + n] == lines + block[..n];
    }
  }

  /** The lines written for messages are read as these messages, and nothing is left open. */
  lemma {:induction false} LinesAreRead(messages: seq<Message>)
    requires forall m :: m in messages ==> CanWrite(m)
    ensures Messages(LinesOf(messages)) == messages && OpenLines(LinesOf(messages)) == []
  {
    if messages != [] {
      var n := |messages| - 1;
      var before, m := messages[..n], messages[n];
      assert m in messages && forall x :: x in before ==> x in messages;
      LinesAreRead(before);
      NoBlankLine(m);
      OpenGrows(LinesOf(before), BlockOf(m));
      MessagesAppend(LinesOf(before) + BlockOf(m), "");
      assert [] + BlockOf(m) == BlockOf(m);
      BlockIsRead(m);
      InitLast(messages);
    }
  }

  ghost predicate OnOneLine(lines: seq<string>) {
    forall line :: line in lines ==> '\n' !in line && '\r' !in line
  }

  lemma {:induction false} DataOnOneLine(pieces: seq<string>)
    requires OnOneLine(pieces)
    ensures OnOneLine(DataLines(pieces))
  {
    if pieces != [] {
      var n := |pieces| - 1;
      assert forall piece :: piece in pieces[..n] ==> piece in pieces;
      DataOnOneLine(pieces[..n]);
      assert pieces[n] in pieces;
    }
  }

  lemma {:induction false} PiecesOnOneLine(text: string)
    requires '\r' !in text
    ensures OnOneLine(Split(text, '\n'))
  {
    if text != "" {
      var n := |text| - 1;
      PiecesOnOneLine(text[..n]);
      var pieces, c := Split(text[..n], '\n'), text[n];
      assert text[..n] + [c] == text && c in text;
      SplitAppend(text[..n], c, '\n');
      if c != '\n' {
        assert pieces[|pieces| - 1] in pieces;
        forall piece | piece in WithLast(pieces, c) ensures '\n' !in piece && '\r' !in piece {
          if piece != pieces[|pieces| - 1] + [c] {
            assert piece in pieces;
          }
        }
      }
    }
  }

  lemma BlockOnOneLine(m: Message)
    requires CanWrite(m)
    ensures OnOneLine(BlockOf(m))
  {
    PiecesOnOneLine(m.data);
    DataOnOneLine(Split(m.data, '\n'));
    var line := FieldLine("event", true, m.event);
    assert '\n' !in line && '\r' !in line;
  }

  lemma {:induction false} WrittenOnOneLine(messages: seq<Message>)
    requires forall m :: m in messages ==> CanWrite(m)
    ensures OnOneLine(LinesOf(messages))
  {
    if messages != [] {
      var before, m := messages[..|messages| - 1], messages[|messages| - 1];
      assert m in messages && forall x :: x in before ==> x in messages;
      WrittenOnOneLine(before);
      BlockOnOneLine(m);
    }
  }

  lemma {:induction false} JoinedHasNo(lines: seq<string>, c: char)
    requires c != '\n' && forall line :: line in lines ==> c !in line
    ensures c !in Join(lines, "\n")
  {
    if |lines| > 0 {
      assert lines[|lines| - 1] in lines && forall line :: line in lines[..|lines| - 1] ==> line in lines;
      JoinedHasNo(lines[..|lines| - 1], c);
      if |lines| > 1 {
        JoinAppend(lines[..|lines| - 1], lines[|lines| - 1], "\n");
        InitLast(lines);
      }
    }
  }

  /** Every list of messages that can be written, whatever their data, is what the parser tells when
      it is fed what is written. */
  lemma MessagesComeBack(messages: seq<Message>)
    requires forall m :: m in messages ==> CanWrite(m)
    ensures MessagesOf(Written(messages)) == messages
  {
    var lines := LinesOf(messages) + [""];
    WrittenOnOneLine(messages);
    JoinedHasNo(lines, '\r');
    NormalizeFixesPlain(Written(messages));
    SplitJoin(lines, '\n');
    assert lines[..|lines| - 1] == LinesOf(messages);
    LinesAreRead(messages);
  }
}
