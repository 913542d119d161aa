/** The long-memory document: fields of one value or a numbered list, printed and parsed. */
module LongMemory {
  import opened Decimal
  import opened Lines
  import opened Outcome
  import opened Text
  import opened MemoryDocument

  const HEADER := "NOOBOT_LONG_MEMORY/1"
  const COLON := '\U{FF1A}'
  const SEMICOLON := "\U{FF1B}"

  datatype Kind = SingleKind | ListKind(maxItems: nat)

  datatype Field = Field(key: string, kind: Kind)

  /** What a field holds: one text, or the items of a list. */
  datatype Content = Text(text: string) | Items(items: seq<string>)

  datatype Entry = Entry(key: string, content: Content)

  /** The values of the model's fields, and the entries the model does not know, in order. */
  datatype State = State(values: map<string, Content>, orphans: seq<Entry>)

  // --- keys and models ---

  predicate IsLower(c: char) {
    'a' <= c <= 'z'
  }

  predicate IsKeyChar(c: char) {
    IsLower(c) || IsDigit(c) || c == '_' || c == '.'
  }

  /** `FIELD_KEY_RE`: at least two segments between dots, each starting with a letter. */
  predicate IsFieldKey(s: string) {
    && s != "" && IsLower(s[0]) && '.' in s
    && forall i :: 0 <= i < |s| ==> IsKeyChar(s[i]) && (s[i] == '.' ==> i + 1 < |s| && IsLower(s[i + 1]))
  }

  predicate Declares(model: seq<Field>, key: string) {
    exists i :: 0 <= i < |model| && model[i].key == key
  }

  /** `createLongMemoryModel` accepts the fields. */
  ghost predicate ValidModel(model: seq<Field>) {
    && (forall i :: 0 <= i < |model| ==>
         IsFieldKey(model[i].key) && (model[i].kind.ListKind? ==> model[i].kind.maxItems > 0))
    && (forall i, j :: 0 <= i < j < |model| ==> model[i].key != model[j].key)
  }

  /** `model.byKey.get`. */
  function FieldOf(model: seq<Field>, key: string): (field: Field)
    requires Declares(model, key)
    ensures field in model && field.key == key
  {
    if model[0].key == key then model[0] else FieldOf(model[1..], key)
  }

  // --- lines ---

  /** The characters `.` does not match. */
  predicate EndsLine(c: char) {
    c == '\n' || c == '\r' || c == '\U{2028}' || c == '\U{2029}'
  }

  predicate OneLine(s: string) {
    forall i :: 0 <= i < |s| ==> !EndsLine(s[i])
  }

  /** Text that survives printing: trimmed, not empty, on one line. */
  predicate Clean(s: string) {
    Canonical(s) && OneLine(s)
  }

  function KeyRun(s: string): (n: nat)
    ensures n <= |s| && (n < |s| ==> !IsKeyChar(s[n]))
    ensures forall i :: 0 <= i < n ==> IsKeyChar(s[i])
  {
    if s == "" || !IsKeyChar(s[0]) then 0 else 1 + KeyRun(s[1..])
  }

  function SpaceRun(s: string): (n: nat)
    ensures n <= |s| && (n < |s| ==> !IsSpace(s[n]))
    ensures forall i :: 0 <= i < n ==> IsSpace(s[i])
  {
    if s == "" || !IsSpace(s[0]) then 0 else 1 + SpaceRun(s[1..])
  }

  datatype FieldLine = FieldLine(key: string, value: string) | NoField

  /** `DOCUMENT_FIELD_RE`, and the check of the key it finds. */
  function ReadField(line: string): FieldLine {
    var n := KeyRun(line);
    if 0 < n < |line| && line[n] == COLON && OneLine(line[n + 1..]) && IsFieldKey(line[..n])
    then FieldLine(line[..n], Trim(line[n + 1..])) else NoField
  }

  datatype ItemLine = ItemLine(number: nat, text: string) | NoItem

  /** `LIST_ITEM_RE`. */
  function ReadItem(line: string): ItemLine {
    var d := LeadingDigits(line);
    if d == 0 || d == |line| || line[d] != '.' then NoItem
    else
      var rest := line[d + 1..];
      var w := SpaceRun(rest);
      if w == 0 || w == |rest| || !OneLine(rest[w..]) then NoItem
      else ItemLine(Value(line[..d]), Trim(rest[w..]))
  }

  // --- parsing ---

  datatype Current = NoEntry | Open(key: string, value: string, items: seq<string>)

  datatype Reading = Reading(entries: seq<Entry>, current: Current)

  predicate HasEntry(entries: seq<Entry>, key: string) {
    exists i :: 0 <= i < |entries| && entries[i].key == key
  }

  /** `closeEntry`. */
  function CloseEntry(entries: seq<Entry>, current: Current): Result<seq<Entry>> {
    if current.NoEntry? then Ok(entries)
    else if (current.items != []) == (current.value != "") then Rejected
    else Ok(entries + [Entry(current.key, if current.items != [] then Items(current.items) else Text(current.value))])
  }

  /** One line of the body: blank, an item of the open entry, or a new entry. */
  function Step(r: Reading, line: string): Result<Reading> {
    if line == "" then Ok(r)
    else if r.current.Open? && ReadItem(line).ItemLine? then
      if ReadItem(line).number != |r.current.items| + 1 then Rejected
      else Ok(r.(current := r.current.(items := r.current.items + [ReadItem(line).text])))
    else
      var closed :- CloseEntry(r.entries, r.current);
      if ReadField(line).NoField? || HasEntry(closed, ReadField(line).key) then Rejected
      else Ok(Reading(closed, Open(ReadField(line).key, ReadField(line).value, [])))
  }

  function Scan(lines: seq<string>): Result<Reading> {
    if lines == [] then Ok(Reading([], NoEntry))
    else
      var before :- Scan(lines[..|lines| - 1]);
      Step(before, lines[|lines| - 1])
  }

  function ParseEntries(lines: seq<string>): Result<seq<Entry>> {
    var r :- Scan(lines);
    CloseEntry(r.entries, r.current)
  }

  /** `alignToField`. */
  function Align(kind: Kind, raw: Content): Content {
    if kind.ListKind? then (if raw.Items? then raw else Items([raw.text]))
    else if raw.Items? then Text(Join(raw.items, SEMICOLON)) else raw
  }

  /** Entries go to the fields of the model, the others stay as they are. */
  function Distribute(model: seq<Field>, entries: seq<Entry>): State {
    if entries == [] then State(map[], [])
    else
      var before, e := Distribute(model, entries[..|entries| - 1]), entries[|entries| - 1];
      if Declares(model, e.key) then
        before.(values := before.values[e.key := Align(FieldOf(model, e.key).kind, e.content)])
      else before.(orphans := before.orphans + [e])
  }

  /** `splitLines`. */
  function TrimmedLines(text: string): seq<string> {
    var pieces := Split(NormalizeNewlines(text), '\n');
    seq(|pieces|, i requires 0 <= i < |pieces| => Trim(pieces[i]))
  }

  function Parse(model: seq<Field>, text: string): Result<State> {
    var body :- ReadBody(HEADER, text);
    var entries :- ParseEntries(TrimmedLines(body));
    Ok(Distribute(model, entries))
  }

  /** `parseLongMemoryDocumentState`. */
  method ParseLongMemoryDocumentState(model: seq<Field>, text: string) returns (result: Result<State>)
    ensures result == Parse(model, text)
  {
    var body :- ReadBody(HEADER, text);
    var lines := TrimmedLines(body);
    var entries: seq<Entry>, current := [], NoEntry;
    for i := 0 to |lines|
      invariant Scan(lines[..i]) == Ok(Reading(entries, current))
    {
      var line := lines[i];
      OneLineMore(lines, i);
      if line == "" {
        continue;
      }
      if current.Open? && ReadItem(line).ItemLine? {
        var item := ReadItem(line);
        if item.number != |current.items| + 1 {
          ScanStaysRejected(lines, i + 1);
          return Rejected;
        }
        current := current.(items := current.items + [item.text]);
        continue;
      }
      var closed := CloseEntry(entries, current);
      var field := ReadField(line);
      if closed.Rejected? || field.NoField? || HasEntry(closed.value, field.key) {
        ScanStaysRejected(lines, i + 1);
        return Rejected;
      }
      entries, current := closed.value, Open(field.key, field.value, []);
    }
    assert lines[..|lines|] == lines;
    entries :- CloseEntry(entries, current);
    result := Ok(Distribute(model, entries));
  }

  lemma OneLineMore(lines: seq<string>, i: nat)
    requires i < |lines| && Scan(lines[..i]).Ok?
    ensures Scan(lines[..i + 1]) == Step(Scan(lines[..i]).value, lines[i])
  {
    assert lines[..i + 1][..i] == lines[..i];
  }

  /** A line that is rejected spoils the whole. */
  lemma {:induction false} ScanStaysRejected(lines: seq<string>, i: nat)
    requires i <= |lines| && Scan(lines[..i]).Rejected?
    ensures Scan(lines).Rejected?
    decreases |lines| - i
  {
    if i < |lines| {
      assert lines[..i + 1][..i] == lines[..i];
      ScanStaysRejected(lines, i + 1);
    } else {
      assert lines[..i] == lines;
    }
  }

  // --- printing ---

  function ItemLines(items: seq<string>): seq<string> {
    if items == [] then [] else ItemLines(items[..|items| - 1]) + [Digits(|items|) + ". " + items[|items| - 1]]
  }

  function EntryLines(e: Entry): (lines: seq<string>)
    ensures lines != []
  {
    match e.content
    case Text(text) => [e.key + [COLON] + text]
    case Items(items) => [e.key + [COLON]] + ItemLines(items)
  }

  /** `renderEntry`. */
  function RenderEntry(e: Entry): string {
    Join(EntryLines(e), "\n")
  }

  /** The entries printed: the model's fields that have a value, then the orphans. */
  function FieldEntries(model: seq<Field>, values: map<string, Content>): seq<Entry> {
    if model == [] then []
    else
      var before, key := FieldEntries(model[..|model| - 1], values), model[|model| - 1].key;
      if key in values then before + [Entry(key, values[key])] else before
  }

  function OrphanEntries(model: seq<Field>, orphans: seq<Entry>): seq<Entry> {
    if orphans == [] then []
    else
      var before, e := OrphanEntries(model, orphans[..|orphans| - 1]), orphans[|orphans| - 1];
      if Declares(model, e.key) then before else before + [e]
  }

  function Blocks(entries: seq<Entry>): (blocks: seq<string>)
    ensures |blocks| == |entries|
  {
    if entries == [] then [] else Blocks(entries[..|entries| - 1]) + [RenderEntry(entries[|entries| - 1])]
  }

  function Printed(model: seq<Field>, state: State): seq<Entry> {
    FieldEntries(model, state.values) + OrphanEntries(model, state.orphans)
  }

  /** `renderLongMemoryBody`. */
  function RenderBody(model: seq<Field>, state: State): string {
    Join(Blocks(Printed(model, state)), "\n\n")
  }

  /** `renderLongMemoryDocument`. */
  function Render(model: seq<Field>, state: State): string {
    RenderDocument(HEADER, RenderBody(model, state))
  }
}
