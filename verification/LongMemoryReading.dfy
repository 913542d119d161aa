/** What the long-memory parser accepts, said without its state: the lines that are not blank fall
    into one block per entry. */
module LongMemoryReading {
  import opened Decimal
  import opened Lines
  import opened Outcome
  import opened Text
  import opened LongMemory
  import opened LongMemoryRoundTrip

  /** A field line, then its items numbered from one. */
  ghost predicate OpenBlock(lines: seq<string>, c: Current) {
    && c.Open? && |lines| == |c.items| + 1 && ReadField(lines[0]) == FieldLine(c.key, c.value)
    && forall i :: 0 <= i < |c.items| ==> ItemAt(lines, c.items, i)
  }

  predicate ItemAt(lines: seq<string>, items: seq<string>, i: nat)
    requires i < |items| && i + 1 < |lines|
  {
    IsItem(lines[i + 1], i + 1, items[i])
  }

  predicate IsItem(line: string, number: nat, item: string) {
    ReadItem(line) == ItemLine(number, item)
  }

  predicate HasContent(content: Content) {
    if content.Items? then content.items != [] else content.text != ""
  }

  /** The block of an entry: a text on the field line, or items below it, never both or neither. */
  ghost predicate BlockOf(lines: seq<string>, e: Entry) {
    HasContent(e.content) && OpenBlock(lines, OpenOf(e))
  }

  /** Blocks follow one another, no key twice. */
  ghost predicate ReadsAs(lines: seq<string>, entries: seq<Entry>)
    decreases |entries|
  {
    if entries == [] then lines == []
    else exists cut: nat :: cut <= |lines| && LastBlock(lines, entries, cut)
  }

  ghost predicate LastBlock(lines: seq<string>, entries: seq<Entry>, cut: nat)
    requires entries != [] && cut <= |lines|
    decreases |entries|, 0
  {
    var n := |entries| - 1;
    ReadsAs(lines[..cut], entries[..n]) && BlockOf(lines[cut..], entries[n]) && !HasEntry(entries[..n], entries[n].key)
  }

  /** The state a scan is in, read off the lines. */
  ghost predicate Reached(lines: seq<string>, r: Reading) {
    if r.current.NoEntry? then lines == [] && r.entries == []
    else exists cut: nat :: cut <= |lines| && OpenAt(lines, r, cut)
  }

  ghost predicate OpenAt(lines: seq<string>, r: Reading, cut: nat)
    requires r.current.Open? && cut <= |lines|
  {
    ReadsAs(lines[..cut], r.entries) && OpenBlock(lines[cut..], r.current) && !HasEntry(r.entries, r.current.key)
  }

  // --- the patterns ---

  /** A field key, the colon, and the rest of the line. */
  ghost predicate IsFieldLine(line: string, key: string, value: string) {
    IsFieldKey(key) && exists raw :: FieldLineWith(line, key, value, raw)
  }

  predicate FieldLineWith(line: string, key: string, value: string, raw: string) {
    line == key + ([COLON] + raw) && OneLine(raw) && value == Trim(raw)
  }

  lemma SplitAt(line: string, n: nat)
    requires n < |line|
    ensures line == line[..n] + ([line[n]] + line[n + 1..])
  {
  }

  lemma FieldIsRead(line: string, key: string, value: string, raw: string)
    requires IsFieldKey(key) && FieldLineWith(line, key, value, raw)
    ensures ReadField(line) == FieldLine(key, value)
  {
    KeyRunIs(key, [COLON] + raw);
    assert line[..|key|] == key && line[|key| + 1..] == raw;
  }

  lemma ReadFieldIff(line: string, key: string, value: string)
    ensures ReadField(line) == FieldLine(key, value) <==> IsFieldLine(line, key, value)
  {
    if ReadField(line) == FieldLine(key, value) {
      SplitAt(line, KeyRun(line));
      assert FieldLineWith(line, key, value, line[KeyRun(line) + 1..]);
    }
    if IsFieldLine(line, key, value) {
      var raw :| FieldLineWith(line, key, value, raw);
      FieldIsRead(line, key, value, raw);
    }
  }

  /** Digits, a dot, whitespace, and a text that starts with none. */
  ghost predicate IsItemLine(line: string, number: nat, item: string) {
    exists digits: string, gap: string, raw: string :: ItemLineWith(line, number, item, digits, gap, raw)
  }

  predicate ItemLineWith(line: string, number: nat, item: string, digits: string, gap: string, raw: string) {
    && digits != "" && AllDigits(digits) && Value(digits) == number && gap != "" && AllSpace(gap)
    && raw != "" && !IsSpace(raw[0]) && OneLine(raw) && item == Trim(raw) && line == digits + ("." + (gap + raw))
  }

  lemma {:induction false} SpaceRunIs(gap: string, raw: string)
    requires AllSpace(gap) && raw != "" && !IsSpace(raw[0])
    ensures SpaceRun(gap + raw) == |gap|
  {
    if gap == "" {
      assert gap + raw == raw;
    } else {
      SpaceRunIs(gap[1..], raw);
      assert (gap + raw)[1..] == gap[1..] + raw;
    }
  }

  lemma Three(line: string, d: nat, w: nat)
    requires d < |line| && d + 1 + w <= |line|
    ensures line == line[..d] + ([line[d]] + (line[d + 1..][..w] + line[d + 1..][w..]))
  {
  }

  lemma ItemIsRead(line: string, number: nat, item: string, digits: string, gap: string, raw: string)
    requires ItemLineWith(line, number, item, digits, gap, raw)
    ensures IsItem(line, number, item)
  {
    AfterDigits(digits, gap + raw);
    SpaceRunIs(gap, raw);
    assert (gap + raw)[|gap|..] == raw;
  }

  lemma ReadIsItem(line: string, number: nat, item: string)
    requires IsItem(line, number, item)
    ensures IsItemLine(line, number, item)
  {
    var d := LeadingDigits(line);
    var rest := line[d + 1..];
    var w := SpaceRun(rest);
    var digits, gap, raw := line[..d], rest[..w], rest[w..];
    Three(line, d, w);
    SpacesAre(rest);
    ItemWith(line, number, item, digits, gap, raw);
  }

  lemma SpacesAre(s: string)
    ensures AllSpace(s[..SpaceRun(s)])
  {
  }

  lemma ItemWith(line: string, number: nat, item: string, digits: string, gap: string, raw: string)
    requires ItemLineWith(line, number, item, digits, gap, raw)
    ensures IsItemLine(line, number, item)
  {
  }

  lemma ReadItemIff(line: string, number: nat, item: string)
    ensures IsItem(line, number, item) <==> IsItemLine(line, number, item)
  {
    if IsItem(line, number, item) {
      ReadIsItem(line, number, item);
    }
    if IsItemLine(line, number, item) {
      var digits: string, gap: string, raw: string :| ItemLineWith(line, number, item, digits, gap, raw);
      ItemIsRead(line, number, item, digits, gap, raw);
    }
  }

  // --- the scan and its lines ---

  lemma {:induction false} ScanSkipsBlanks(lines: seq<string>)
    ensures Scan(NonEmpty(lines)) == Scan(lines)
  {
    if lines != [] {
      var n := |lines| - 1;
      var before := NonEmpty(lines[..n]);
      ScanSkipsBlanks(lines[..n]);
      assert (before + [lines[n]])[..|before|] == before;
    }
  }

  /** A field line is no item line: it starts with a letter. */
  lemma FieldIsNoItem(line: string)
    requires ReadField(line).FieldLine?
    ensures ReadItem(line).NoItem? && line != ""
  {
    var n := KeyRun(line);
    assert line[..n][0] == line[0] && IsLower(line[0]);
  }

  lemma ItemIsNoBlank(line: string)
    requires ReadItem(line).ItemLine?
    ensures line != ""
  {
  }

  /** Closing the open block makes it the last entry. */
  lemma ClosesBlock(lines: seq<string>, r: Reading)
    requires Reached(lines, r) && CloseEntry(r.entries, r.current).Ok?
    ensures ReadsAs(lines, CloseEntry(r.entries, r.current).value)
  {
    if r.current.Open? {
      var cut: nat :| cut <= |lines| && OpenAt(lines, r, cut);
      var entries := CloseEntry(r.entries, r.current).value;
      var n := |entries| - 1;
      assert entries[..n] == r.entries;
      assert OpenOf(entries[n]) == r.current;
      assert LastBlock(lines, entries, cut);
    }
  }

  lemma ItemExtends(lines: seq<string>, r: Reading, line: string)
    requires Reached(lines, r) && r.current.Open? && ReadItem(line).ItemLine?
    requires ReadItem(line).number == |r.current.items| + 1
    ensures Reached(lines + [line], r.(current := r.current.(items := r.current.items + [ReadItem(line).text])))
  {
    var cut: nat :| cut <= |lines| && OpenAt(lines, r, cut);
    var r' := r.(current := r.current.(items := r.current.items + [ReadItem(line).text]));
    CutAppend(lines, line, cut);
    BlockGrows(lines[cut..], r.current, line);
    assert OpenAt(lines + [line], r', cut);
  }

  lemma CutAppend(lines: seq<string>, line: string, cut: nat)
    requires cut <= |lines|
    ensures (lines + [line])[..cut] == lines[..cut] && (lines + [line])[cut..] == lines[cut..] + [line]
  {
  }

  lemma BlockGrows(block: seq<string>, c: Current, line: string)
    requires OpenBlock(block, c) && ReadItem(line).ItemLine? && ReadItem(line).number == |c.items| + 1
    ensures OpenBlock(block + [line], c.(items := c.items + [ReadItem(line).text]))
  {
    var longer, items := block + [line], c.items + [ReadItem(line).text];
    forall i | 0 <= i < |items| ensures ItemAt(longer, items, i) {
      if i < |c.items| {
        assert ItemAt(block, c.items, i) && longer[i + 1] == block[i + 1];
      }
    }
  }

  lemma FieldOpens(lines: seq<string>, r: Reading, line: string)
    requires Reached(lines, r) && CloseEntry(r.entries, r.current).Ok? && ReadField(line).FieldLine?
    requires !HasEntry(CloseEntry(r.entries, r.current).value, ReadField(line).key)
    ensures Reached(lines + [line], Reading(CloseEntry(r.entries, r.current).value,
                                            Open(ReadField(line).key, ReadField(line).value, [])))
  {
    ClosesBlock(lines, r);
    var longer, closed := lines + [line], CloseEntry(r.entries, r.current).value;
    assert longer[..|lines|] == lines && longer[|lines|..] == [line];
    assert OpenAt(longer, Reading(closed, Open(ReadField(line).key, ReadField(line).value, [])), |lines|);
  }

  /** Whatever is scanned has been read in blocks. */
  lemma {:induction false} ScanReaches(lines: seq<string>)
    requires Scan(lines).Ok? && forall i :: 0 <= i < |lines| ==> lines[i] != ""
    ensures Reached(lines, Scan(lines).value)
  {
    if lines != [] {
      var before, line := lines[..|lines| - 1], lines[|lines| - 1];
      ScanReaches(before);
      InitLast(lines);
      var r := Scan(before).value;
      if r.current.Open? && ReadItem(line).ItemLine? {
        ItemExtends(before, r, line);
      } else {
        FieldOpens(before, r, line);
      }
    }
  }

  // --- and back ---

  /** The items of a block, read one by one. */
  lemma {:induction false} BlockIsScanned(lines: seq<string>, block: seq<string>, r: Reading, c: Current)
    requires Scan(lines) == Ok(r) && CloseEntry(r.entries, r.current).Ok? && OpenBlock(block, c)
    requires !HasEntry(CloseEntry(r.entries, r.current).value, c.key)
    ensures Scan(lines + block) == Ok(Reading(CloseEntry(r.entries, r.current).value, c))
    decreases |block|
  {
    var closed := CloseEntry(r.entries, r.current).value;
    var n := |block| - 1;
    if n == 0 {
      FieldIsNoItem(block[0]);
      ScanAppend(lines, block[0]);
      assert [block[0]] == block && c == Open(c.key, c.value, []);
    } else {
      var shorter := c.(items := c.items[..n - 1]);
      ShorterBlock(block, c);
      BlockIsScanned(lines, block[..n], r, shorter);
      assert ItemAt(block, c.items, n - 1);
      ItemIsNoBlank(block[n]);
      ScanAppend(lines + block[..n], block[n]);
      InitLast(block);
      InitLast(c.items);
      Regroup(lines, block[..n], [block[n]]);
    }
  }

  lemma ShorterBlock(block: seq<string>, c: Current)
    requires OpenBlock(block, c) && |block| > 1
    ensures OpenBlock(block[..|block| - 1], c.(items := c.items[..|c.items| - 1]))
  {
    var shorter, items := block[..|block| - 1], c.items[..|c.items| - 1];
    forall i | 0 <= i < |items| ensures ItemAt(shorter, items, i) {
      assert ItemAt(block, c.items, i);
    }
  }

  lemma {:induction false} BlocksAreParsed(lines: seq<string>, entries: seq<Entry>)
    requires ReadsAs(lines, entries)
    ensures ParseEntries(lines) == Ok(entries)
    decreases |entries|
  {
    if entries != [] {
      var cut: nat :| cut <= |lines| && LastBlock(lines, entries, cut);
      var n := |entries| - 1;
      BlocksAreParsed(lines[..cut], entries[..n]);
      BlockIsScanned(lines[..cut], lines[cut..], Scan(lines[..cut]).value, OpenOf(entries[n]));
      assert lines[..cut] + lines[cut..] == lines;
      InitLast(entries);
    }
  }

  lemma {:induction false} NonEmptyHasNone(lines: seq<string>)
    ensures forall i :: 0 <= i < |NonEmpty(lines)| ==> NonEmpty(lines)[i] != ""
  {
    if lines != [] {
      NonEmptyHasNone(lines[..|lines| - 1]);
    }
  }

  /** The parser accepts exactly the bodies whose lines, blank ones aside, fall into one block per
      entry, and yields these entries: items numbered from one in order, a text or items but not
      both, no key twice, and nothing before the first field. */
  lemma ParsesIff(lines: seq<string>, entries: seq<Entry>)
    ensures ParseEntries(lines) == Ok(entries) <==> ReadsAs(NonEmpty(lines), entries)
  {
    ScanSkipsBlanks(lines);
    NonEmptyHasNone(lines);
    if ParseEntries(lines) == Ok(entries) {
      ScanReaches(NonEmpty(lines));
      ClosesBlock(NonEmpty(lines), Scan(NonEmpty(lines)).value);
    }
    if ReadsAs(NonEmpty(lines), entries) {
      BlocksAreParsed(NonEmpty(lines), entries);
    }
  }

  // --- what becomes of the entries ---

  /** A field of the model gets an entry's content in its own kind: a list takes a single text as its
      one item, a single field all items of a list, joined by the separator. */
  predicate GoesTo(kind: Kind, raw: Content, value: Content) {
    if kind.ListKind? then value.Items? && value.items == if raw.Items? then raw.items else [raw.text]
    else value.Text? && value.text == if raw.Items? then Join(raw.items, SEMICOLON) else raw.text
  }

  /** No item is lost in that: joined items that hold no separator come back when cut at it. */
  lemma JoinedItemsComeBack(model: seq<Field>, items: seq<string>, value: Content)
    requires items != [] && forall item :: item in items ==> SEMICOLON[0] !in item
    requires GoesTo(SingleKind, Items(items), value)
    ensures Split(value.text, SEMICOLON[0]) == items
  {
    SplitJoin(items, SEMICOLON[0]);
    assert [SEMICOLON[0]] == SEMICOLON;
  }

  predicate DistinctKeys(entries: seq<Entry>) {
    forall i, j :: 0 <= i < j < |entries| ==> entries[i].key != entries[j].key
  }

  /** The entries of declared fields are the values. */
  ghost predicate ValuesAre(model: seq<Field>, entries: seq<Entry>, values: map<string, Content>) {
    && (forall key :: key in values <==> Declares(model, key) && HasEntry(entries, key))
    && (forall i :: 0 <= i < |entries| ==> ValueAt(model, entries, values, i))
  }

  ghost predicate ValueAt(model: seq<Field>, entries: seq<Entry>, values: map<string, Content>, i: nat)
    requires i < |entries|
  {
    Declares(model, entries[i].key) ==>
      && entries[i].key in values
      && GoesTo(FieldOf(model, entries[i].key).kind, entries[i].content, values[entries[i].key])
  }

  /** The other entries are the orphans, as they are and in order. */
  ghost predicate OrphansAre(model: seq<Field>, entries: seq<Entry>, orphans: seq<Entry>, at: seq<nat>) {
    && |orphans| == |at|
    && (forall k :: 0 <= k < |at| ==> at[k] < |entries| && orphans[k] == entries[at[k]])
    && (forall k, l :: 0 <= k < l < |at| ==> at[k] < at[l])
    && (forall i :: 0 <= i < |entries| ==> (i in at <==> !Declares(model, entries[i].key)))
  }

  lemma HasEntryAppend(before: seq<Entry>, e: Entry, key: string)
    ensures HasEntry(before + [e], key) <==> HasEntry(before, key) || key == e.key
  {
    var entries := before + [e];
    assert entries[|before|] == e && forall i :: 0 <= i < |before| ==> entries[i] == before[i];
  }

  lemma ValuesOneMore(model: seq<Field>, before: seq<Entry>, e: Entry, values: map<string, Content>, value: Content)
    requires DistinctKeys(before + [e]) && ValuesAre(model, before, values)
    requires Declares(model, e.key) ==> GoesTo(FieldOf(model, e.key).kind, e.content, value)
    ensures ValuesAre(model, before + [e], if Declares(model, e.key) then values[e.key := value] else values)
  {
    var entries := before + [e];
    var after := if Declares(model, e.key) then values[e.key := value] else values;
    forall key ensures key in after <==> Declares(model, key) && HasEntry(entries, key) {
      HasEntryAppend(before, e, key);
    }
    forall i | 0 <= i < |entries| ensures ValueAt(model, entries, after, i) {
      if i < |before| {
        assert entries[i] == before[i] && ValueAt(model, before, values, i);
        assert entries[|before|] == e;
      }
    }
  }

  lemma OrphansOneMore(model: seq<Field>, before: seq<Entry>, e: Entry, orphans: seq<Entry>, at: seq<nat>)
    requires OrphansAre(model, before, orphans, at)
    ensures if Declares(model, e.key) then OrphansAre(model, before + [e], orphans, at)
            else OrphansAre(model, before + [e], orphans + [e], at + [|before|])
  {
    var entries := before + [e];
    assert entries[|before|] == e && forall i :: 0 <= i < |before| ==> entries[i] == before[i];
    assert forall i :: i in at + [|before|] <==> i in at || i == |before|;
  }

  /** Every entry goes to its field, or to the orphans if the model has none. */
  lemma {:induction false} DistributeIs(model: seq<Field>, entries: seq<Entry>) returns (at: seq<nat>)
    requires DistinctKeys(entries)
    ensures ValuesAre(model, entries, Distribute(model, entries).values)
    ensures OrphansAre(model, entries, Distribute(model, entries).orphans, at)
  {
    at := [];
    if entries != [] {
      var n := |entries| - 1;
      var before, e := entries[..n], entries[n];
      at := DistributeIs(model, before);
      assert entries == before + [e];
      var value := if Declares(model, e.key) then Align(FieldOf(model, e.key).kind, e.content) else e.content;
      ValuesOneMore(model, before, e, Distribute(model, before).values, value);
      OrphansOneMore(model, before, e, Distribute(model, before).orphans, at);
      at := if Declares(model, e.key) then at else at + [n];
    }
  }
}
