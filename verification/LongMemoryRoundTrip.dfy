/** Printing and parsing the long-memory document undo each other. */
module LongMemoryRoundTrip {
  import opened Decimal
  import opened Lines
  import opened Outcome
  import opened Text
  import opened MemoryDocument
  import opened LongMemory

  // --- states that survive ---

  predicate AllClean(items: seq<string>) {
    forall i {:trigger Clean(items[i])} :: 0 <= i < |items| ==> Clean(items[i])
  }

  predicate CleanContent(content: Content) {
    match content
    case Text(text) => Clean(text)
    case Items(items) => items != [] && AllClean(items)
  }

  predicate GoodEntry(e: Entry) {
    IsFieldKey(e.key) && CleanContent(e.content)
  }

  ghost predicate GoodEntries(entries: seq<Entry>) {
    && (forall i {:trigger GoodEntry(entries[i])} :: 0 <= i < |entries| ==> GoodEntry(entries[i]))
    && (forall i, j :: 0 <= i < j < |entries| ==> entries[i].key != entries[j].key)
  }

  predicate Fits(kind: Kind, content: Content) {
    kind.ListKind? == content.Items?
  }

  predicate GoodValue(model: seq<Field>, key: string, content: Content) {
    Declares(model, key) && Fits(FieldOf(model, key).kind, content) && CleanContent(content)
  }

  /** Values of the model's own fields, of the right kind, with clean texts and no empty list;
      orphans of valid other keys, each once. */
  ghost predicate WellFormed(model: seq<Field>, s: State) {
    && (forall key :: key in s.values ==> GoodValue(model, key, s.values[key]))
    && GoodEntries(s.orphans)
    && forall i :: 0 <= i < |s.orphans| ==> !Declares(model, s.orphans[i].key)
  }

  // --- one line ---

  lemma {:induction false} KeyRunIs(key: string, rest: string)
    requires (forall i :: 0 <= i < |key| ==> IsKeyChar(key[i])) && (rest == "" || !IsKeyChar(rest[0]))
    ensures KeyRun(key + rest) == |key|
  {
    if key == "" {
      assert key + rest == rest;
    } else {
      KeyRunIs(key[1..], rest);
      assert (key + rest)[1..] == key[1..] + rest;
    }
  }

  /** A line that is trimmed and ends no line: what the parser sees of it is itself. */
  predicate Printable(line: string) {
    Trimmed(line) && OneLine(line)
  }

  lemma ClosesPrintable(front: string, text: string)
    requires Printable(front) && front != "" && (text == "" || Clean(text))
    ensures Printable(front + text) && front + text != ""
  {
    var line := front + text;
    assert line[0] == front[0] && line[|line| - 1] == if text == "" then front[|front| - 1] else text[|text| - 1];
  }

  lemma FieldHead(key: string)
    requires IsFieldKey(key)
    ensures Printable(key + [COLON]) && LeadingDigits(key) == 0
  {
    assert forall i :: 0 <= i < |key| ==> IsKeyChar(key[i]);
  }

  /** A printed field line, with a text or with none, is read as that field. */
  lemma FieldLineIsRead(key: string, text: string)
    requires IsFieldKey(key) && (text == "" || Clean(text))
    ensures var line := key + [COLON] + text;
            Printable(line) && line != "" && ReadItem(line).NoItem? && ReadField(line) == FieldLine(key, text)
  {
    var line := key + [COLON] + text;
    FieldHead(key);
    ClosesPrintable(key + [COLON], text);
    assert line == key + ([COLON] + text) && line[0] == key[0];
    KeyRunIs(key, [COLON] + text);
    TrimFixesTrimmed(text);
    assert line[..|key|] == key && line[|key| + 1..] == text;
  }

  lemma AfterDigits(digits: string, rest: string)
    requires AllDigits(digits)
    ensures var line := digits + ("." + rest);
            && LeadingDigits(line) == |digits| < |line| && line[|digits|] == '.'
            && line[..|digits|] == digits && line[|digits| + 1..] == rest
  {
    DigitsRun(digits, "." + rest);
  }

  lemma AfterSpace(text: string)
    requires Clean(text)
    ensures SpaceRun(" " + text) == 1 && (" " + text)[1..] == text
  {
    assert (" " + text)[1..] == text;
  }

  lemma DotSpace(digits: string, text: string)
    ensures digits + ". " + text == digits + ("." + (" " + text))
  {
  }

  /** A printed item line is read as that item. */
  lemma ItemLineIsRead(n: nat, text: string)
    requires Clean(text)
    ensures ReadItem(Digits(n) + ". " + text) == ItemLine(n, text)
    ensures Printable(Digits(n) + ". " + text) && Digits(n) + ". " + text != ""
  {
    var digits := Digits(n);
    AfterDigits(digits, " " + text);
    AfterSpace(text);
    TrimFixesTrimmed(text);
    DotSpace(digits, text);
    ItemIsPrintable(digits, text);
  }

  lemma ItemIsPrintable(digits: string, text: string)
    requires AllDigits(digits) && digits != "" && Clean(text)
    ensures Printable(digits + ". " + text)
  {
    var line := digits + ". " + text;
    assert IsDigit(digits[0]) && line[0] == digits[0] && line[|line| - 1] == text[|text| - 1];
    forall i | 0 <= i < |line| ensures !EndsLine(line[i]) {
      if i < |digits| {
        assert line[i] == digits[i] && IsDigit(digits[i]);
      } else if i >= |digits| + 2 {
        assert line[i] == text[i - |digits| - 2];
      }
    }
  }

  // --- one entry ---

  ghost predicate AllPrintable(lines: seq<string>) {
    forall i {:trigger Printable(lines[i])} :: 0 <= i < |lines| ==> Printable(lines[i])
  }

  /** The open entry after all its lines. */
  function OpenOf(e: Entry): Current {
    if e.content.Items? then Open(e.key, "", e.content.items) else Open(e.key, e.content.text, [])
  }

  lemma ClosesAsRead(entries: seq<Entry>, e: Entry)
    requires GoodEntry(e)
    ensures CloseEntry(entries, OpenOf(e)) == Ok(entries + [e])
  {
  }

  lemma ScanAppend(lines: seq<string>, line: string)
    requires Scan(lines).Ok?
    ensures Scan(lines + [line]) == Step(Scan(lines).value, line)
  {
    assert (lines + [line])[..|lines|] == lines;
  }

  /** An item line adds its item to the open entry. */
  lemma ItemAdds(lines: seq<string>, r: Reading, item: string)
    requires Scan(lines) == Ok(r) && r.current.Open? && Clean(item)
    ensures Scan(lines + [Digits(|r.current.items| + 1) + ". " + item])
         == Ok(r.(current := r.current.(items := r.current.items + [item])))
  {
    ItemLineIsRead(|r.current.items| + 1, item);
    ScanAppend(lines, Digits(|r.current.items| + 1) + ". " + item);
  }

  /** Item after item. */
  lemma {:induction false} ItemsAreRead(lines: seq<string>, r: Reading, items: seq<string>)
    requires Scan(lines) == Ok(r) && r.current.Open? && r.current.items == []
    requires AllClean(items)
    ensures Scan(lines + ItemLines(items)) == Ok(r.(current := r.current.(items := items)))
  {
    if items == [] {
      NoMore(lines);
      assert r.(current := r.current.(items := items)) == r;
    } else {
      var n := |items| - 1;
      var front := ItemLines(items[..n]);
      ItemsAreRead(lines, r, items[..n]);
      ItemAdds(lines + front, r.(current := r.current.(items := items[..n])), items[n]);
      Regroup(lines, front, [Digits(n + 1) + ". " + items[n]]);
      InitLast(items);
    }
  }

  /** A field line closes the entry before and opens its own. */
  lemma FieldLineOpens(lines: seq<string>, r: Reading, closed: seq<Entry>, key: string, text: string)
    requires Scan(lines) == Ok(r) && CloseEntry(r.entries, r.current) == Ok(closed) && !HasEntry(closed, key)
    requires IsFieldKey(key) && (text == "" || Clean(text))
    ensures Scan(lines + [key + [COLON] + text]) == Ok(Reading(closed, Open(key, text, [])))
  {
    FieldLineIsRead(key, text);
    ScanAppend(lines, key + [COLON] + text);
  }

  /** The lines of an entry close the entry before and leave it open. */
  lemma EntryIsRead(lines: seq<string>, r: Reading, closed: seq<Entry>, e: Entry)
    requires Scan(lines) == Ok(r) && CloseEntry(r.entries, r.current) == Ok(closed)
    requires GoodEntry(e) && !HasEntry(closed, e.key)
    ensures Scan(lines + EntryLines(e)) == Ok(Reading(closed, OpenOf(e)))
  {
    if e.content.Items? {
      ListIsRead(lines, r, closed, e.key, e.content.items);
    } else {
      FieldLineOpens(lines, r, closed, e.key, e.content.text);
    }
  }

  lemma NothingAfter(s: string)
    ensures s + "" == s
  {
  }

  lemma ListIsRead(lines: seq<string>, r: Reading, closed: seq<Entry>, key: string, items: seq<string>)
    requires Scan(lines) == Ok(r) && CloseEntry(r.entries, r.current) == Ok(closed) && !HasEntry(closed, key)
    requires IsFieldKey(key) && AllClean(items)
    ensures Scan(lines + ([key + [COLON]] + ItemLines(items))) == Ok(Reading(closed, Open(key, "", items)))
  {
    FieldLineOpens(lines, r, closed, key, "");
    NothingAfter(key + [COLON]);
    ItemsAreRead(lines + [key + [COLON]], Reading(closed, Open(key, "", [])), items);
    Regroup(lines, [key + [COLON]], ItemLines(items));
  }

  lemma PrintableAppend(a: seq<string>, b: seq<string>)
    requires AllPrintable(a) && AllPrintable(b)
    ensures AllPrintable(a + b)
  {
    forall i | 0 <= i < |a + b| ensures Printable((a + b)[i]) {
      assert i < |a| ==> Printable(a[i]);
      assert i >= |a| ==> Printable(b[i - |a|]);
    }
  }

  lemma PrintableSnoc(lines: seq<string>, line: string)
    requires AllPrintable(lines) && Printable(line)
    ensures AllPrintable(lines + [line])
  {
    forall i | 0 <= i <= |lines| ensures Printable((lines + [line])[i]) {
      assert i < |lines| ==> Printable(lines[i]);
    }
  }

  lemma {:induction false} ItemsArePrintable(items: seq<string>)
    requires AllClean(items)
    ensures AllPrintable(ItemLines(items))
  {
    if items != [] {
      var n := |items| - 1;
      ItemsArePrintable(items[..n]);
      ItemLineIsRead(n + 1, items[n]);
      PrintableSnoc(ItemLines(items[..n]), Digits(n + 1) + ". " + items[n]);
    }
  }

  lemma EntryIsPrintable(e: Entry)
    requires GoodEntry(e)
    ensures AllPrintable(EntryLines(e))
  {
    if e.content.Items? {
      FieldHead(e.key);
      ItemsArePrintable(e.content.items);
      PrintableAppend([e.key + [COLON]], ItemLines(e.content.items));
    } else {
      FieldLineIsRead(e.key, e.content.text);
    }
  }

  // --- all entries ---

  /** The lines of all entries, a blank line before each but the first. */
  function AllLines(entries: seq<Entry>): (lines: seq<string>)
    ensures entries != [] ==> lines != []
  {
    if entries == [] then []
    else if |entries| == 1 then EntryLines(entries[0])
    else AllLines(entries[..|entries| - 1]) + [""] + EntryLines(entries[|entries| - 1])
  }

  lemma InitIsGood(entries: seq<Entry>)
    requires GoodEntries(entries) && entries != []
    ensures GoodEntries(entries[..|entries| - 1]) && GoodEntry(entries[|entries| - 1])
    ensures !HasEntry(entries[..|entries| - 1], entries[|entries| - 1].key)
  {
    var init := entries[..|entries| - 1];
    forall i | 0 <= i < |init| ensures GoodEntry(init[i]) {
      assert GoodEntry(entries[i]);
    }
    assert GoodEntry(entries[|entries| - 1]);
  }

  lemma {:induction false} EntriesAreRead(entries: seq<Entry>)
    requires GoodEntries(entries) && entries != []
    ensures Scan(AllLines(entries)) == Ok(Reading(entries[..|entries| - 1], OpenOf(entries[|entries| - 1])))
  {
    var n := |entries| - 1;
    var init, e := entries[..n], entries[n];
    InitIsGood(entries);
    if n == 0 {
      EntryIsRead([], Reading([], NoEntry), [], e);
      assert [] + EntryLines(e) == AllLines(entries);
    } else {
      EntriesAreRead(init);
      InitIsGood(init);
      var lines, r := AllLines(init), Reading(init[..n - 1], OpenOf(init[n - 1]));
      ClosesAsRead(init[..n - 1], init[n - 1]);
      assert init[..n - 1] + [init[n - 1]] == init;
      ScanAppend(lines, "");
      EntryIsRead(lines + [""], r, init, e);
    }
  }

  lemma {:induction false} AllArePrintable(entries: seq<Entry>)
    requires GoodEntries(entries)
    ensures AllPrintable(AllLines(entries))
  {
    if entries != [] {
      var n := |entries| - 1;
      InitIsGood(entries);
      EntryIsPrintable(entries[n]);
      if n > 0 {
        AllArePrintable(entries[..n]);
        PrintableAppend(AllLines(entries[..n]), [""]);
        PrintableAppend(AllLines(entries[..n]) + [""], EntryLines(entries[n]));
      }
    }
  }

  /** The body is those lines, joined. */
  lemma {:induction false} BodyIsLines(entries: seq<Entry>)
    requires entries != []
    ensures Join(Blocks(entries), "\n\n") == Join(AllLines(entries), "\n")
  {
    var n := |entries| - 1;
    if n > 0 {
      var lines, e := AllLines(entries[..n]), entries[n];
      BodyIsLines(entries[..n]);
      JoinAppend(Blocks(entries[..n]), RenderEntry(e), "\n\n");
      JoinAppend(lines, "", "\n");
      JoinConcat(lines + [""], EntryLines(e), "\n");
      BlankBetween(Join(lines, "\n"), RenderEntry(e));
    } else {
      assert Blocks(entries[..0]) == [];
    }
  }

  lemma BlankBetween(a: string, b: string)
    ensures a + "\n\n" + b == a + "\n" + "" + "\n" + b
  {
  }

  /** Printable lines, joined, are cut into the same lines again. */
  lemma LinesComeBack(lines: seq<string>)
    requires lines != [] && AllPrintable(lines)
    ensures TrimmedLines(Join(lines, "\n")) == lines && '\r' !in Join(lines, "\n")
  {
    forall line | line in lines ensures '\n' !in line && '\r' !in line && Trim(line) == line {
      var i :| 0 <= i < |lines| && lines[i] == line;
      assert Printable(lines[i]);
      TrimFixesTrimmed(line);
    }
    NoCarriageReturn(lines);
    NormalizeFixesPlain(Join(lines, "\n"));
    SplitJoin(lines, '\n');
  }

  lemma {:induction false} NoCarriageReturn(lines: seq<string>)
    requires forall line :: line in lines ==> '\r' !in line
    ensures '\r' !in Join(lines, "\n")
  {
    if lines != [] {
      NoCarriageReturn(lines[..|lines| - 1]);
      assert lines[|lines| - 1] in lines;
    }
  }

  /** Lines whose ends are no whitespace make a trimmed text. */
  lemma {:induction false} JoinedIsTrimmed(lines: seq<string>)
    requires lines != [] && lines[0] != "" && !IsSpace(lines[0][0])
    requires lines[|lines| - 1] != "" && !IsSpace(lines[|lines| - 1][|lines[|lines| - 1]| - 1])
    ensures var text := Join(lines, "\n"); text != "" && text[0] == lines[0][0] && Trimmed(text)
  {
    var n := |lines| - 1;
    if n > 0 {
      JoinAppend(lines[..n], lines[n], "\n");
      assert lines[..n] + [lines[n]] == lines;
      JoinStarts(lines[..n]);
      var text := Join(lines, "\n");
      assert text[|text| - 1] == lines[n][|lines[n]| - 1];
    }
  }

  lemma {:induction false} JoinStarts(lines: seq<string>)
    requires lines != [] && lines[0] != ""
    ensures Join(lines, "\n") != "" && Join(lines, "\n")[0] == lines[0][0]
  {
    if |lines| > 1 {
      JoinStarts(lines[..|lines| - 1]);
    }
  }

  /** The last line of an entry, and so of the body, is not empty. */
  lemma EntryEnds(e: Entry)
    requires GoodEntry(e)
    ensures var lines := EntryLines(e);
            && lines[0] != "" && !IsSpace(lines[0][0])
            && lines[|lines| - 1] != "" && !IsSpace(lines[|lines| - 1][|lines[|lines| - 1]| - 1])
  {
    if e.content.Items? {
      var items := e.content.items;
      var n := |items| - 1;
      ItemLineIsRead(n + 1, items[n]);
      assert EntryLines(e)[|EntryLines(e)| - 1] == Digits(n + 1) + ". " + items[n];
      FieldHead(e.key);
      assert EntryLines(e)[0] == e.key + [COLON];
    } else {
      FieldLineIsRead(e.key, e.content.text);
    }
  }

  lemma {:induction false} BodyEnds(entries: seq<Entry>)
    requires GoodEntries(entries) && entries != []
    ensures var lines := AllLines(entries);
            && lines[0] != "" && !IsSpace(lines[0][0])
            && lines[|lines| - 1] != "" && !IsSpace(lines[|lines| - 1][|lines[|lines| - 1]| - 1])
  {
    var n := |entries| - 1;
    InitIsGood(entries);
    EntryEnds(entries[n]);
    if n > 0 {
      BodyEnds(entries[..n]);
    }
  }

  /** The printed body is trimmed, and cut into the lines it was made of. */
  lemma BodyIsCut(entries: seq<Entry>)
    requires GoodEntries(entries) && entries != []
    ensures var body := Join(Blocks(entries), "\n\n");
            body != "" && Trim(body) == body && '\r' !in body && TrimmedLines(body) == AllLines(entries)
  {
    BodyIsLines(entries);
    BodyEnds(entries);
    JoinedIsTrimmed(AllLines(entries));
    TrimFixesTrimmed(Join(AllLines(entries), "\n"));
    AllArePrintable(entries);
    LinesComeBack(AllLines(entries));
  }

  lemma ParsesAs(lines: seq<string>, r: Reading, entries: seq<Entry>)
    requires Scan(lines) == Ok(r) && CloseEntry(r.entries, r.current) == Ok(entries)
    ensures ParseEntries(lines) == Ok(entries)
  {
  }

  lemma EntriesParse(entries: seq<Entry>)
    requires GoodEntries(entries) && entries != []
    ensures ParseEntries(AllLines(entries)) == Ok(entries)
  {
    var n := |entries| - 1;
    var lines, init, e := AllLines(entries), entries[..n], entries[n];
    EntriesAreRead(entries);
    InitIsGood(entries);
    ClosesAsRead(init, e);
    InitLast(entries);
    ParsesAs(lines, Reading(init, OpenOf(e)), entries);
  }

  /** Good entries, printed as a document, are parsed back. */
  lemma EntriesComeBack(entries: seq<Entry>)
    requires GoodEntries(entries) && entries != []
    ensures var document := RenderDocument(HEADER, Join(Blocks(entries), "\n\n"));
            ReadBody(HEADER, document).Ok?
                && ParseEntries(TrimmedLines(ReadBody(HEADER, document).value)) == Ok(entries)
  {
    BodyIsCut(entries);
    EntriesParse(entries);
    HeaderIsOne();
    BodyComesBack(HEADER, Join(Blocks(entries), "\n\n"));
  }

  lemma HeaderIsOne()
    ensures IsHeader(HEADER)
  {
  }

  // --- fields and orphans ---

  /** The field entries of the first fields of a model are good, and of these fields. */
  ghost predicate FieldsListed(model: seq<Field>, s: State, k: nat)
    requires k <= |model|
  {
    var entries := FieldEntries(model[..k], s.values);
    GoodEntries(entries) && forall i :: 0 <= i < |entries| ==> Declares(model[..k], entries[i].key)
  }

  /** And bring back their values. */
  ghost predicate FieldsMade(model: seq<Field>, s: State, k: nat)
    requires k <= |model|
  {
    var made := Distribute(model, FieldEntries(model[..k], s.values));
    made.orphans == [] && forall key :: ValueMade(model, s, k, made, key)
  }

  predicate ValueMade(model: seq<Field>, s: State, k: nat, made: State, key: string)
    requires k <= |model|
  {
    && (key in made.values <==> key in s.values && Declares(model[..k], key))
    && (key in made.values ==> made.values[key] == s.values[key])
  }

  lemma {:induction false} FieldsAreMade(model: seq<Field>, s: State, k: nat)
    requires ValidModel(model) && WellFormed(model, s) && k <= |model|
    ensures FieldsListed(model, s, k) && FieldsMade(model, s, k)
  {
    if k > 0 {
      FieldsAreMade(model, s, k - 1);
      OneFieldListed(model, s, k - 1);
      OneFieldMade(model, s, k - 1);
    }
  }

  lemma NextEntries(model: seq<Field>, values: map<string, Content>, k: nat)
    requires k < |model|
    ensures var before, key := FieldEntries(model[..k], values), model[k].key;
            FieldEntries(model[..k + 1], values) == if key in values then before + [Entry(key, values[key])] else before
  {
    assert model[..k + 1][..k] == model[..k];
  }

  lemma OneFieldListed(model: seq<Field>, s: State, k: nat)
    requires ValidModel(model) && WellFormed(model, s) && k < |model| && FieldsListed(model, s, k)
    ensures FieldsListed(model, s, k + 1)
  {
    var before, key := FieldEntries(model[..k], s.values), model[k].key;
    NextEntries(model, s.values, k);
    forall i | 0 <= i < |before| ensures Declares(model[..k + 1], before[i].key) {
      DeclaresMore(model, k, before[i].key);
    }
    DeclaresMore(model, k, key);
    if key in s.values {
      NotBefore(model, k);
      assert GoodValue(model, key, s.values[key]);
      GoodAppend(before, Entry(key, s.values[key]));
    }
  }

  lemma DistributeAppend(model: seq<Field>, entries: seq<Entry>, e: Entry)
    ensures var before := Distribute(model, entries);
            Distribute(model, entries + [e]) ==
              if Declares(model, e.key) then
                before.(values := before.values[e.key := Align(FieldOf(model, e.key).kind, e.content)])
              else before.(orphans := before.orphans + [e])
  {
    assert (entries + [e])[..|entries|] == entries;
  }

  /** One more field either has a value, which is set, or changes nothing. */
  lemma OneFieldMade(model: seq<Field>, s: State, k: nat)
    requires ValidModel(model) && WellFormed(model, s) && k < |model| && FieldsMade(model, s, k)
    ensures FieldsMade(model, s, k + 1)
  {
    var before, key := FieldEntries(model[..k], s.values), model[k].key;
    NextEntries(model, s.values, k);
    var made, made' := Distribute(model, before), Distribute(model, FieldEntries(model[..k + 1], s.values));
    FieldOfIs(model, k);
    if key in s.values {
      assert GoodValue(model, key, s.values[key]);
      DistributeAppend(model, before, Entry(key, s.values[key]));
    }
    assert made' == if key in s.values then made.(values := made.values[key := s.values[key]]) else made;
    ValuesMore(model, s, k, made, made');
  }

  lemma ValuesMore(model: seq<Field>, s: State, k: nat, made: State, made': State)
    requires k < |model| && forall key :: ValueMade(model, s, k, made, key)
    requires var key := model[k].key;
             made'.values == if key in s.values then made.values[key := s.values[key]] else made.values
    ensures var next: nat := k + 1; forall key :: ValueMade(model, s, next, made', key)
  {
    var next: nat := k + 1;
    forall key ensures ValueMade(model, s, next, made', key) {
      DeclaresMore(model, k, key);
      assert ValueMade(model, s, k, made, key);
    }
  }

  /** A field is not declared among those before it. */
  lemma NotBefore(model: seq<Field>, k: nat)
    requires ValidModel(model) && k < |model|
    ensures !Declares(model[..k], model[k].key)
  {
  }

  lemma GoodAppend(entries: seq<Entry>, e: Entry)
    requires GoodEntries(entries) && GoodEntry(e) && !HasEntry(entries, e.key)
    ensures GoodEntries(entries + [e])
  {
    var longer := entries + [e];
    forall i | 0 <= i < |longer| ensures GoodEntry(longer[i]) {
      assert i < |entries| ==> GoodEntry(entries[i]);
    }
  }

  lemma DeclaresMore(model: seq<Field>, k: nat, key: string)
    requires k < |model|
    ensures Declares(model[..k + 1], key) <==> Declares(model[..k], key) || model[k].key == key
  {
    if Declares(model[..k], key) {
      var i :| 0 <= i < k && model[..k][i].key == key;
      assert model[..k + 1][i].key == key;
    }
    assert model[..k + 1][k] == model[k];
    if Declares(model[..k + 1], key) && model[k].key != key {
      var i :| 0 <= i < k + 1 && model[..k + 1][i].key == key;
      assert model[..k][i].key == key;
    }
  }

  lemma {:induction false} FieldOfIs(model: seq<Field>, i: nat)
    requires i < |model| && forall j :: 0 <= j < i ==> model[j].key != model[i].key
    ensures Declares(model, model[i].key) && FieldOf(model, model[i].key) == model[i]
  {
    if i > 0 {
      FieldOfIs(model[1..], i - 1);
    }
  }

  /** Orphans are printed as they are. */
  lemma {:induction false} OrphansArePrinted(model: seq<Field>, orphans: seq<Entry>)
    requires forall i :: 0 <= i < |orphans| ==> !Declares(model, orphans[i].key)
    ensures OrphanEntries(model, orphans) == orphans
  {
    if orphans != [] {
      OrphansArePrinted(model, orphans[..|orphans| - 1]);
    }
  }

  /** And come back after the fields. */
  lemma {:induction false} OrphansComeBack(model: seq<Field>, entries: seq<Entry>, orphans: seq<Entry>)
    requires forall i :: 0 <= i < |orphans| ==> !Declares(model, orphans[i].key)
    ensures var made := Distribute(model, entries);
            Distribute(model, entries + orphans) == made.(orphans := made.orphans + orphans)
  {
    if orphans == [] {
      NoMore(entries);
      NoMore(Distribute(model, entries).orphans);
    } else {
      var n := |orphans| - 1;
      OrphansComeBack(model, entries, orphans[..n]);
      DistributeAppend(model, entries + orphans[..n], orphans[n]);
      InitLast(orphans);
      Regroup(entries, orphans[..n], [orphans[n]]);
      Regroup(Distribute(model, entries).orphans, orphans[..n], [orphans[n]]);
    }
  }

  lemma PrintedIsGood(model: seq<Field>, s: State)
    requires ValidModel(model) && WellFormed(model, s)
    ensures GoodEntries(Printed(model, s)) && Distribute(model, Printed(model, s)) == s
  {
    var fields := FieldEntries(model, s.values);
    FieldsAreMade(model, s, |model|);
    assert model[..|model|] == model;
    OrphansArePrinted(model, s.orphans);
    OrphansComeBack(model, fields, s.orphans);
    BothGood(fields, s.orphans);
    AllValuesMade(model, s, Distribute(model, fields));
    assert [] + s.orphans == s.orphans;
  }

  lemma AllValuesMade(model: seq<Field>, s: State, made: State)
    requires WellFormed(model, s) && forall key :: ValueMade(model, s, |model|, made, key)
    ensures made.values == s.values
  {
    assert model[..|model|] == model;
    forall key | key in made.values ensures key in s.values {
      assert ValueMade(model, s, |model|, made, key);
    }
    forall key | key in s.values ensures key in made.values {
      assert ValueMade(model, s, |model|, made, key) && GoodValue(model, key, s.values[key]);
    }
    forall key | key in s.values ensures made.values[key] == s.values[key] {
      assert ValueMade(model, s, |model|, made, key);
    }
  }

  lemma BothGood(a: seq<Entry>, b: seq<Entry>)
    requires GoodEntries(a) && GoodEntries(b)
    requires forall i, j :: 0 <= i < |a| && 0 <= j < |b| ==> a[i].key != b[j].key
    ensures GoodEntries(a + b)
  {
    var all := a + b;
    forall i | 0 <= i < |all| ensures GoodEntry(all[i]) {
      assert i < |a| ==> GoodEntry(a[i]);
      assert i >= |a| ==> GoodEntry(b[i - |a|]);
    }
  }

  /** An empty document. */
  lemma NothingComesBack(model: seq<Field>)
    ensures Parse(model, RenderDocument(HEADER, "")) == Ok(State(map[], []))
  {
    BodyComesBack(HEADER, "");
    assert Split("", '\n') == [""];
    assert TrimmedLines("") == [""];
    assert Scan([]) == Ok(Reading([], NoEntry));
    ScanAppend([], "");
    assert [] + [""] == [""];
  }

  /** What is stored is what is loaded: parsing undoes printing, on every well-formed state. */
  lemma ParseUndoesRender(model: seq<Field>, s: State)
    requires ValidModel(model) && WellFormed(model, s)
    ensures Parse(model, Render(model, s)) == Ok(s)
  {
    PrintedIsGood(model, s);
    if Printed(model, s) == [] {
      NothingComesBack(model);
    } else {
      EntriesComeBack(Printed(model, s));
    }
  }

  // --- whatever is parsed is well-formed ---

  lemma TrimIsClean(s: string)
    requires OneLine(s)
    ensures Trim(s) == "" || Clean(Trim(s))
  {
    TrimTrims(s);
    forall i | 0 <= i < |Trim(s)| ensures !EndsLine(Trim(s)[i]) {
      TrimKeeps(s, Trim(s)[i]);
    }
  }

  lemma FieldIsClean(line: string)
    requires ReadField(line).FieldLine?
    ensures IsFieldKey(ReadField(line).key) && (ReadField(line).value == "" || Clean(ReadField(line).value))
  {
    TrimIsClean(line[KeyRun(line) + 1..]);
  }

  lemma ItemIsClean(line: string)
    requires ReadItem(line).ItemLine?
    ensures Clean(ReadItem(line).text)
  {
    var rest := line[LeadingDigits(line) + 1..];
    var text := rest[SpaceRun(rest)..];
    TrimIsClean(text);
    TrimLeaves(text);
  }

  /** What the parser holds at any point. */
  ghost predicate GoodReading(r: Reading) {
    && GoodEntries(r.entries)
    && (r.current.Open? ==>
          && IsFieldKey(r.current.key) && !HasEntry(r.entries, r.current.key)
          && (r.current.value == "" || Clean(r.current.value))
          && AllClean(r.current.items))
  }

  lemma CloseIsGood(r: Reading)
    requires GoodReading(r) && CloseEntry(r.entries, r.current).Ok?
    ensures GoodEntries(CloseEntry(r.entries, r.current).value)
  {
    if r.current.Open? {
      var content := if r.current.items != [] then Items(r.current.items) else Text(r.current.value);
      GoodAppend(r.entries, Entry(r.current.key, content));
    }
  }

  lemma StepIsGood(r: Reading, line: string)
    requires GoodReading(r) && Step(r, line).Ok?
    ensures GoodReading(Step(r, line).value)
  {
    if line == "" {
    } else if r.current.Open? && ReadItem(line).ItemLine? {
      ItemIsClean(line);
    } else {
      CloseIsGood(r);
      FieldIsClean(line);
    }
  }

  lemma {:induction false} ScanIsGood(lines: seq<string>)
    requires Scan(lines).Ok?
    ensures GoodReading(Scan(lines).value)
  {
    if lines != [] {
      ScanIsGood(lines[..|lines| - 1]);
      StepIsGood(Scan(lines[..|lines| - 1]).value, lines[|lines| - 1]);
    }
  }

  lemma {:induction false} JoinIsClean(items: seq<string>)
    requires |items| > 0 && Clean(items[0]) && AllClean(items)
    ensures Clean(Join(items, SEMICOLON)) && Join(items, SEMICOLON)[0] == items[0][0]
  {
    var n := |items| - 1;
    if n > 0 {
      JoinIsClean(items[..n]);
      JoinedIsClean(Join(items[..n], SEMICOLON), items[n]);
    }
  }

  lemma JoinedIsClean(a: string, b: string)
    requires Clean(a) && Clean(b)
    ensures Clean(a + SEMICOLON + b)
  {
    var text := a + SEMICOLON + b;
    assert text[0] == a[0] && text[|text| - 1] == b[|b| - 1];
  }

  lemma AlignIsClean(kind: Kind, raw: Content)
    requires CleanContent(raw)
    ensures CleanContent(Align(kind, raw)) && Fits(kind, Align(kind, raw))
  {
    if !kind.ListKind? && raw.Items? {
      JoinIsClean(raw.items);
    }
  }

  lemma {:induction false} DistributeIsGood(model: seq<Field>, entries: seq<Entry>)
    requires GoodEntries(entries)
    ensures WellFormed(model, Distribute(model, entries))
    ensures forall i :: 0 <= i < |Distribute(model, entries).orphans| ==>
      HasEntry(entries, Distribute(model, entries).orphans[i].key)
  {
    if entries != [] {
      var n := |entries| - 1;
      var e, before := entries[n], Distribute(model, entries[..n]);
      InitIsGood(entries);
      DistributeIsGood(model, entries[..n]);
      assert forall key :: HasEntry(entries[..n], key) ==> HasEntry(entries, key);
      if Declares(model, e.key) {
        AlignIsClean(FieldOf(model, e.key).kind, e.content);
      } else {
        assert !HasEntry(before.orphans, e.key);
        GoodAppend(before.orphans, e);
      }
    }
  }

  /** Every parsed state is one that survives. */
  lemma ParsedIsWellFormed(model: seq<Field>, text: string)
    requires Parse(model, text).Ok?
    ensures WellFormed(model, Parse(model, text).value)
  {
    var lines := TrimmedLines(ReadBody(HEADER, text).value);
    ScanIsGood(lines);
    CloseIsGood(Scan(lines).value);
    DistributeIsGood(model, ParseEntries(lines).value);
  }

  /** Parsing, printing and parsing again is parsing once. */
  lemma ParseRenderParse(model: seq<Field>, text: string)
    requires ValidModel(model) && Parse(model, text).Ok?
    ensures Parse(model, Render(model, Parse(model, text).value)) == Parse(model, text)
  {
    ParsedIsWellFormed(model, text);
    ParseUndoesRender(model, Parse(model, text).value);
  }

  /** The well-formed states are exactly those that survive storing and loading. */
  lemma SurvivesIff(model: seq<Field>, s: State)
    requires ValidModel(model)
    ensures Parse(model, Render(model, s)) == Ok(s) <==> WellFormed(model, s)
  {
    if WellFormed(model, s) {
      ParseUndoesRender(model, s);
    } else if Parse(model, Render(model, s)).Ok? {
      ParsedIsWellFormed(model, Render(model, s));
    }
  }
}
