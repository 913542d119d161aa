/** Runtime parameter documents: overrides against a catalogue of defaults, with an audit history. */
module ParamDocument {
  import opened Text
  import opened Outcome

  datatype Definition = Definition(key: string, defaultValue: int, minimum: int, maximum: int, editable: bool)

  /** `pairs` lists keys whose values must not be out of order. */
  datatype Catalog = Catalog(entries: seq<Definition>, pairs: seq<(string, string)>) {
    /** What the shipped catalogue satisfies. */
    ghost predicate Valid() {
      && (forall i, j :: 0 <= i < j < |entries| ==> entries[i].key != entries[j].key)
      && (forall i :: 0 <= i < |entries| ==> Safe(entries[i].defaultValue))
      && (forall p :: p in pairs ==> Known(p.0) && Known(p.1))
    }

    predicate Known(key: string) {
      exists i :: 0 <= i < |entries| && entries[i].key == key
    }

    function Find(key: string): (d: Definition)
      requires Known(key)
      ensures d in entries && d.key == key
    {
      FindFrom(key, 0)
    }

    function FindFrom(key: string, start: nat): (d: Definition)
      requires exists i :: start <= i < |entries| && entries[i].key == key
      ensures d in entries && d.key == key
      decreases |entries| - start
    {
      if entries[start].key == key then entries[start] else FindFrom(key, start + 1)
    }
  }

  predicate Safe(n: int) {
    -MAX_SAFE_INTEGER <= n <= MAX_SAFE_INTEGER
  }

  type Overrides = map<string, int>

  /** One override is accepted: an editable key with a value in its range. */
  predicate Allowed(catalog: Catalog, key: string, value: int) {
    catalog.Known(key) && var d := catalog.Find(key); d.editable && Safe(value) && d.minimum <= value <= d.maximum
  }

  /** The overrides that differ from their defaults. */
  function Customized(catalog: Catalog, overrides: Overrides): Overrides {
    map key | key in overrides && Allowed(catalog, key, overrides[key])
              && overrides[key] != catalog.Find(key).defaultValue :: overrides[key]
  }

  function ValueFor(catalog: Catalog, overrides: Overrides, key: string): int
    requires catalog.Known(key)
  {
    if key in overrides then overrides[key] else catalog.Find(key).defaultValue
  }

  predicate Ordered(catalog: Catalog, overrides: Overrides) {
    forall p :: p in catalog.pairs && catalog.Known(p.0) && catalog.Known(p.1) ==>
      ValueFor(catalog, overrides, p.0) <= ValueFor(catalog, overrides, p.1)
  }

  function Validated(catalog: Catalog, overrides: Overrides): Result<Overrides> {
    if !(forall key :: key in overrides ==> Allowed(catalog, key, overrides[key])) then Rejected
    else
      var kept := Customized(catalog, overrides);
      if Ordered(catalog, kept) then Ok(kept) else Rejected
  }

  /** `validateRuntimeOverrides`: the values one by one, then the pairs that must be ordered. */
  method ValidateOverrides(catalog: Catalog, overrides: Overrides) returns (result: Result<Overrides>)
    requires catalog.Valid()
    ensures result == Validated(catalog, overrides)
  {
    var validated: Overrides := map[];
    var rest := overrides.Keys;
    while rest != {}
      invariant rest <= overrides.Keys
      invariant forall key :: key in overrides && key !in rest ==> Allowed(catalog, key, overrides[key])
      invariant forall key :: key in validated <==>
        key in overrides && key !in rest && overrides[key] != catalog.Find(key).defaultValue
      invariant forall key :: key in validated ==> validated[key] == overrides[key]
      decreases rest
    {
      var key :| key in rest;
      if !Allowed(catalog, key, overrides[key]) {
        return Rejected;
      }
      if overrides[key] != catalog.Find(key).defaultValue {
        validated := validated[key := overrides[key]];
      }
      rest := rest - {key};
    }
    assert validated == Customized(catalog, overrides);
    var ordered := CheckPairs(catalog, validated);
    result := if ordered then Ok(validated) else Rejected;
  }

  /** The loop over the ordered pairs. */
  method CheckPairs(catalog: Catalog, overrides: Overrides) returns (ordered: bool)
    requires catalog.Valid()
    ensures ordered == Ordered(catalog, overrides)
  {
    var k := 0;
    while k < |catalog.pairs|
      invariant 0 <= k <= |catalog.pairs|
      invariant forall j :: 0 <= j < k ==>
        ValueFor(catalog, overrides, catalog.pairs[j].0) <= ValueFor(catalog, overrides, catalog.pairs[j].1)
    {
      var pair := catalog.pairs[k];
      assert pair in catalog.pairs;
      if ValueFor(catalog, overrides, pair.0) > ValueFor(catalog, overrides, pair.1) {
        return false;
      }
      k := k + 1;
    }
    ordered := true;
  }

  datatype Change = Change(key: string, before: int, after: int)

  /** `at` says whether the timestamp of the entry parses. */
  datatype AuditEntry = AuditEntry(revision: int, actor: string, at: bool, changes: seq<Change>)

  datatype Document = Document(revision: int, overrides: Overrides, history: seq<AuditEntry>)

  const DEFAULT_DOCUMENT := Document(0, map[], [])

  predicate ValidChanges(catalog: Catalog, changes: seq<Change>) {
    && (forall i, j :: 0 <= i < j < |changes| ==> changes[i].key != changes[j].key)
    && forall i :: 0 <= i < |changes| ==> ValidChange(catalog, changes[i])
  }

  predicate ValidChange(catalog: Catalog, c: Change) {
    catalog.Known(c.key) && catalog.Find(c.key).editable && Safe(c.before) && Safe(c.after) && c.before != c.after
  }

  predicate ValidEntry(catalog: Catalog, e: AuditEntry, index: int) {
    e.revision == index + 1 && Trim(e.actor) != "" && e.at && e.changes != [] && ValidChanges(catalog, e.changes)
  }

  function ValidDocument(catalog: Catalog, d: Document): Result<Document> {
    if !(0 <= d.revision <= MAX_SAFE_INTEGER) || |d.history| != d.revision
       || !(forall i :: 0 <= i < |d.history| ==> ValidEntry(catalog, d.history[i], i)) then Rejected
    else
      var overrides :- Validated(catalog, d.overrides);
      Ok(d.(overrides := overrides))
  }

  /** The catalogue entries, in order, whose value differs. */
  function Changes(catalog: Catalog, before: Overrides, after: Overrides, count: nat): seq<Change>
    requires count <= |catalog.entries|
  {
    if count == 0 then []
    else
      var d := catalog.entries[count - 1];
      var earlier := Changes(catalog, before, after, count - 1);
      var b, a := ValueOf(before, d), ValueOf(after, d);
      if b == a then earlier else earlier + [Change(d.key, b, a)]
  }

  function ValueOf(overrides: Overrides, d: Definition): int {
    if d.key in overrides then overrides[d.key] else d.defaultValue
  }

  datatype Saving = Unchanged | Replaced(next: Document)

  /** What a save does with the document it reads under the lock. */
  function Save(catalog: Catalog, previous: Document, revision: int, overrides: Overrides, actor: string)
    : Result<Saving>
  {
    var validated :- Validated(catalog, overrides);
    if actor == "" || !(0 <= revision <= MAX_SAFE_INTEGER) || previous.revision != revision then Rejected
    else
      var changes := Changes(catalog, previous.overrides, validated, |catalog.entries|);
      if changes == [] then Ok(Unchanged)
      else
        var next :- ValidDocument(catalog,
          Document(revision + 1, validated, previous.history + [AuditEntry(revision + 1, actor, true, changes)]));
        Ok(Replaced(next))
  }

  // --- the audit trail ---

  function Defaults(catalog: Catalog): map<string, int> {
    map key: string | key in (set i | 0 <= i < |catalog.entries| :: catalog.entries[i].key) :: Default(catalog, key)
  }

  function Default(catalog: Catalog, key: string): int {
    if catalog.Known(key) then catalog.Find(key).defaultValue else 0
  }

  function ApplyChanges(values: map<string, int>, changes: seq<Change>): map<string, int> {
    if changes == [] then values
    else
      var last := changes[|changes| - 1];
      ApplyChanges(values, changes[..|changes| - 1])[last.key := last.after]
  }

  /** The values after replaying the audit history from the defaults. */
  function Replay(catalog: Catalog, history: seq<AuditEntry>): map<string, int> {
    if history == [] then Defaults(catalog)
    else ApplyChanges(Replay(catalog, history[..|history| - 1]), history[|history| - 1].changes)
  }

  /** The audit history accounts for every effective value. */
  ghost predicate Audited(catalog: Catalog, d: Document) {
    forall i :: 0 <= i < |catalog.entries| ==>
      var def := catalog.entries[i];
      def.key in Replay(catalog, d.history) && Replay(catalog, d.history)[def.key] == ValueOf(d.overrides, def)
  }

  lemma FindIsEntry(catalog: Catalog, i: nat)
    requires catalog.Valid() && i < |catalog.entries|
    ensures catalog.Known(catalog.entries[i].key) && catalog.Find(catalog.entries[i].key) == catalog.entries[i]
  {
    var d := catalog.Find(catalog.entries[i].key);
    var j :| 0 <= j < |catalog.entries| && catalog.entries[j] == d;
  }

  lemma DefaultIsAudited(catalog: Catalog)
    requires catalog.Valid()
    ensures Audited(catalog, DEFAULT_DOCUMENT)
  {
    forall i | 0 <= i < |catalog.entries|
      ensures var def := catalog.entries[i];
              def.key in Defaults(catalog) && Defaults(catalog)[def.key] == def.defaultValue
    {
      FindIsEntry(catalog, i);
    }
  }

  /** Changes over the first entries move exactly those entries, to their new values. */
  lemma {:induction false} ChangesApplied(catalog: Catalog, before: Overrides, after: Overrides,
                                          values: map<string, int>, count: nat)
    requires catalog.Valid() && count <= |catalog.entries|
    requires forall i :: 0 <= i < |catalog.entries| ==>
      catalog.entries[i].key in values && values[catalog.entries[i].key] == ValueOf(before, catalog.entries[i])
    ensures var moved := ApplyChanges(values, Changes(catalog, before, after, count));
            forall i :: 0 <= i < |catalog.entries| ==>
              && catalog.entries[i].key in moved
              && moved[catalog.entries[i].key] == ValueOf(if i < count then after else before, catalog.entries[i])
  {
    if count > 0 {
      ChangesApplied(catalog, before, after, values, count - 1);
      var earlier := Changes(catalog, before, after, count - 1);
      var d := catalog.entries[count - 1];
      var change := Change(d.key, ValueOf(before, d), ValueOf(after, d));
      assert (earlier + [change])[..|earlier|] == earlier;
    }
  }

  /** The document a save writes. */
  lemma SaveWrites(catalog: Catalog, previous: Document, revision: int, overrides: Overrides, actor: string)
    requires Save(catalog, previous, revision, overrides, actor).Ok?
    requires Save(catalog, previous, revision, overrides, actor).value.Replaced?
    ensures Validated(catalog, overrides).Ok? && previous.revision == revision
    ensures var validated := Validated(catalog, overrides).value;
            var next := Save(catalog, previous, revision, overrides, actor).value.next;
            && next == Document(revision + 1, validated, previous.history + [AuditEntry(revision + 1, actor, true,
                         Changes(catalog, previous.overrides, validated, |catalog.entries|))])
            && ValidDocument(catalog, next) == Ok(next)
  {
    ValidatedTwice(catalog, overrides);
  }

  lemma AuditExtends(catalog: Catalog, previous: Document, next: Document, e: AuditEntry)
    requires catalog.Valid() && Audited(catalog, previous)
    requires next.history == previous.history + [e]
    requires e.changes == Changes(catalog, previous.overrides, next.overrides, |catalog.entries|)
    ensures Audited(catalog, next)
  {
    assert next.history[..|previous.history|] == previous.history;
    ChangesApplied(catalog, previous.overrides, next.overrides, Replay(catalog, previous.history), |catalog.entries|);
  }

  /** A committed save follows the document it read: one revision on, one audit entry more, and
      the history still accounts for every value. */
  lemma SaveChains(catalog: Catalog, previous: Document, revision: int, overrides: Overrides, actor: string)
    requires catalog.Valid() && Audited(catalog, previous)
    requires Save(catalog, previous, revision, overrides, actor).Ok?
    requires Save(catalog, previous, revision, overrides, actor).value.Replaced?
    ensures var next := Save(catalog, previous, revision, overrides, actor).value.next;
            Follows(previous, next) && Audited(catalog, next) && ValidDocument(catalog, next) == Ok(next)
  {
    var next := Save(catalog, previous, revision, overrides, actor).value.next;
    SaveWrites(catalog, previous, revision, overrides, actor);
    AuditExtends(catalog, previous, next, next.history[|previous.history|]);
  }

  /** Whatever a save answers, the effective values afterwards are the requested ones: each
      override requested, and the default everywhere else. */
  lemma {:induction false} SaveTakesEffect(catalog: Catalog, previous: Document, revision: int, overrides: Overrides,
                                           actor: string, i: nat)
    requires catalog.Valid() && i < |catalog.entries|
    requires Save(catalog, previous, revision, overrides, actor).Ok?
    ensures var saved := Save(catalog, previous, revision, overrides, actor).value;
            ValueOf((if saved.Replaced? then saved.next else previous).overrides, catalog.entries[i])
              == ValueOf(overrides, catalog.entries[i])
  {
    var validated, d := Validated(catalog, overrides).value, catalog.entries[i];
    FindIsEntry(catalog, i);
    assert ValueOf(validated, d) == ValueOf(overrides, d);
    if Changes(catalog, previous.overrides, validated, |catalog.entries|) == [] {
      NoChangeNoDifference(catalog, previous.overrides, validated, |catalog.entries|, i);
    } else {
      ValidatedTwice(catalog, overrides);
    }
  }

  lemma {:induction false} NoChangeNoDifference(catalog: Catalog, before: Overrides, after: Overrides, count: nat,
                                                i: nat)
    requires i < count <= |catalog.entries| && Changes(catalog, before, after, count) == []
    ensures ValueOf(before, catalog.entries[i]) == ValueOf(after, catalog.entries[i])
  {
    if i < count - 1 {
      NoChangeNoDifference(catalog, before, after, count - 1, i);
    }
  }

  /** One revision on, with the history extended by one entry of that revision. */
  ghost predicate Follows(previous: Document, next: Document) {
    && next.revision == previous.revision + 1
    && |next.history| == |previous.history| + 1
    && next.history[..|previous.history|] == previous.history
    && next.history[|previous.history|].revision == next.revision
  }

  lemma ValidatedTwice(catalog: Catalog, overrides: Overrides)
    requires Validated(catalog, overrides).Ok?
    ensures Validated(catalog, Validated(catalog, overrides).value) == Validated(catalog, overrides)
  {
    var kept := Validated(catalog, overrides).value;
    assert Customized(catalog, kept) == kept;
  }

  // --- what is accepted, said of the catalogue's entries ---

  /** The catalogue has an entry for the key that takes the value. */
  predicate Takes(catalog: Catalog, key: string, value: int) {
    exists i :: 0 <= i < |catalog.entries| && catalog.entries[i].key == key && catalog.entries[i].editable
                && catalog.entries[i].minimum <= value <= catalog.entries[i].maximum
                && -MAX_SAFE_INTEGER <= value <= MAX_SAFE_INTEGER
  }

  /** Entries `i` and `j` hold an ordered pair, and the overrides or their defaults keep it. */
  predicate Keeps(catalog: Catalog, overrides: Overrides, i: nat, j: nat)
    requires i < |catalog.entries| && j < |catalog.entries|
  {
    var low, high := catalog.entries[i], catalog.entries[j];
    (low.key, high.key) in catalog.pairs ==>
      (if low.key in overrides then overrides[low.key] else low.defaultValue)
        <= if high.key in overrides then overrides[high.key] else high.defaultValue
  }

  lemma TakesIff(catalog: Catalog, key: string, value: int)
    requires catalog.Valid()
    ensures Allowed(catalog, key, value) <==> Takes(catalog, key, value)
  {
    if catalog.Known(key) {
      var i :| 0 <= i < |catalog.entries| && catalog.entries[i].key == key;
      FindIsEntry(catalog, i);
    }
  }

  lemma KeepsIff(catalog: Catalog, overrides: Overrides)
    requires catalog.Valid()
    ensures Ordered(catalog, overrides) <==>
              forall i, j :: 0 <= i < |catalog.entries| && 0 <= j < |catalog.entries| ==>
                  Keeps(catalog, overrides, i, j)
  {
    if Ordered(catalog, overrides) {
      forall i, j | 0 <= i < |catalog.entries| && 0 <= j < |catalog.entries| ensures Keeps(catalog, overrides, i, j) {
        FindIsEntry(catalog, i);
        FindIsEntry(catalog, j);
        var p := (catalog.entries[i].key, catalog.entries[j].key);
        assert p in catalog.pairs ==> ValueFor(catalog, overrides, p.0) <= ValueFor(catalog, overrides, p.1);
      }
    } else {
      var p :| p in catalog.pairs && catalog.Known(p.0) && catalog.Known(p.1)
               && ValueFor(catalog, overrides, p.0) > ValueFor(catalog, overrides, p.1);
      var i :| 0 <= i < |catalog.entries| && catalog.entries[i].key == p.0;
      var j :| 0 <= j < |catalog.entries| && catalog.entries[j].key == p.1;
      FindIsEntry(catalog, i);
      FindIsEntry(catalog, j);
      assert (catalog.entries[i].key, catalog.entries[j].key) == p;
      assert !Keeps(catalog, overrides, i, j);
    }
  }

  /** Defaults spelled out do not matter to the pairs. */
  lemma CustomizedKeeps(catalog: Catalog, overrides: Overrides, i: nat, j: nat)
    requires catalog.Valid() && i < |catalog.entries| && j < |catalog.entries|
    requires forall key :: key in overrides ==> Allowed(catalog, key, overrides[key])
    ensures Keeps(catalog, Customized(catalog, overrides), i, j) <==> Keeps(catalog, overrides, i, j)
  {
    FindIsEntry(catalog, i);
    FindIsEntry(catalog, j);
  }

  /** Overrides are accepted exactly if an editable entry takes each of them and every ordered pair is
      kept; what is kept of them are those that differ from their entry's default. */
  lemma ValidatedIff(catalog: Catalog, overrides: Overrides)
    requires catalog.Valid()
    ensures Validated(catalog, overrides).Ok? <==>
              && (forall key :: key in overrides ==> Takes(catalog, key, overrides[key]))
              && (forall i, j :: 0 <= i < |catalog.entries| && 0 <= j < |catalog.entries| ==>
                    Keeps(catalog, overrides, i, j))
    ensures Validated(catalog, overrides).Ok? ==>
              var kept := Validated(catalog, overrides).value;
              && (forall key :: key in kept ==> key in overrides && kept[key] == overrides[key])
              && (forall i :: 0 <= i < |catalog.entries| && catalog.entries[i].key in overrides ==>
                    (catalog.entries[i].key in kept <==>
                       overrides[catalog.entries[i].key] != catalog.entries[i].defaultValue))
  {
    forall key | key in overrides
      ensures Allowed(catalog, key, overrides[key]) <==> Takes(catalog, key, overrides[key])
    {
      TakesIff(catalog, key, overrides[key]);
    }
    if forall key :: key in overrides ==> Allowed(catalog, key, overrides[key]) {
      KeepsIff(catalog, Customized(catalog, overrides));
      forall i, j | 0 <= i < |catalog.entries| && 0 <= j < |catalog.entries|
        ensures Keeps(catalog, Customized(catalog, overrides), i, j) <==> Keeps(catalog, overrides, i, j)
      {
        CustomizedKeeps(catalog, overrides, i, j);
      }
      forall i | 0 <= i < |catalog.entries|
        ensures catalog.Find(catalog.entries[i].key) == catalog.entries[i]
      {
        FindIsEntry(catalog, i);
      }
    }
  }

  // --- what a save writes, said of the values before and after ---

  /** A change of the list is that of some entry whose value moved, as it moved. */
  ghost predicate Moved(catalog: Catalog, before: Overrides, after: Overrides, c: Change, i: nat)
    requires i < |catalog.entries|
  {
    var d := catalog.entries[i];
    && c.key == d.key && c.before == (if d.key in before then before[d.key] else d.defaultValue)
    && c.after == (if d.key in after then after[d.key] else d.defaultValue) && c.before != c.after
  }

  /** The changes are exactly the entries whose value moved, in the catalogue's order. */
  ghost predicate Lists(catalog: Catalog, before: Overrides, after: Overrides, changes: seq<Change>, at: seq<nat>,
                        count: nat)
    requires count <= |catalog.entries|
  {
    && |at| == |changes|
    && (forall k :: 0 <= k < |at| ==> at[k] < count && Moved(catalog, before, after, changes[k], at[k]))
    && (forall k, l :: 0 <= k < l < |at| ==> at[k] < at[l])
    && (forall i :: 0 <= i < count && SameValue(before, after, catalog.entries[i]) ==> i !in at)
    && (forall i :: 0 <= i < count && !SameValue(before, after, catalog.entries[i]) ==> i in at)
  }

  predicate SameValue(before: Overrides, after: Overrides, d: Definition) {
    var was := if d.key in before then before[d.key] else d.defaultValue;
    was == if d.key in after then after[d.key] else d.defaultValue
  }

  lemma {:induction false} ChangesList(catalog: Catalog, before: Overrides, after: Overrides, count: nat)
    returns (at: seq<nat>)
    requires count <= |catalog.entries|
    ensures Lists(catalog, before, after, Changes(catalog, before, after, count), at, count)
  {
    at := [];
    if count > 0 {
      at := ChangesList(catalog, before, after, count - 1);
      var was := at;
      if !SameValue(before, after, catalog.entries[count - 1]) {
        at := at + [count - 1];
        assert at[|was|] == count - 1;
        assert forall i :: i in at <==> i in was || i == count - 1;
      }
    }
  }

  /** An entry that moved has a valid change. */
  lemma MovedIsValid(catalog: Catalog, before: Overrides, after: Overrides, c: Change, i: nat)
    requires catalog.Valid() && i < |catalog.entries| && Moved(catalog, before, after, c, i)
    requires forall key :: key in before ==> Allowed(catalog, key, before[key])
    requires forall key :: key in after ==> Allowed(catalog, key, after[key])
    ensures ValidChange(catalog, c)
  {
    FindIsEntry(catalog, i);
  }

  lemma ChangesAreValid(catalog: Catalog, before: Overrides, after: Overrides)
    requires catalog.Valid()
    requires forall key :: key in before ==> Allowed(catalog, key, before[key])
    requires forall key :: key in after ==> Allowed(catalog, key, after[key])
    ensures ValidChanges(catalog, Changes(catalog, before, after, |catalog.entries|))
  {
    var changes := Changes(catalog, before, after, |catalog.entries|);
    var at := ChangesList(catalog, before, after, |catalog.entries|);
    forall k | 0 <= k < |changes| ensures ValidChange(catalog, changes[k]) {
      MovedIsValid(catalog, before, after, changes[k], at[k]);
    }
    forall k, l | 0 <= k < l < |changes| ensures changes[k].key != changes[l].key {
      assert Moved(catalog, before, after, changes[k], at[k]) && Moved(catalog, before, after, changes[l], at[l]);
    }
  }

  /** No entry's value would move. */
  ghost predicate NothingMoves(catalog: Catalog, before: Overrides, after: Overrides) {
    forall i :: 0 <= i < |catalog.entries| ==> SameValue(before, after, catalog.entries[i])
  }

  lemma ChangesEmptyIff(catalog: Catalog, before: Overrides, after: Overrides)
    ensures Changes(catalog, before, after, |catalog.entries|) == [] <==> NothingMoves(catalog, before, after)
  {
    var at := ChangesList(catalog, before, after, |catalog.entries|);
    if !NothingMoves(catalog, before, after) {
      var i :| 0 <= i < |catalog.entries| && !SameValue(before, after, catalog.entries[i]);
      assert i in at;
    }
    if at != [] {
      assert Moved(catalog, before, after, Changes(catalog, before, after, |catalog.entries|)[0], at[0]);
    }
  }

  /** Validated overrides give every entry the value asked for. */
  lemma ValidatedSame(catalog: Catalog, before: Overrides, overrides: Overrides)
    requires catalog.Valid() && Validated(catalog, overrides).Ok?
    ensures NothingMoves(catalog, before, Validated(catalog, overrides).value) <==>
        NothingMoves(catalog, before, overrides)
  {
    var kept := Validated(catalog, overrides).value;
    forall i | 0 <= i < |catalog.entries|
      ensures SameValue(before, kept, catalog.entries[i]) <==> SameValue(before, overrides, catalog.entries[i])
    {
      FindIsEntry(catalog, i);
    }
  }

  /** The change of an editable entry from one safe integer to another. */
  predicate Moves(catalog: Catalog, c: Change) {
    && (exists i :: 0 <= i < |catalog.entries| && catalog.entries[i].key == c.key && catalog.entries[i].editable)
    && Safe(c.before) && Safe(c.after) && c.before != c.after
  }

  lemma MovesIff(catalog: Catalog, c: Change)
    requires catalog.Valid()
    ensures ValidChange(catalog, c) <==> Moves(catalog, c)
  {
    forall i | 0 <= i < |catalog.entries| && catalog.entries[i].key == c.key
      ensures catalog.Known(c.key) && catalog.Find(c.key) == catalog.entries[i]
    {
      FindIsEntry(catalog, i);
    }
  }

  /** The revision after the one before, signed and dated, with changes of different entries. */
  predicate Recorded(catalog: Catalog, e: AuditEntry, revision: int) {
    && e.revision == revision && HasText(e.actor) && e.at && |e.changes| >= 1
    && (forall i :: 0 <= i < |e.changes| ==> Moves(catalog, e.changes[i]))
    && forall i, j :: 0 <= i < j < |e.changes| ==> e.changes[i].key != e.changes[j].key
  }

  /** A document is read exactly if its history has an entry for each revision from one on, in order,
      and its overrides are accepted. */
  lemma DocumentIff(catalog: Catalog, d: Document)
    requires catalog.Valid()
    ensures ValidDocument(catalog, d).Ok? <==>
              && |d.history| == d.revision <= MAX_SAFE_INTEGER && Validated(catalog, d.overrides).Ok?
              && forall i :: 0 <= i < |d.history| ==> Recorded(catalog, d.history[i], i + 1)
    ensures ValidDocument(catalog, d).Ok? ==>
              ValidDocument(catalog, d).value == d.(overrides := Validated(catalog, d.overrides).value)
  {
    forall i | 0 <= i < |d.history|
      ensures ValidEntry(catalog, d.history[i], i) <==> Recorded(catalog, d.history[i], i + 1)
    {
      RecordedIff(catalog, d.history[i], i);
    }
  }

  lemma RecordedIff(catalog: Catalog, e: AuditEntry, i: int)
    requires catalog.Valid()
    ensures ValidEntry(catalog, e, i) <==> Recorded(catalog, e, i + 1)
  {
    HasTextIff(e.actor);
    forall k | 0 <= k < |e.changes| ensures ValidChange(catalog, e.changes[k]) <==> Moves(catalog, e.changes[k]) {
      MovesIff(catalog, e.changes[k]);
    }
  }

  /** Over a valid document, a save is accepted exactly if its overrides are, it names an actor and the
      revision in place, and, unless no value would move, the actor is no blank and there is a next
      revision.  It leaves the document alone exactly if no value would move. */
  lemma SaveIff(catalog: Catalog, previous: Document, revision: int, overrides: Overrides, actor: string)
    requires catalog.Valid() && ValidDocument(catalog, previous) == Ok(previous)
    ensures var same := NothingMoves(catalog, previous.overrides, overrides);
            Save(catalog, previous, revision, overrides, actor).Ok? <==>
              && Validated(catalog, overrides).Ok? && actor != "" && revision == previous.revision
              && (same || (Trim(actor) != "" && revision < MAX_SAFE_INTEGER))
    ensures var saving := Save(catalog, previous, revision, overrides, actor);
            saving.Ok? ==> (saving.value.Unchanged? <==> NothingMoves(catalog, previous.overrides, overrides))
  {
    if Validated(catalog, overrides).Ok? && actor != "" && revision == previous.revision {
      var validated := Validated(catalog, overrides).value;
      ValidatedSame(catalog, previous.overrides, overrides);
      ChangesEmptyIff(catalog, previous.overrides, validated);
      ValidatedTwice(catalog, overrides);
      PreviousAllowed(catalog, previous);
      ChangesAreValid(catalog, previous.overrides, validated);
      if !NothingMoves(catalog, previous.overrides, validated) {
        NextIsValidIff(catalog, previous, validated, actor);
      }
    }
  }

  lemma PreviousAllowed(catalog: Catalog, d: Document)
    requires ValidDocument(catalog, d) == Ok(d)
    ensures forall key :: key in d.overrides ==> Allowed(catalog, key, d.overrides[key])
  {
  }

  lemma NextIsValidIff(catalog: Catalog, previous: Document, validated: Overrides, actor: string)
    requires ValidDocument(catalog, previous) == Ok(previous) && Validated(catalog, validated).Ok?
    requires var changes := Changes(catalog, previous.overrides, validated, |catalog.entries|);
             changes != [] && ValidChanges(catalog, changes)
    ensures var changes := Changes(catalog, previous.overrides, validated, |catalog.entries|);
            var e := AuditEntry(previous.revision + 1, actor, true, changes);
            ValidDocument(catalog, Document(previous.revision + 1, validated, previous.history + [e])).Ok? <==>
              Trim(actor) != "" && previous.revision < MAX_SAFE_INTEGER
  {
    var changes := Changes(catalog, previous.overrides, validated, |catalog.entries|);
    var history := previous.history + [AuditEntry(previous.revision + 1, actor, true, changes)];
    assert history[|previous.history|].actor == actor;
    assert forall i :: 0 <= i < |previous.history| ==> history[i] == previous.history[i];
  }

  /** What a save writes is what was asked for, signed: the overrides that differ from their defaults,
      and one entry more in the history, by the actor, of exactly the values that moved. */
  lemma SaveSigns(catalog: Catalog, previous: Document, revision: int, overrides: Overrides, actor: string)
    returns (at: seq<nat>)
    requires catalog.Valid() && Save(catalog, previous, revision, overrides, actor).Ok?
    requires Save(catalog, previous, revision, overrides, actor).value.Replaced?
    ensures var next := Save(catalog, previous, revision, overrides, actor).value.next;
            && next.revision == previous.revision + 1 && Ok(next.overrides) == Validated(catalog, overrides)
            && |next.history| == |previous.history| + 1 && next.history[..|previous.history|] == previous.history
            && var e := next.history[|previous.history|];
               && e.revision == next.revision && e.actor == actor && e.at
               && Lists(catalog, previous.overrides, next.overrides, e.changes, at, |catalog.entries|)
  {
    SaveWrites(catalog, previous, revision, overrides, actor);
    at := ChangesList(catalog, previous.overrides, Validated(catalog, overrides).value, |catalog.entries|);
  }
}
