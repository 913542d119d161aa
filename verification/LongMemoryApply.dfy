/** Applying a whole patch: singles first, then the lists, group by group. */
module LongMemoryApply {
  import opened Outcome
  import opened Sorting
  import opened LongMemory
  import opened LongMemoryRoundTrip
  import opened LongMemoryPatch

  // --- single fields ---

  predicate SingleBecomes(values: map<string, Content>, commands: seq<Command>, next: map<string, Content>,
                          key: string)
  {
    SingleAfter(Lookup(values, key), CommandsOf(commands, key)) == Ok(Lookup(next, key))
  }

  ghost predicate SinglesBecome(values: map<string, Content>, commands: seq<Command>, next: map<string, Content>) {
    forall key {:trigger SingleBecomes(values, commands, next, key)} :: SingleBecomes(values, commands, next, key)
  }

  predicate SingleAccepts(values: map<string, Content>, commands: seq<Command>, key: string) {
    SingleAfter(Lookup(values, key), CommandsOf(commands, key)).Ok?
  }

  /** The keys changed so far. */
  ghost predicate Touches(touched: set<string>, commands: seq<Command>) {
    forall key :: key in touched <==> CommandsOf(commands, key) != []
  }

  /** `applySingleCommands`. */
  method ApplySingleCommands(values: map<string, Content>, commands: seq<Command>)
    returns (result: Result<map<string, Content>>)
    ensures result.Ok? <==> forall key :: SingleAccepts(values, commands, key)
    ensures result.Ok? ==> SinglesBecome(values, commands, result.value)
  {
    var next := values;
    var touched: set<string> := {};
    for i := 0 to |commands|
      invariant SinglesBecome(values, commands[..i], next) && Touches(touched, commands[..i])
    {
      var c := commands[i];
      assert commands[..i + 1] == commands[..i] + [c];
      SingleStep(values, commands[..i], next, touched, c);
      TouchesAppend(touched, commands[..i], c);
      if c.key in touched || (!IsUpdate(c) && c.key !in next) {
        SingleSpoils(Lookup(values, c.key), commands, c.key, i + 1);
        assert !SingleAccepts(values, commands, c.key);
        return Rejected;
      }
      touched := touched + {c.key};
      next := if IsUpdate(c) then next[c.key := Text(c.value)] else next - {c.key};
    }
    assert commands[..|commands|] == commands;
    forall key ensures SingleAccepts(values, commands, key) {
      assert SingleBecomes(values, commands, next, key);
    }
    result := Ok(next);
  }

  lemma CommandsAppend(commands: seq<Command>, c: Command, key: string)
    ensures CommandsOf(commands + [c], key) ==
      if c.key == key then CommandsOf(commands, key) + [c] else CommandsOf(commands, key)
  {
    FilterAppend(commands, c, ForKey(key));
  }

  lemma TouchesAppend(touched: set<string>, commands: seq<Command>, c: Command)
    requires Touches(touched, commands)
    ensures Touches(touched + {c.key}, commands + [c])
  {
    forall key ensures key in touched + {c.key} <==> CommandsOf(commands + [c], key) != [] {
      CommandsAppend(commands, c, key);
    }
  }

  /** A command the loop refuses. */
  predicate RefusedNow(next: map<string, Content>, touched: set<string>, c: Command) {
    c.key in touched || (!IsUpdate(c) && c.key !in next)
  }

  function SingleNext(next: map<string, Content>, c: Command): map<string, Content> {
    if IsUpdate(c) then next[c.key := Text(c.value)] else next - {c.key}
  }

  /** A single field after one more command, seen from the list of its commands. */
  lemma OneSingleMore(slot: Slot, before: seq<Command>, c: Command, now: Slot)
    requires SingleAfter(slot, before) == Ok(now)
    ensures SingleAfter(slot, before + [c]) ==
      if before != [] || (!IsUpdate(c) && now.Empty?) then Rejected
      else Ok(if IsUpdate(c) then Full(Text(c.value)) else Empty)
  {
  }

  /** One more command on a single field. */
  lemma SingleStep(values: map<string, Content>, commands: seq<Command>, next: map<string, Content>,
                   touched: set<string>, c: Command)
    requires SinglesBecome(values, commands, next) && Touches(touched, commands)
    ensures RefusedNow(next, touched, c) ==>
        SingleAfter(Lookup(values, c.key), CommandsOf(commands + [c], c.key)).Rejected?
    ensures !RefusedNow(next, touched, c) ==> SinglesBecome(values, commands + [c], SingleNext(next, c))
  {
    CommandsAppend(commands, c, c.key);
    assert SingleBecomes(values, commands, next, c.key);
    OneSingleMore(Lookup(values, c.key), CommandsOf(commands, c.key), c, Lookup(next, c.key));
    if !RefusedNow(next, touched, c) {
      var after, longer := SingleNext(next, c), commands + [c];
      forall key ensures SingleBecomes(values, longer, after, key) {
        CommandsAppend(commands, c, key);
        assert SingleBecomes(values, commands, next, key);
      }
    }
  }

  /** What the start of a batch does wrong, the batch does wrong. */
  lemma SingleSpoils(slot: Slot, commands: seq<Command>, key: string, i: nat)
    requires i <= |commands| && SingleAfter(slot, CommandsOf(commands[..i], key)).Rejected?
    ensures SingleAfter(slot, CommandsOf(commands, key)).Rejected?
  {
    FilterPrefix(commands, ForKey(key), i);
  }

  // --- lists ---

  /** The commands of every list field, in order, and the fields in the order they were met. */
  ghost predicate Grouped(keys: seq<string>, groups: map<string, seq<Command>>, commands: seq<Command>) {
    && (forall i, j :: 0 <= i < j < |keys| ==> keys[i] != keys[j])
    && (forall key :: key in groups <==> key in keys) && (forall key :: key in groups ==> groups[key] != [])
    && forall key {:trigger GroupOf(groups, commands, key)} :: GroupOf(groups, commands, key)
  }

  predicate GroupOf(groups: map<string, seq<Command>>, commands: seq<Command>, key: string) {
    CommandsOf(commands, key) == if key in groups then groups[key] else []
  }

  lemma GroupsAppend(keys: seq<string>, groups: map<string, seq<Command>>, commands: seq<Command>, c: Command)
    requires Grouped(keys, groups, commands)
    ensures Grouped(if c.key in groups then keys else keys + [c.key],
                    groups[c.key := (if c.key in groups then groups[c.key] else []) + [c]], commands + [c])
  {
    var longer, groups' := commands + [c], groups[c.key := (if c.key in groups then groups[c.key] else []) + [c]];
    forall key ensures GroupOf(groups', longer, key) {
      CommandsAppend(commands, c, key);
      assert GroupOf(groups, commands, key);
    }
  }

  /** The grouping loop. */
  method GroupCommands(commands: seq<Command>) returns (keys: seq<string>, groups: map<string, seq<Command>>)
    ensures Grouped(keys, groups, commands)
  {
    keys, groups := [], map[];
    for i := 0 to |commands|
      invariant Grouped(keys, groups, commands[..i])
    {
      var c := commands[i];
      assert commands[..i + 1] == commands[..i] + [c];
      GroupsAppend(keys, groups, commands[..i], c);
      if c.key !in groups {
        keys := keys + [c.key];
      }
      groups := groups[c.key := (if c.key in groups then groups[c.key] else []) + [c]];
    }
    assert commands[..|commands|] == commands;
  }

  function MaxItemsOf(model: seq<Field>, key: string): nat {
    if Declares(model, key) && FieldOf(model, key).kind.ListKind? then FieldOf(model, key).kind.maxItems else 0
  }

  ghost function GroupAfter(model: seq<Field>, values: map<string, Content>, commands: seq<Command>,
                            key: string): Result<Slot>
  {
    ListSlotAfter(values, key, MaxItemsOf(model, key), CommandsOf(commands, key))
  }

  /** The first so many groups have been applied, to what the lists held before. */
  ghost predicate GroupsApplied(model: seq<Field>, values: map<string, Content>, commands: seq<Command>,
                                keys: seq<string>,
                                next: map<string, Content>, n: nat)
    requires n <= |keys|
  {
    && (forall i :: 0 <= i < n ==> GroupAfter(model, values, commands, keys[i]) == Ok(Lookup(next, keys[i])))
    && forall key :: key !in keys[..n] ==> Lookup(next, key) == Lookup(values, key)
  }

  ghost predicate ListsBecome(model: seq<Field>, values: map<string, Content>, commands: seq<Command>,
                              next: map<string, Content>)
  {
    forall key :: GroupAfter(model, values, commands, key) == Ok(Lookup(next, key))
  }

  /** The loop over the groups. */
  method ApplyGroups(model: seq<Field>, values: map<string, Content>, commands: seq<Command>)
    returns (result: Result<map<string, Content>>)
    ensures result.Ok? <==> forall key :: GroupAfter(model, values, commands, key).Ok?
    ensures result.Ok? ==> ListsBecome(model, values, commands, result.value)
  {
    var keys, groups := GroupCommands(commands);
    var next := values;
    for n := 0 to |keys|
      invariant GroupsApplied(model, values, commands, keys, next, n)
    {
      var key := keys[n];
      assert key !in keys[..n] && Lookup(next, key) == Lookup(values, key);
      var items := ApplyListCommands(ItemsAt(next, key), MaxItemsOf(model, key), groups[key]);
      assert GroupOf(groups, commands, key);
      if items.Rejected? {
        assert GroupAfter(model, values, commands, key).Rejected?;
        return Rejected;
      }
      GroupStep(model, values, commands, keys, next, n, SlotOf(items.value));
      next := Store(next, key, SlotOf(items.value));
    }
    AllGroupsApplied(model, values, commands, keys, groups, next);
    result := Ok(next);
  }

  lemma GroupStep(model: seq<Field>, values: map<string, Content>, commands: seq<Command>, keys: seq<string>,
                  next: map<string, Content>, n: nat, slot: Slot)
    requires n < |keys| && GroupsApplied(model, values, commands, keys, next, n)
    requires forall i, j :: 0 <= i < j < |keys| ==> keys[i] != keys[j]
    requires GroupAfter(model, values, commands, keys[n]) == Ok(slot)
    ensures GroupsApplied(model, values, commands, keys, Store(next, keys[n], slot), n + 1)
  {
    var after := Store(next, keys[n], slot);
    assert Lookup(after, keys[n]) == slot;
    forall i | 0 <= i < n + 1 ensures GroupAfter(model, values, commands, keys[i]) == Ok(Lookup(after, keys[i])) {
      if i < n {
        assert keys[i] != keys[n] && Lookup(after, keys[i]) == Lookup(next, keys[i]);
      }
    }
    forall key | key !in keys[..n + 1] ensures Lookup(after, key) == Lookup(values, key) {
      assert keys[..n + 1] == keys[..n] + [keys[n]];
      assert key !in keys[..n];
    }
  }

  lemma AllGroupsApplied(model: seq<Field>, values: map<string, Content>, commands: seq<Command>, keys: seq<string>,
                         groups: map<string, seq<Command>>, next: map<string, Content>)
    requires Grouped(keys, groups, commands) && GroupsApplied(model, values, commands, keys, next, |keys|)
    ensures ListsBecome(model, values, commands, next)
  {
    assert keys[..|keys|] == keys;
    forall key ensures GroupAfter(model, values, commands, key) == Ok(Lookup(next, key)) {
      if key in keys {
        var i :| 0 <= i < |keys| && keys[i] == key;
      } else {
        assert GroupOf(groups, commands, key);
      }
    }
  }

  // --- the whole patch ---

  function NotSingle(model: seq<Field>): Command -> bool {
    (c: Command) => !IsSingleField(model, c.key)
  }

  /** The commands of a field are all in one part. */
  lemma {:induction false} PartOf(model: seq<Field>, commands: seq<Command>, key: string)
    ensures var single := IsSingleField(model, key);
            && CommandsOf(Filter(commands, Single(model)), key) == (if single then CommandsOf(commands, key) else [])
            && CommandsOf(Filter(commands, NotSingle(model)), key) == (if single then [] else CommandsOf(commands, key))
  {
    if commands != [] {
      var n := |commands| - 1;
      PartOf(model, commands[..n], key);
      FilterAppend(Filter(commands[..n], Single(model)), commands[n], ForKey(key));
      FilterAppend(Filter(commands[..n], NotSingle(model)), commands[n], ForKey(key));
    }
  }

  /** Commands are of declared fields only. */
  lemma {:induction false} UndeclaredHasNone(model: seq<Field>, commands: seq<Command>, key: string)
    requires AllDeclared(model, commands) && !Declares(model, key)
    ensures CommandsOf(commands, key) == []
  {
    if commands != [] {
      var n := |commands| - 1;
      assert Declares(model, commands[n].key);
      forall i | 0 <= i < n ensures Declares(model, commands[..n][i].key) {
        assert Declares(model, commands[i].key);
      }
      UndeclaredHasNone(model, commands[..n], key);
    }
  }

  /** What the two stages make of a key is what its field makes of its commands. */
  lemma StagesAgree(model: seq<Field>, values: map<string, Content>, commands: seq<Command>, mid: map<string, Content>,
                    key: string)
    requires AllDeclared(model, commands)
    requires SingleAfter(Lookup(values, key), CommandsOf(Filter(commands, Single(model)), key)) == Ok(Lookup(mid, key))
    ensures GroupAfter(model, mid, Filter(commands, NotSingle(model)), key) ==
      if Declares(model, key) then FieldAfter(model, values, commands, key) else Ok(Lookup(values, key))
  {
    PartOf(model, commands, key);
    if !Declares(model, key) {
      UndeclaredHasNone(model, commands, key);
    }
  }

  /** A field that refuses its single commands refuses the batch. */
  lemma SingleRefuses(model: seq<Field>, values: map<string, Content>, commands: seq<Command>, key: string)
    requires AllDeclared(model, commands)
    requires SingleAfter(Lookup(values, key), CommandsOf(Filter(commands, Single(model)), key)).Rejected?
    ensures !FieldAccepts(model, values, commands, key)
  {
    PartOf(model, commands, key);
  }

  /** `applyLongMemoryPatch`, on any commands of the model's fields. */
  method ApplyLongMemoryPatch(model: seq<Field>, values: map<string, Content>, commands: seq<Command>)
    returns (result: Result<map<string, Content>>)
    requires AllDeclared(model, commands)
    ensures Patches(model, values, commands, result)
  {
    var singles, lists := Filter(commands, Single(model)), Filter(commands, NotSingle(model));
    var mid := ApplySingleCommands(values, singles);
    if mid.Rejected? {
      ghost var key :| !SingleAccepts(values, singles, key);
      SingleRefuses(model, values, commands, key);
      return Rejected;
    }
    result := ApplyGroups(model, mid.value, lists);
    forall key ensures GroupAfter(model, mid.value, lists, key) ==
      if Declares(model, key) then FieldAfter(model, values, commands, key) else Ok(Lookup(values, key))
    {
      assert SingleBecomes(values, singles, mid.value, key);
      StagesAgree(model, values, commands, mid.value, key);
    }
    if result.Rejected? {
      ghost var key :| GroupAfter(model, mid.value, lists, key).Rejected?;
      assert !FieldAccepts(model, values, commands, key);
    } else {
      forall key ensures FieldAccepts(model, values, commands, key) {
        assert GroupAfter(model, mid.value, lists, key).Ok?;
      }
      forall key ensures FieldBecomes(model, values, commands, result.value, key) {
        assert GroupAfter(model, mid.value, lists, key) == Ok(Lookup(result.value, key));
      }
    }
  }

  // --- what follows ---

  /** The same commands, the additions to each field in the same order. */
  ghost predicate Reordered(a: seq<Command>, b: seq<Command>) {
    multiset(a) == multiset(b) && forall key :: Added(CommandsOf(a, key)) == Added(CommandsOf(b, key))
  }

  /** Counts of a field's commands. */
  lemma CommandsPermute(a: seq<Command>, b: seq<Command>, key: string)
    requires multiset(a) == multiset(b)
    ensures multiset(CommandsOf(a, key)) == multiset(CommandsOf(b, key))
  {
    FilterPermutes(a, b, ForKey(key));
  }

  lemma SameSize(a: seq<Command>, b: seq<Command>)
    requires multiset(a) == multiset(b)
    ensures |a| == |b| && SameElements(a, b)
  {
    assert |multiset(a)| == |a| && |multiset(b)| == |b|;
    SameCountsSameElements(a, b);
  }

  lemma TargetsPermute(length: nat, a: seq<Command>, b: seq<Command>)
    requires multiset(a) == multiset(b) && TargetsFit(length, a)
    ensures TargetsFit(length, b)
  {
    FilterPermutes(a, b, Target());
    var x, y := Filter(a, Target()), Filter(b, Target());
    DistinctCarries(x, y, IndexOf());
    SameCountsSameElements(x, y);
    forall i | 0 <= i < |y| ensures 1 <= IndexAt(y[i]) <= length {
      assert y[i] in x;
    }
  }

  /** Where indices are distinct, an update is the only one of its item. */
  lemma {:induction false} OnlyUpdate(length: nat, commands: seq<Command>, item: string, i: nat)
    requires TargetsFit(length, commands) && i < |commands| && commands[i].UpdateItem?
    ensures Updated(item, commands, commands[i].index) == commands[i].value
  {
    var n := |commands| - 1;
    if i < n {
      TargetsFitPrefix(length, commands, n);
      OnlyUpdate(length, commands[..n], item, i);
      if IsTarget(commands[n]) {
        TwoTargetsDiffer(length, commands, i, n);
      }
    }
  }

  lemma TwoTargetsDiffer(length: nat, commands: seq<Command>, i: nat, j: nat)
    requires TargetsFit(length, commands) && i < j < |commands| && IsTarget(commands[i]) && IsTarget(commands[j])
    ensures IndexAt(commands[i]) != IndexAt(commands[j])
  {
    PlaceInFilter(commands, Target(), i);
    PlaceInFilter(commands, Target(), j);
    PlaceInFilter(commands[..j], Target(), i);
    assert commands[..j][..i] == commands[..i];
    var targets := Filter(commands, Target());
    var p, q := |Filter(commands[..i], Target())|, |Filter(commands[..j], Target())|;
    assert IndexOf()(targets[p]) != IndexOf()(targets[q]);
  }

  lemma {:induction false} NoUpdate(commands: seq<Command>, item: string, index: nat)
    requires forall i :: 0 <= i < |commands| && commands[i].UpdateItem? ==> commands[i].index != index
    ensures Updated(item, commands, index) == item
  {
    if commands != [] {
      NoUpdate(commands[..|commands| - 1], item, index);
    }
  }

  lemma UpdatesPermute(length: nat, a: seq<Command>, b: seq<Command>, item: string, index: nat)
    requires multiset(a) == multiset(b) && TargetsFit(length, a) && TargetsFit(length, b)
    ensures Updated(item, a, index) == Updated(item, b, index)
  {
    SameSize(a, b);
    if i :| 0 <= i < |a| && a[i].UpdateItem? && a[i].index == index {
      assert a[i] in b;
      var j :| 0 <= j < |b| && b[j] == a[i];
      OnlyUpdate(length, a, item, i);
      OnlyUpdate(length, b, item, j);
    } else {
      forall j | 0 <= j < |b| && b[j].UpdateItem? ensures b[j].index != index {
        assert b[j] in a;
      }
      NoUpdate(a, item, index);
      NoUpdate(b, item, index);
    }
  }

  lemma DeletesPermute(a: seq<Command>, b: seq<Command>, index: nat)
    requires SameElements(a, b)
    ensures Deletes(a, index) == Deletes(b, index)
  {
    if i :| 0 <= i < |a| && a[i].DeleteItem? && a[i].index == index {
      assert a[i] in b;
    }
    if j :| 0 <= j < |b| && b[j].DeleteItem? && b[j].index == index {
      assert b[j] in a;
    }
  }

  lemma {:induction false} KeptPermutes(length: nat, items: seq<string>, a: seq<Command>, b: seq<Command>, n: nat)
    requires multiset(a) == multiset(b) && TargetsFit(length, a) && TargetsFit(length, b) && n <= |items|
    ensures Kept(items, a, n) == Kept(items, b, n)
  {
    if n > 0 {
      SameSize(a, b);
      KeptPermutes(length, items, a, b, n - 1);
      DeletesPermute(a, b, n);
      UpdatesPermute(length, a, b, items[n - 1], n);
    }
  }

  /** A list does not see the order of the commands, but for its additions. */
  lemma ListReorders(items: seq<string>, maxItems: nat, a: seq<Command>, b: seq<Command>)
    requires multiset(a) == multiset(b) && Added(a) == Added(b)
    ensures ListAfter(items, maxItems, a) == ListAfter(items, maxItems, b)
  {
    if TargetsFit(|items|, a) {
      TargetsPermute(|items|, a, b);
      KeptPermutes(|items|, items, a, b, |items|);
    } else if TargetsFit(|items|, b) {
      TargetsPermute(|items|, b, a);
    }
  }

  lemma SingleReorders(slot: Slot, a: seq<Command>, b: seq<Command>)
    requires |a| == |b| && SameElements(a, b)
    ensures SingleAfter(slot, a) == SingleAfter(slot, b)
  {
    if |a| == 1 {
      assert a[0] in b;
    }
  }

  lemma FieldReorders(model: seq<Field>, values: map<string, Content>, a: seq<Command>, b: seq<Command>, key: string)
    requires Reordered(a, b) && Declares(model, key)
    ensures FieldAfter(model, values, a, key) == FieldAfter(model, values, b, key)
  {
    var x, y := CommandsOf(a, key), CommandsOf(b, key);
    assert Added(x) == Added(y);
    CommandsPermute(a, b, key);
    SameSize(x, y);
    match FieldOf(model, key).kind
    case SingleKind => SingleReorders(Lookup(values, key), x, y);
    case ListKind(maxItems) => ListReorders(ItemsAt(values, key), maxItems, x, y);
  }

  /** Indices mean the list before the patch: any reordering that keeps the order of each field's
      additions is accepted alike, with the same result. */
  lemma OrderDoesNotMatter(model: seq<Field>, values: map<string, Content>, a: seq<Command>, b: seq<Command>,
                           r: Result<map<string, Content>>, q: Result<map<string, Content>>)
    requires Reordered(a, b) && Patches(model, values, a, r) && Patches(model, values, b, q)
    ensures r == q
  {
    forall key ensures FieldAccepts(model, values, a, key) <==> FieldAccepts(model, values, b, key) {
      if Declares(model, key) {
        FieldReorders(model, values, a, b, key);
      }
    }
    if r.Ok? {
      forall key ensures Lookup(r.value, key) == Lookup(q.value, key) {
        assert FieldBecomes(model, values, a, r.value, key) && FieldBecomes(model, values, b, q.value, key);
        if Declares(model, key) {
          FieldReorders(model, values, a, b, key);
        }
      }
      SameLookups(r.value, q.value);
    }
  }

  lemma SameLookups(x: map<string, Content>, y: map<string, Content>)
    requires forall key :: Lookup(x, key) == Lookup(y, key)
    ensures x == y
  {
    forall key | key in x ensures key in y && y[key] == x[key] {
      assert Lookup(x, key) == Lookup(y, key);
    }
    forall key | key in y ensures key in x {
      assert Lookup(x, key) == Lookup(y, key);
    }
  }

  // --- what a patch leaves can be stored ---

  ghost predicate GoodValues(model: seq<Field>, values: map<string, Content>) {
    forall key :: key in values ==> GoodValue(model, key, values[key])
  }

  lemma {:induction false} UpdatedIsClean(model: seq<Field>, item: string, commands: seq<Command>, index: nat)
    requires AllShaped(model, commands) && Clean(item)
    ensures Clean(Updated(item, commands, index))
  {
    if commands != [] {
      var n := |commands| - 1;
      ShapedPrefix(model, commands, n);
      UpdatedIsClean(model, item, commands[..n], index);
      assert WellShaped(model, commands[n]);
    }
  }

  lemma CleanAppend(a: seq<string>, b: seq<string>)
    requires AllClean(a) && AllClean(b)
    ensures AllClean(a + b)
  {
    forall i | 0 <= i < |a + b| ensures Clean((a + b)[i]) {
      assert i < |a| ==> Clean(a[i]);
      assert i >= |a| ==> Clean(b[i - |a|]);
    }
  }

  lemma {:induction false} KeptIsClean(model: seq<Field>, items: seq<string>, commands: seq<Command>, n: nat)
    requires AllShaped(model, commands) && AllClean(items) && n <= |items|
    ensures AllClean(Kept(items, commands, n))
  {
    if n > 0 {
      KeptIsClean(model, items, commands, n - 1);
      assert Clean(items[n - 1]);
      UpdatedIsClean(model, items[n - 1], commands, n);
      CleanAppend(Kept(items, commands, n - 1), [Updated(items[n - 1], commands, n)]);
    }
  }

  lemma {:induction false} AddedIsClean(model: seq<Field>, commands: seq<Command>)
    requires AllShaped(model, commands)
    ensures AllClean(Added(commands))
  {
    if commands != [] {
      var n := |commands| - 1;
      ShapedPrefix(model, commands, n);
      AddedIsClean(model, commands[..n]);
      assert WellShaped(model, commands[n]);
      if commands[n].AddItem? {
        CleanAppend(Added(commands[..n]), [commands[n].value]);
      }
    }
  }

  lemma ShapedOf(model: seq<Field>, commands: seq<Command>, key: string)
    requires AllShaped(model, commands)
    ensures AllShaped(model, CommandsOf(commands, key))
    ensures forall i :: 0 <= i < |CommandsOf(commands, key)| ==> CommandsOf(commands, key)[i].key == key
  {
    var mine := CommandsOf(commands, key);
    forall k | 0 <= k < |mine| ensures WellShaped(model, mine[k]) && mine[k].key == key {
      var i := FilterFrom(commands, ForKey(key), k);
      assert WellShaped(model, commands[i]);
    }
  }

  lemma ListStaysClean(model: seq<Field>, items: seq<string>, maxItems: nat, commands: seq<Command>)
    requires AllShaped(model, commands) && AllClean(items) && ListAfter(items, maxItems, commands).Ok?
    ensures AllClean(ListAfter(items, maxItems, commands).value)
  {
    KeptIsClean(model, items, commands, |items|);
    AddedIsClean(model, commands);
    CleanAppend(Kept(items, commands, |items|), Added(commands));
  }

  ghost predicate GoodSlot(model: seq<Field>, key: string, slot: Slot) {
    slot.Full? ==> GoodValue(model, key, slot.content)
  }

  lemma SingleStaysGood(model: seq<Field>, slot: Slot, commands: seq<Command>, key: string)
    requires Declares(model, key) && FieldOf(model, key).kind.SingleKind? && GoodSlot(model, key, slot)
    requires commands != [] ==> WellShaped(model, commands[0])
    requires SingleAfter(slot, commands).Ok?
    ensures GoodSlot(model, key, SingleAfter(slot, commands).value)
  {
  }

  lemma ListStaysGood(model: seq<Field>, values: map<string, Content>, commands: seq<Command>, key: string,
                      maxItems: nat)
    requires AllShaped(model, commands) && GoodValues(model, values) && Declares(model, key)
    requires FieldOf(model, key).kind.ListKind? && ListSlotAfter(values, key, maxItems, commands).Ok?
    ensures GoodSlot(model, key, ListSlotAfter(values, key, maxItems, commands).value)
  {
    if commands != [] {
      var items := ItemsAt(values, key);
      assert AllClean(items);
      ListStaysClean(model, items, maxItems, commands);
    }
  }

  /** What a field becomes is of its kind and clean. */
  lemma FieldStaysGood(model: seq<Field>, values: map<string, Content>, commands: seq<Command>, key: string)
    requires AllShaped(model, commands) && GoodValues(model, values) && Declares(model, key)
    requires FieldAfter(model, values, commands, key).Ok?
    ensures GoodSlot(model, key, FieldAfter(model, values, commands, key).value)
  {
    var mine := CommandsOf(commands, key);
    ShapedOf(model, commands, key);
    match FieldOf(model, key).kind
    case SingleKind =>
      assert mine != [] ==> WellShaped(model, mine[0]);
      SingleStaysGood(model, Lookup(values, key), mine, key);
    case ListKind(maxItems) => ListStaysGood(model, values, mine, key, maxItems);
  }

  /** An accepted patch leaves values that survive storing and loading, orphans untouched. */
  lemma PatchedSurvives(model: seq<Field>, s: State, commands: seq<Command>, next: map<string, Content>)
    requires ValidModel(model) && WellFormed(model, s) && AllShaped(model, commands)
    requires Patches(model, s.values, commands, Ok(next))
    ensures WellFormed(model, s.(values := next))
    ensures Parse(model, Render(model, s.(values := next))) == Ok(s.(values := next))
  {
    forall key | key in next ensures GoodValue(model, key, next[key]) {
      assert FieldBecomes(model, s.values, commands, next, key) && FieldAccepts(model, s.values, commands, key);
      if Declares(model, key) {
        FieldStaysGood(model, s.values, commands, key);
      }
    }
    ParseUndoesRender(model, s.(values := next));
  }

  /** A list after an accepted patch: kept items and then additions, no item twice, and no more than
      the field allows unless there are fewer than before. */
  lemma ListBounds(model: seq<Field>, values: map<string, Content>, commands: seq<Command>, next: map<string, Content>,
                   key: string)
    requires Patches(model, values, commands, Ok(next)) && CommandsOf(commands, key) != []
    requires Declares(model, key) && FieldOf(model, key).kind.ListKind?
    ensures var before, after, mine := ItemsAt(values, key), ItemsAt(next, key), CommandsOf(commands, key);
            && after == Kept(before, mine, |before|) + Added(mine) && NoDuplicates(after)
            && (|after| <= FieldOf(model, key).kind.maxItems || |after| < |before|)
  {
    assert FieldAccepts(model, values, commands, key) && FieldBecomes(model, values, commands, next, key);
  }

  /** A field without commands keeps its content. */
  lemma UntouchedStays(model: seq<Field>, values: map<string, Content>, commands: seq<Command>,
                       next: map<string, Content>, key: string)
    requires Patches(model, values, commands, Ok(next)) && CommandsOf(commands, key) == []
    ensures Lookup(next, key) == Lookup(values, key)
  {
    assert FieldBecomes(model, values, commands, next, key);
  }
}
