/** Patches of the long memory: commands that change fields, their indices taken from the list as it
    was before the patch. */
module LongMemoryPatch {
  import opened Outcome
  import opened Sorting
  import opened LongMemory

  /** An ADD, an UPDATE or a DELETE; `SetSingle` and `ClearSingle` are those without an index. */
  datatype Command =
    | SetSingle(key: string, value: string)
    | ClearSingle(key: string)
    | AddItem(key: string, value: string)
    | UpdateItem(key: string, index: nat, value: string)
    | DeleteItem(key: string, index: nat)

  predicate ForSingle(c: Command) {
    c.SetSingle? || c.ClearSingle?
  }

  predicate IsUpdate(c: Command) {
    c.SetSingle? || c.UpdateItem?
  }

  /** Anything but an ADD is checked against the list. */
  predicate IsTarget(c: Command) {
    !c.AddItem?
  }

  /** A missing index compares as zero does. */
  function IndexAt(c: Command): nat {
    if c.UpdateItem? || c.DeleteItem? then c.index else 0
  }

  function IndexOf(): Command -> int {
    (c: Command) => IndexAt(c)
  }

  function Target(): Command -> bool {
    (c: Command) => IsTarget(c)
  }

  predicate IsSingleField(model: seq<Field>, key: string) {
    Declares(model, key) && FieldOf(model, key).kind.SingleKind?
  }

  function Single(model: seq<Field>): Command -> bool {
    (c: Command) => IsSingleField(model, c.key)
  }

  function ForKey(key: string): Command -> bool {
    (c: Command) => c.key == key
  }

  function CommandsOf(commands: seq<Command>, key: string): seq<Command> {
    Filter(commands, ForKey(key))
  }

  predicate AllDeclared(model: seq<Field>, commands: seq<Command>) {
    forall i {:trigger Declares(model, commands[i].key)} :: 0 <= i < |commands| ==> Declares(model, commands[i].key)
  }

  /** What the parser makes sure of: a declared field, a command of its kind, a clean value. */
  predicate WellShaped(model: seq<Field>, c: Command) {
    && Declares(model, c.key) && ForSingle(c) == FieldOf(model, c.key).kind.SingleKind?
    && (c.SetSingle? || c.AddItem? || c.UpdateItem? ==> Clean(c.value))
  }

  predicate AllShaped(model: seq<Field>, commands: seq<Command>) {
    forall i {:trigger WellShaped(model, commands[i])} :: 0 <= i < |commands| ==> WellShaped(model, commands[i])
  }

  lemma ShapedAreDeclared(model: seq<Field>, commands: seq<Command>)
    requires AllShaped(model, commands)
    ensures AllDeclared(model, commands)
  {
    forall i | 0 <= i < |commands| ensures Declares(model, commands[i].key) {
      assert WellShaped(model, commands[i]);
    }
  }

  lemma ShapedPrefix(model: seq<Field>, commands: seq<Command>, n: nat)
    requires AllShaped(model, commands) && n <= |commands|
    ensures AllShaped(model, commands[..n])
  {
    forall i | 0 <= i < n ensures WellShaped(model, commands[..n][i]) {
      assert WellShaped(model, commands[i]);
    }
  }

  /** A field's content, or nothing. */
  datatype Slot = Empty | Full(content: Content)

  function Lookup(values: map<string, Content>, key: string): Slot {
    if key in values then Full(values[key]) else Empty
  }

  function Store(values: map<string, Content>, key: string, slot: Slot): map<string, Content> {
    if slot.Full? then values[key := slot.content] else values - {key}
  }

  // --- what a patch does to one field ---

  /** A single field is changed at most once, and cleared only if it is set. */
  function SingleAfter(slot: Slot, commands: seq<Command>): Result<Slot> {
    if commands == [] then Ok(slot)
    else if |commands| > 1 then Rejected
    else if IsUpdate(commands[0]) then Ok(Full(Text(commands[0].value)))
    else if slot.Empty? then Rejected else Ok(Empty)
  }

  /** Indices point into the list as it was, and none is named twice. */
  ghost predicate TargetsFit(length: nat, commands: seq<Command>) {
    var targets := Filter(commands, Target());
    && (forall i :: 0 <= i < |targets| ==> 1 <= IndexAt(targets[i]) <= length)
    && PairwiseDistinct(targets, IndexOf())
  }

  predicate Deletes(commands: seq<Command>, index: nat) {
    exists i :: 0 <= i < |commands| && commands[i].DeleteItem? && commands[i].index == index
  }

  /** The item at an index once the updates are made. */
  function Updated(item: string, commands: seq<Command>, index: nat): string {
    if commands == [] then item
    else
      var n := |commands| - 1;
      if commands[n].UpdateItem? && commands[n].index == index then commands[n].value
      else Updated(item, commands[..n], index)
  }

  /** What is left of the first items: updated where they are named, deleted ones dropped. */
  function Kept(items: seq<string>, commands: seq<Command>, n: nat): seq<string>
    requires n <= |items|
  {
    if n == 0 then []
    else if Deletes(commands, n) then Kept(items, commands, n - 1)
    else Kept(items, commands, n - 1) + [Updated(items[n - 1], commands, n)]
  }

  function Added(commands: seq<Command>): seq<string> {
    if commands == [] then []
    else
      var n := |commands| - 1;
      if commands[n].AddItem? then Added(commands[..n]) + [commands[n].value] else Added(commands[..n])
  }

  ghost predicate NoDuplicates(items: seq<string>) {
    forall i, j :: 0 <= i < j < |items| ==> items[i] != items[j]
  }

  /** The kept items, then the additions: all different, and not too many unless fewer than before. */
  ghost function ListAfter(items: seq<string>, maxItems: nat, commands: seq<Command>): Result<seq<string>> {
    if !TargetsFit(|items|, commands) then Rejected
    else
      var after := Kept(items, commands, |items|) + Added(commands);
      if !NoDuplicates(after) || (|after| > maxItems && |after| >= |items|) then Rejected else Ok(after)
  }

  /** A text spreads into its characters. */
  function Characters(text: string): seq<string> {
    seq(|text|, i requires 0 <= i < |text| => [text[i]])
  }

  /** What a list command finds: nothing, the items, or a text where a list should be. */
  function ItemsAt(values: map<string, Content>, key: string): seq<string> {
    if key !in values then [] else if values[key].Items? then values[key].items else Characters(values[key].text)
  }

  function SlotOf(items: seq<string>): Slot {
    if items == [] then Empty else Full(Items(items))
  }

  ghost function ListSlotAfter(values: map<string, Content>, key: string, maxItems: nat,
                               commands: seq<Command>): Result<Slot>
  {
    if commands == [] then Ok(Lookup(values, key))
    else
      var items :- ListAfter(ItemsAt(values, key), maxItems, commands);
      Ok(SlotOf(items))
  }

  ghost function FieldAfter(model: seq<Field>, values: map<string, Content>, commands: seq<Command>,
                            key: string): Result<Slot>
    requires Declares(model, key)
  {
    match FieldOf(model, key).kind
    case SingleKind => SingleAfter(Lookup(values, key), CommandsOf(commands, key))
    case ListKind(maxItems) => ListSlotAfter(values, key, maxItems, CommandsOf(commands, key))
  }

  ghost predicate FieldAccepts(model: seq<Field>, values: map<string, Content>, commands: seq<Command>, key: string) {
    Declares(model, key) ==> FieldAfter(model, values, commands, key).Ok?
  }

  ghost predicate FieldBecomes(model: seq<Field>, values: map<string, Content>, commands: seq<Command>,
                               next: map<string, Content>, key: string)
  {
    Lookup(next, key) == if Declares(model, key) && FieldAfter(model, values, commands, key).Ok?
                         then FieldAfter(model, values, commands, key).value else Lookup(values, key)
  }

  /** A batch is accepted when every field accepts its part of it; each field then becomes what its
      part makes of it, and nothing else changes. */
  ghost predicate Patches(model: seq<Field>, values: map<string, Content>, commands: seq<Command>,
                          result: Result<map<string, Content>>)
  {
    && (result.Ok? <==> forall key :: FieldAccepts(model, values, commands, key))
    && (result.Ok? ==> forall key :: FieldBecomes(model, values, commands, result.value, key))
  }

  // --- lists ---

  /** The indices named so far. */
  ghost predicate Names(targeted: set<nat>, commands: seq<Command>) {
    forall index :: index in targeted <==>
        exists i :: 0 <= i < |commands| && IsTarget(commands[i]) && IndexAt(commands[i]) == index
  }

  lemma TargetsAppend(length: nat, commands: seq<Command>, c: Command, targeted: set<nat>)
    requires Names(targeted, commands) && TargetsFit(length, commands)
    ensures TargetsFit(length, commands + [c]) <==>
        (IsTarget(c) ==> 1 <= IndexAt(c) <= length && IndexAt(c) !in targeted)
  {
    var targets := Filter(commands, Target());
    FilterAppend(commands, c, Target());
    if IsTarget(c) {
      if IndexAt(c) in targeted {
        var i :| 0 <= i < |commands| && IsTarget(commands[i]) && IndexAt(commands[i]) == IndexAt(c);
        PlaceInFilter(commands, Target(), i);
        var p := |Filter(commands[..i], Target())|;
        assert (targets + [c])[p] == commands[i] && (targets + [c])[|targets|] == c;
      } else {
        forall k | 0 <= k < |targets| ensures IndexAt(targets[k]) != IndexAt(c) {
          var i := FilterFrom(commands, Target(), k);
        }
      }
      assert (targets + [c])[|targets|] == c;
      assert forall k :: 0 <= k < |targets| ==> (targets + [c])[k] == targets[k];
    }
  }

  lemma NamesAppend(targeted: set<nat>, commands: seq<Command>, c: Command)
    requires Names(targeted, commands)
    ensures Names(if IsTarget(c) then targeted + {IndexAt(c)} else targeted, commands + [c])
  {
    var longer := commands + [c];
    assert longer[|commands|] == c && forall i :: 0 <= i < |commands| ==> longer[i] == commands[i];
  }

  /** A batch whose start names a wrong index names one. */
  lemma TargetsFitPrefix(length: nat, commands: seq<Command>, i: nat)
    requires i <= |commands| && TargetsFit(length, commands)
    ensures TargetsFit(length, commands[..i])
  {
    FilterPrefix(commands, Target(), i);
  }

  /** Items as they are while the updates of a batch are made. */
  ghost predicate ItemsUpdated(items: seq<string>, before: seq<string>, commands: seq<Command>) {
    |items| == |before| && forall k :: 0 <= k < |items| ==> items[k] == Updated(before[k], commands, k + 1)
  }

  /** The first loop of `applyListCommands`: indices are checked, updates made in place. */
  method UpdateItems(before: seq<string>, commands: seq<Command>) returns (result: Result<seq<string>>)
    ensures result.Ok? <==> TargetsFit(|before|, commands)
    ensures result.Ok? ==> ItemsUpdated(result.value, before, commands)
  {
    var items := before;
    var targeted: set<nat> := {};
    for i := 0 to |commands|
      invariant TargetsFit(|before|, commands[..i]) && Names(targeted, commands[..i])
      invariant ItemsUpdated(items, before, commands[..i])
    {
      var c := commands[i];
      assert commands[..i + 1] == commands[..i] + [c];
      TargetsAppend(|before|, commands[..i], c, targeted);
      NamesAppend(targeted, commands[..i], c);
      UpdatesAppend(items, before, commands[..i], c);
      if !IsTarget(c) {
        continue;
      }
      var index := IndexAt(c);
      if index < 1 || index > |items| || index in targeted {
        if TargetsFit(|before|, commands) {
          TargetsFitPrefix(|before|, commands, i + 1);
        }
        return Rejected;
      }
      targeted := targeted + {index};
      if c.UpdateItem? {
        items := items[index - 1 := c.value];
      }
    }
    assert commands[..|commands|] == commands;
    result := Ok(items);
  }

  lemma UpdatesAppend(items: seq<string>, before: seq<string>, commands: seq<Command>, c: Command)
    requires ItemsUpdated(items, before, commands)
    ensures !c.UpdateItem? ==> ItemsUpdated(items, before, commands + [c])
    ensures c.UpdateItem? && 1 <= c.index <= |items| ==>
        ItemsUpdated(items[c.index - 1 := c.value], before, commands + [c])
  {
    assert (commands + [c])[..|commands|] == commands;
  }

  /** `new Set(result).size !== result.length`. */
  method HasDuplicates(items: seq<string>) returns (found: bool)
    ensures found <==> !NoDuplicates(items)
  {
    var seen: set<string> := {};
    for i := 0 to |items|
      invariant seen == set k | 0 <= k < i :: items[k]
      invariant NoDuplicates(items[..i])
    {
      if items[i] in seen {
        var k :| 0 <= k < i && items[k] == items[i];
        return true;
      }
      seen := seen + {items[i]};
    }
    found := false;
    assert items[..|items|] == items;
  }

  /** `applyListCommands`, on the items of a field. */
  method ApplyListCommands(before: seq<string>, maxItems: nat, commands: seq<Command>)
    returns (result: Result<seq<string>>)
    ensures result == ListAfter(before, maxItems, commands)
  {
    var items :- UpdateItems(before, commands);
    var deleted := set i | 0 <= i < |commands| && commands[i].DeleteItem? :: commands[i].index;
    var kept: seq<string> := [];
    for i := 0 to |items|
      invariant kept == Kept(before, commands, i)
    {
      if i + 1 !in deleted {
        kept := kept + [items[i]];
      }
    }
    var after := kept + Added(commands);
    var duplicates := HasDuplicates(after);
    if duplicates || (|after| > maxItems && |after| >= |before|) {
      return Rejected;
    }
    result := Ok(after);
  }
}
