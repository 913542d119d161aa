/** What an accepted batch makes of a list, said of its commands and items alone. */
module LongMemoryLists {
  import opened Outcome
  import opened Sorting
  import opened LongMemory
  import opened LongMemoryPatch
  import opened LongMemoryApply

  /** Positions in ascending order. */
  ghost predicate Rising(at: seq<nat>, bound: nat) {
    (forall k :: 0 <= k < |at| ==> at[k] < bound) && forall k, l :: 0 <= k < l < |at| ==> at[k] < at[l]
  }

  predicate DeletedAt(commands: seq<Command>, i: nat) {
    exists c :: 0 <= c < |commands| && commands[c].DeleteItem? && commands[c].index == i + 1
  }

  predicate UpdatedAt(commands: seq<Command>, i: nat, c: nat) {
    c < |commands| && commands[c].UpdateItem? && commands[c].index == i + 1
  }

  /** The text of the item at `i` once the updates are made: the command's, if one names it. */
  ghost predicate TextAt(before: seq<string>, commands: seq<Command>, i: nat, text: string)
    requires i < |before|
  {
    && (forall c: nat :: UpdatedAt(commands, i, c) ==> text == commands[c].value)
    && ((forall c: nat :: !UpdatedAt(commands, i, c)) ==> text == before[i])
  }

  /** These are the items no command deletes, in order. */
  ghost predicate Survivors(length: nat, commands: seq<Command>, kept: seq<nat>) {
    Rising(kept, length) && forall i :: 0 <= i < length ==> (i in kept <==> !DeletedAt(commands, i))
  }

  /** These are the commands that add, in order. */
  ghost predicate Additions(commands: seq<Command>, adds: seq<nat>) {
    Rising(adds, |commands|) && forall c :: 0 <= c < |commands| ==> (c in adds <==> commands[c].AddItem?)
  }

  /** And these those that delete. */
  ghost predicate Deletions(commands: seq<Command>, dels: seq<nat>) {
    Rising(dels, |commands|) && forall c :: 0 <= c < |commands| ==> (c in dels <==> commands[c].DeleteItem?)
  }

  /** The surviving items, each with its text after the updates, then the added ones in order; the
      list is shorter by an item a deletion and longer by one an addition. */
  ghost predicate Becomes(before: seq<string>, commands: seq<Command>, after: seq<string>, kept: seq<nat>,
                          adds: seq<nat>, dels: seq<nat>)
  {
    && Survivors(|before|, commands, kept) && Additions(commands, adds) && Deletions(commands, dels)
    && |kept| == |before| - |dels| && |after| == |kept| + |adds|
    && (forall k :: 0 <= k < |kept| ==> TextAt(before, commands, kept[k], after[k]))
    && (forall k :: 0 <= k < |adds| ==> after[|kept| + k] == commands[adds[k]].value)
  }

  lemma RisingAppend(at: seq<nat>, bound: nat, i: nat)
    requires Rising(at, bound) && bound <= i
    ensures Rising(at + [i], i + 1)
    ensures forall x :: x in at + [i] <==> x in at || x == i
  {
  }

  lemma {:induction false} AddedIs(commands: seq<Command>) returns (adds: seq<nat>)
    ensures Additions(commands, adds) && |Added(commands)| == |adds|
    ensures forall k :: 0 <= k < |adds| ==> Added(commands)[k] == commands[adds[k]].value
  {
    adds := [];
    if commands != [] {
      var n := |commands| - 1;
      adds := AddedIs(commands[..n]);
      var was := adds;
      if commands[n].AddItem? {
        RisingAppend(was, n, n);
        adds := was + [n];
      }
      assert forall c :: 0 <= c < n ==> commands[..n][c] == commands[c];
    }
  }

  lemma {:induction false} DeletionsAre(commands: seq<Command>) returns (dels: seq<nat>)
    ensures Deletions(commands, dels)
  {
    dels := [];
    if commands != [] {
      var n := |commands| - 1;
      dels := DeletionsAre(commands[..n]);
      var was := dels;
      if commands[n].DeleteItem? {
        RisingAppend(was, n, n);
        dels := was + [n];
      }
      assert forall c :: 0 <= c < n ==> commands[..n][c] == commands[c];
    }
  }

  lemma {:induction false} UpdatedIs(length: nat, before: seq<string>, commands: seq<Command>, i: nat)
    requires TargetsFit(length, commands) && i < |before|
    ensures TextAt(before, commands, i, Updated(before[i], commands, i + 1))
  {
    forall c: nat | UpdatedAt(commands, i, c) ensures Updated(before[i], commands, i + 1) == commands[c].value {
      OnlyUpdate(length, commands, before[i], c);
    }
    if forall c: nat :: !UpdatedAt(commands, i, c) {
      forall c | 0 <= c < |commands| && commands[c].UpdateItem? ensures commands[c].index != i + 1 {
        assert !UpdatedAt(commands, i, c);
      }
      NoUpdate(commands, before[i], i + 1);
    }
  }

  lemma {:induction false} KeptIs(before: seq<string>, commands: seq<Command>, n: nat) returns (kept: seq<nat>)
    requires n <= |before| && TargetsFit(|before|, commands)
    ensures Survivors(n, commands, kept) && |Kept(before, commands, n)| == |kept|
    ensures forall k :: 0 <= k < |kept| ==> TextAt(before, commands, kept[k], Kept(before, commands, n)[k])
  {
    kept := [];
    if n > 0 {
      kept := KeptIs(before, commands, n - 1);
      var was := kept;
      assert DeletedAt(commands, n - 1) <==> Deletes(commands, n);
      if !Deletes(commands, n) {
        UpdatedIs(|before|, before, commands, n - 1);
        RisingAppend(was, n - 1, n - 1);
        kept := was + [n - 1];
      }
    }
  }

  /** One deletion more takes one item more, if it names one still there. */
  lemma {:induction false} KeptShrinks(before: seq<string>, commands: seq<Command>, c: Command, n: nat)
    requires n <= |before|
    ensures |Kept(before, commands + [c], n)| == |Kept(before, commands, n)|
              - if c.DeleteItem? && 1 <= c.index <= n && !Deletes(commands, c.index) then 1 else 0
  {
    if n > 0 {
      KeptShrinks(before, commands, c, n - 1);
      DeletesAppend(commands, c, n);
    }
  }

  lemma DeletesAppend(commands: seq<Command>, c: Command, index: nat)
    ensures Deletes(commands + [c], index) <==> Deletes(commands, index) || (c.DeleteItem? && c.index == index)
  {
    var longer := commands + [c];
    assert longer[|commands|] == c && forall i :: 0 <= i < |commands| ==> longer[i] == commands[i];
  }

  /** An index named last was not named before. */
  lemma NotDeletedBefore(length: nat, commands: seq<Command>, c: Command)
    requires TargetsFit(length, commands + [c]) && c.DeleteItem?
    ensures 1 <= c.index <= length && !Deletes(commands, c.index)
  {
    var longer := commands + [c];
    assert longer[|commands|] == c && forall i :: 0 <= i < |commands| ==> longer[i] == commands[i];
    PlaceInFilter(longer, Target(), |commands|);
    forall i | 0 <= i < |commands| && commands[i].DeleteItem? ensures commands[i].index != c.index {
      TwoTargetsDiffer(length, longer, i, |commands|);
    }
  }

  lemma {:induction false} NothingKeptLost(before: seq<string>, n: nat)
    requires n <= |before|
    ensures |Kept(before, [], n)| == n
  {
    if n > 0 {
      NothingKeptLost(before, n - 1);
    }
  }

  /** There are no more rising positions than the bound. */
  lemma {:induction false} RisingLength(at: seq<nat>, bound: nat)
    requires Rising(at, bound)
    ensures |at| <= bound
  {
    if at != [] {
      var n := |at| - 1;
      RisingLength(at[..n], at[n]);
    }
  }

  /** Each deletion takes an item. */
  lemma {:induction false} DeletionsCount(before: seq<string>, commands: seq<Command>, dels: seq<nat>)
    requires TargetsFit(|before|, commands) && Deletions(commands, dels)
    ensures |Kept(before, commands, |before|)| == |before| - |dels|
  {
    if commands == [] {
      NothingKeptLost(before, |before|);
      RisingLength(dels, 0);
    } else {
      var n := |commands| - 1;
      var front, last := commands[..n], commands[n];
      assert commands == front + [last];
      TargetsFitPrefix(|before|, commands, n);
      KeptShrinks(before, front, last, |before|);
      if last.DeleteItem? {
        NotDeletedBefore(|before|, front, last);
      }
      var earlier := FrontOf(commands, dels);
      DeletionsCount(before, front, earlier);
    }
  }

  lemma LargestIsLast(at: seq<nat>, bound: nat, k: nat)
    requires Rising(at, bound) && k < |at| && at[k] == bound - 1
    ensures k == |at| - 1
  {
    var last := |at| - 1;
    assert at[last] < bound;
  }

  /** The deletions but for the last command. */
  lemma FrontOf(commands: seq<Command>, dels: seq<nat>) returns (front: seq<nat>)
    requires commands != [] && Deletions(commands, dels)
    ensures Deletions(commands[..|commands| - 1], front)
    ensures |front| == |dels| - if commands[|commands| - 1].DeleteItem? then 1 else 0
  {
    var n := |commands| - 1;
    if commands[n].DeleteItem? {
      assert n in dels;
      var k :| 0 <= k < |dels| && dels[k] == n;
      LargestIsLast(dels, n + 1, k);
      front := dels[..k];
      assert dels == front + [n];
    } else {
      front := dels;
      assert n !in dels;
    }
  }

  // --- which batches are accepted ---

  /** Commands other than additions name items of the list, each a different one. */
  predicate NamesRightly(length: nat, commands: seq<Command>) {
    && (forall c :: 0 <= c < |commands| && !commands[c].AddItem? ==>
          (commands[c].UpdateItem? || commands[c].DeleteItem?) && 1 <= commands[c].index <= length)
    && forall c, d :: 0 <= c < d < |commands| && !commands[c].AddItem? && !commands[d].AddItem? ==>
         commands[c].index != commands[d].index
  }

  /** Two kept elements were kept from two places, in this order. */
  lemma {:induction false} TwoFromFilter<T>(s: seq<T>, keep: T -> bool, k: nat, l: nat) returns (i: nat, j: nat)
    requires k < l < |Filter(s, keep)|
    ensures i < j < |s| && keep(s[i]) && keep(s[j]) && Filter(s, keep)[k] == s[i] && Filter(s, keep)[l] == s[j]
  {
    var n := |s| - 1;
    if l < |Filter(s[..n], keep)| {
      i, j := TwoFromFilter(s[..n], keep, k, l);
    } else {
      i := FilterFrom(s[..n], keep, k);
      j := n;
    }
  }

  lemma TargetsFitIff(length: nat, commands: seq<Command>)
    ensures TargetsFit(length, commands) <==> NamesRightly(length, commands)
  {
    var targets := Filter(commands, Target());
    if TargetsFit(length, commands) {
      forall c | 0 <= c < |commands| && !commands[c].AddItem?
        ensures (commands[c].UpdateItem? || commands[c].DeleteItem?) && 1 <= commands[c].index <= length
      {
        PlaceInFilter(commands, Target(), c);
      }
      forall c, d | 0 <= c < d < |commands| && !commands[c].AddItem? && !commands[d].AddItem?
        ensures commands[c].index != commands[d].index
      {
        TwoTargetsDiffer(length, commands, c, d);
      }
    }
    if NamesRightly(length, commands) {
      forall k | 0 <= k < |targets| ensures 1 <= IndexAt(targets[k]) <= length {
        var c := FilterFrom(commands, Target(), k);
      }
      forall k, l | 0 <= k < l < |targets| ensures IndexOf()(targets[k]) != IndexOf()(targets[l]) {
        var c, d := TwoFromFilter(commands, Target(), k, l);
      }
    }
  }

  /** What a batch makes of a list that its commands name rightly, and whether it is accepted: what
      it becomes must hold no item twice, and no more than allowed unless it is shorter than before. */
  lemma ListBecomes(before: seq<string>, maxItems: nat, commands: seq<Command>)
    returns (after: seq<string>, kept: seq<nat>, adds: seq<nat>, dels: seq<nat>)
    ensures !NamesRightly(|before|, commands) ==> ListAfter(before, maxItems, commands).Rejected?
    ensures NamesRightly(|before|, commands) ==>
      && Becomes(before, commands, after, kept, adds, dels)
      && ListAfter(before, maxItems, commands) ==
           if NoDuplicates(after) && (|after| <= maxItems || |after| < |before|) then Ok(after) else Rejected
  {
    TargetsFitIff(|before|, commands);
    after, kept, adds, dels := [], [], [], [];
    if NamesRightly(|before|, commands) {
      after := Kept(before, commands, |before|) + Added(commands);
      kept := KeptIs(before, commands, |before|);
      adds := AddedIs(commands);
      dels := DeletionsAre(commands);
      DeletionsCount(before, commands, dels);
    }
  }

  /** No two commands are of this field, and one that sets nothing finds something to clear. */
  predicate ChangesOnce(values: map<string, Content>, commands: seq<Command>, key: string) {
    && (forall c, d :: 0 <= c < d < |commands| ==> commands[c].key != key || commands[d].key != key)
    && forall c :: 0 <= c < |commands| && commands[c].key == key ==>
         commands[c].SetSingle? || commands[c].UpdateItem? || key in values
  }

  /** What a command makes of a single field. */
  predicate Sets(c: Command, slot: Slot) {
    if c.SetSingle? || c.UpdateItem? then slot == Full(Text(c.value)) else slot == Empty
  }

  /** A single field accepts exactly the batches that change it once or not at all, and then is what
      its command says. */
  lemma SingleBecomesIff(values: map<string, Content>, commands: seq<Command>, key: string)
    ensures var after := SingleAfter(Lookup(values, key), CommandsOf(commands, key));
            && (after.Ok? <==> ChangesOnce(values, commands, key))
            && (after.Ok? ==> forall c :: 0 <= c < |commands| && commands[c].key == key ==>
                  Sets(commands[c], after.value))
  {
    var mine := CommandsOf(commands, key);
    forall c | 0 <= c < |commands| && commands[c].key == key ensures commands[c] in mine {
      PlaceInFilter(commands, ForKey(key), c);
    }
    if |mine| > 1 {
      var c, d := TwoFromFilter(commands, ForKey(key), 0, 1);
    } else {
      if |mine| == 1 {
        var c := FilterFrom(commands, ForKey(key), 0);
      }
      forall c, d | 0 <= c < d < |commands| ensures commands[c].key != key || commands[d].key != key {
        if commands[c].key == key && commands[d].key == key {
          PlaceInFilter(commands, ForKey(key), d);
          PlaceInFilter(commands[..d], ForKey(key), c);
          assert false;
        }
      }
    }
  }

  /** A patch makes exactly this of every list it changes. */
  lemma PatchedList(model: seq<Field>, values: map<string, Content>, commands: seq<Command>,
                    next: map<string, Content>, key: string)
    returns (kept: seq<nat>, adds: seq<nat>, dels: seq<nat>)
    requires Patches(model, values, commands, Ok(next)) && CommandsOf(commands, key) != []
    requires Declares(model, key) && FieldOf(model, key).kind.ListKind?
    ensures Becomes(ItemsAt(values, key), CommandsOf(commands, key), ItemsAt(next, key), kept, adds, dels)
    ensures key in next <==> ItemsAt(next, key) != []
  {
    assert FieldAccepts(model, values, commands, key) && FieldBecomes(model, values, commands, next, key);
    var after;
    after, kept, adds, dels :=
      ListBecomes(ItemsAt(values, key), FieldOf(model, key).kind.maxItems, CommandsOf(commands, key));
  }

  /** And this of every single field. */
  lemma PatchedSingle(model: seq<Field>, values: map<string, Content>, commands: seq<Command>,
                      next: map<string, Content>, key: string)
    requires Patches(model, values, commands, Ok(next))
    requires Declares(model, key) && FieldOf(model, key).kind.SingleKind?
    ensures ChangesOnce(values, commands, key)
    ensures forall c :: 0 <= c < |commands| && commands[c].key == key ==> Sets(commands[c], Lookup(next, key))
  {
    assert FieldAccepts(model, values, commands, key) && FieldBecomes(model, values, commands, next, key);
    SingleBecomesIff(values, commands, key);
  }

  /** The list part of a batch is accepted. */
  ghost predicate ListAccepts(before: seq<string>, maxItems: nat, commands: seq<Command>) {
    commands != [] ==>
      && NamesRightly(|before|, commands)
      && exists after, kept, adds, dels ::
           && Becomes(before, commands, after, kept, adds, dels) && NoDuplicates(after)
           && (|after| <= maxItems || |after| < |before|)
  }

  /** Positions with the same members are the same. */
  lemma RisingIsUnique(a: seq<nat>, b: seq<nat>, bound: nat)
    requires Rising(a, bound) && Rising(b, bound) && forall i :: 0 <= i < bound ==> (i in a <==> i in b)
    ensures a == b
  {
    var at := (i: nat) => i as int;
    assert SameElements(a, b) by {
      forall i | i in a ensures i in b {
      }
      forall i | i in b ensures i in a {
      }
    }
    StrictIsUnique(a, b, at);
  }

  /** A batch makes one list only. */
  lemma BecomesOne(before: seq<string>, commands: seq<Command>, after: seq<string>, kept: seq<nat>, adds: seq<nat>,
                   dels: seq<nat>, after': seq<string>, kept': seq<nat>, adds': seq<nat>, dels': seq<nat>)
    requires Becomes(before, commands, after, kept, adds, dels)
    requires Becomes(before, commands, after', kept', adds', dels')
    ensures after == after'
  {
    RisingIsUnique(kept, kept', |before|);
    RisingIsUnique(adds, adds', |commands|);
    forall k | 0 <= k < |kept| ensures after[k] == after'[k] {
      assert TextAt(before, commands, kept[k], after[k]) && TextAt(before, commands, kept[k], after'[k]);
    }
    forall k | |kept| <= k < |after| ensures after[k] == after'[k] {
      assert after[|kept| + (k - |kept|)] == commands[adds[k - |kept|]].value;
    }
  }

  lemma ListAcceptsIff(before: seq<string>, maxItems: nat, commands: seq<Command>)
    requires commands != []
    ensures ListAfter(before, maxItems, commands).Ok? <==> ListAccepts(before, maxItems, commands)
  {
    var after, kept, adds, dels := ListBecomes(before, maxItems, commands);
    forall after', kept', adds', dels' | NamesRightly(|before|, commands)
        && Becomes(before, commands, after', kept', adds', dels')
      ensures after' == after
    {
      BecomesOne(before, commands, after, kept, adds, dels, after', kept', adds', dels');
    }
  }

  /** What one field asks of a batch. */
  ghost predicate Accepts(model: seq<Field>, values: map<string, Content>, commands: seq<Command>, key: string)
    requires Declares(model, key)
  {
    match FieldOf(model, key).kind
    case SingleKind => ChangesOnce(values, commands, key)
    case ListKind(maxItems) => ListAccepts(ItemsAt(values, key), maxItems, CommandsOf(commands, key))
  }

  /** A patch is accepted exactly if every field of the model accepts it in this sense. */
  lemma PatchAcceptedIff(model: seq<Field>, values: map<string, Content>, commands: seq<Command>,
                         result: Result<map<string, Content>>)
    requires Patches(model, values, commands, result)
    ensures result.Ok? <==> forall key :: Declares(model, key) ==> Accepts(model, values, commands, key)
  {
    forall key | Declares(model, key)
      ensures FieldAccepts(model, values, commands, key) <==> Accepts(model, values, commands, key)
    {
      SingleBecomesIff(values, commands, key);
      if FieldOf(model, key).kind.ListKind? && CommandsOf(commands, key) != [] {
        ListAcceptsIff(ItemsAt(values, key), FieldOf(model, key).kind.maxItems, CommandsOf(commands, key));
      }
    }
  }
}
