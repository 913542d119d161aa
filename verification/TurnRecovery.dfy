/** Recovery of turn events that were committed with their lifecycle but never reached the
    outbox journal. */
module TurnRecovery {
  import opened Outcome
  import opened Text
  import opened Outbox
  import opened OutboxOperations
  import opened OutboxSequence
  import History = OutboxHistory

  /** A command receipt; `turnEvent` says whether its type is one of the turn events. */
  datatype Receipt = Receipt(turnEvent: bool, eventId: string, envelope: Envelope, committedAt: Stamp)

  /** `integral` stands for the integrity check of the lifecycle record. */
  datatype Lifecycle = Lifecycle(integral: bool, receipts: seq<Receipt>)

  /** The ids some REMOVE record of the journal names. */
  function Removed(journal: seq<Record>): set<string> {
    set i | 0 <= i < |journal| && journal[i].Remove? :: journal[i].eventId
  }

  /** What recovery decides about one receipt. */
  datatype Verdict = Skip | Conflict | Restore

  function Judge(committed: seq<Entry>, removed: set<string>, checkpoint: Checkpoint, r: Receipt): Verdict {
    if !r.turnEvent then Skip
    else
      var i := IndexOf(committed, r.eventId);
      if i < |committed| then
        if committed[i].envelope == r.envelope && committed[i].committedAt == r.committedAt then Skip else Conflict
      else
        var key := SequenceKey(r.envelope.domain, r.envelope.scopeId);
        if key.Rejected? then Conflict
        else if r.eventId in removed || r.envelope.sequence <= Floor(checkpoint, key.value) then Skip
        else Restore
  }

  function CommitOf(r: Receipt): Record {
    Commit(r.eventId, r.envelope, r.committedAt)
  }

  /** The commits recovery appends. */
  function Additions(committed: seq<Entry>, removed: set<string>, checkpoint: Checkpoint, receipts: seq<Receipt>)
    : Result<seq<Record>>
  {
    if receipts == [] then Ok([])
    else
      var before :- Additions(committed, removed, checkpoint, receipts[..|receipts| - 1]);
      var r := receipts[|receipts| - 1];
      match Judge(committed, removed, checkpoint, r)
      case Skip => Ok(before)
      case Conflict => Rejected
      case Restore => Ok(before + [CommitOf(r)])
  }

  datatype Recovery = Recovery(records: seq<Record>, added: nat)

  function Recover(journal: seq<Record>, lifecycle: Lifecycle, checkpoint: Checkpoint): Result<Recovery> {
    if !lifecycle.integral then Rejected
    else
      var committed :- Project(journal);
      var additions :- Additions(committed, Removed(journal), checkpoint, lifecycle.receipts);
      if Project(journal + additions).Ok? then Ok(Recovery(journal + additions, |additions|)) else Rejected
  }

  lemma {:induction false} ConflictSticks(committed: seq<Entry>, removed: set<string>, checkpoint: Checkpoint,
                                          receipts: seq<Receipt>, k: nat)
    requires k <= |receipts| && Additions(committed, removed, checkpoint, receipts[..k]).Rejected?
    ensures Additions(committed, removed, checkpoint, receipts).Rejected?
    decreases |receipts| - k
  {
    if k < |receipts| {
      assert receipts[..k + 1][..k] == receipts[..k];
      ConflictSticks(committed, removed, checkpoint, receipts, k + 1);
    } else {
      assert receipts[..k] == receipts;
    }
  }

  lemma AdditionsOf(s: seq<Entry>, removed: set<string>, checkpoint: Checkpoint, before: seq<Receipt>, last: Receipt)
    requires Additions(s, removed, checkpoint, before).Ok?
    ensures Additions(s, removed, checkpoint, before + [last]) ==
              match Judge(s, removed, checkpoint, last)
              case Skip => Additions(s, removed, checkpoint, before)
              case Conflict => Rejected
              case Restore => Ok(Additions(s, removed, checkpoint, before).value + [CommitOf(last)])
  {
    assert (before + [last])[..|before|] == before;
  }

  lemma AdditionsNext(s: seq<Entry>, removed: set<string>, checkpoint: Checkpoint, receipts: seq<Receipt>, k: nat)
    requires k < |receipts| && Additions(s, removed, checkpoint, receipts[..k]).Ok?
    ensures Additions(s, removed, checkpoint, receipts[..k + 1]) ==
              match Judge(s, removed, checkpoint, receipts[k])
              case Skip => Additions(s, removed, checkpoint, receipts[..k])
              case Conflict => Rejected
              case Restore => Ok(Additions(s, removed, checkpoint, receipts[..k]).value + [CommitOf(receipts[k])])
  {
    assert receipts[..k + 1] == receipts[..k] + [receipts[k]];
    AdditionsOf(s, removed, checkpoint, receipts[..k], receipts[k]);
  }

  method ProjectCommittedTurnOutbox(journal: seq<Record>, lifecycle: Lifecycle, checkpoint: Checkpoint)
    returns (result: Result<Recovery>)
    ensures result == Recover(journal, lifecycle, checkpoint)
  {
    if !lifecycle.integral {
      return Rejected;
    }
    var projected := ProjectJournal(journal);
    if projected.Rejected? {
      return Rejected;
    }
    var committed, removed := projected.value, Removed(journal);
    var additions: seq<Record> := [];
    var receipts := lifecycle.receipts;
    var k := 0;
    while k < |receipts|
      invariant 0 <= k <= |receipts|
      invariant Additions(committed, removed, checkpoint, receipts[..k]) == Ok(additions)
    {
      AdditionsNext(committed, removed, checkpoint, receipts, k);
      match Judge(committed, removed, checkpoint, receipts[k]) {
        case Skip =>
        case Conflict =>
          ConflictSticks(committed, removed, checkpoint, receipts, k + 1);
          return Rejected;
        case Restore =>
          additions := additions + [CommitOf(receipts[k])];
      }
      k := k + 1;
    }
    assert receipts[..k] == receipts;
    var check := ProjectJournal(journal + additions);
    result := if check.Ok? then Ok(Recovery(journal + additions, |additions|)) else Rejected;
  }

  // --- appended commits ---

  ghost predicate AllCommits(records: seq<Record>) {
    forall r :: r in records ==> r.Commit?
  }

  /** The outbox holds this event with this content. */
  predicate Holds(s: seq<Entry>, eventId: string, envelope: Envelope, committedAt: Stamp) {
    var j := IndexOf(s, eventId);
    j < |s| && s[j].envelope == envelope && s[j].committedAt == committedAt
  }

  lemma PrefixKeeps(s: seq<Entry>, s': seq<Entry>, eventId: string)
    requires s <= s' && IndexOf(s, eventId) < |s|
    ensures IndexOf(s', eventId) == IndexOf(s, eventId)
  {
    assert forall i :: 0 <= i < |s| ==> s'[i] == s[i];
  }

  lemma CommitExtends(s: seq<Entry>, r: Record)
    requires r.Commit? && Apply(s, r).Ok?
    ensures var s' := Apply(s, r).value;
            s <= s' && Holds(s', r.eventId, r.envelope, r.committedAt) && Ids(s') == Ids(s) + {r.eventId}
  {
    var s', i := Apply(s, r).value, IndexOf(s, r.eventId);
    if i == |s| {
      assert forall k :: 0 <= k < |s| ==> s'[k] == s[k];
      assert s'[|s|].eventId == r.eventId;
      assert IndexOf(s', r.eventId) == |s|;
      IdsAppend(s, s'[|s|]);
    } else {
      assert s[i].eventId in Ids(s);
    }
  }

  function CommitIds(commits: seq<Record>): set<string> {
    set r | r in commits :: r.eventId
  }

  /** Accepted commits keep what was there and add exactly their own events. */
  lemma {:induction false} CommitsExtend(journal: seq<Record>, commits: seq<Record>)
    requires AllCommits(commits) && Project(journal + commits).Ok?
    ensures Project(journal).Ok?
    ensures var s, s' := Project(journal).value, Project(journal + commits).value;
            && s <= s'
            && (forall r :: r in commits ==> Holds(s', r.eventId, r.envelope, r.committedAt))
            && Ids(s') == Ids(s) + CommitIds(commits)
  {
    if commits == [] {
      assert journal + commits == journal;
    } else {
      var before, last := commits[..|commits| - 1], commits[|commits| - 1];
      assert commits == before + [last] && last in commits;
      assert journal + commits == (journal + before) + [last];
      ProjectSnoc(journal + before, last);
      CommitsExtend(journal, before);
      CommitsExtendStep(Project(journal).value, Project(journal + before).value, before, last);
    }
  }

  lemma CommitsExtendStep(s: seq<Entry>, m: seq<Entry>, before: seq<Record>, last: Record)
    requires s <= m && last.Commit? && Apply(m, last).Ok?
    requires forall r :: r in before ==> r.Commit? && Holds(m, r.eventId, r.envelope, r.committedAt)
    requires Ids(m) == Ids(s) + CommitIds(before)
    ensures var s' := Apply(m, last).value;
            && s <= s'
            && (forall r :: r in before + [last] ==> r.Commit? && Holds(s', r.eventId, r.envelope, r.committedAt))
            && Ids(s') == Ids(s) + CommitIds(before + [last])
  {
    var s' := Apply(m, last).value;
    CommitExtends(m, last);
    forall r | r in before ensures Holds(s', r.eventId, r.envelope, r.committedAt) {
      PrefixKeeps(m, s', r.eventId);
    }
    assert CommitIds(before + [last]) == CommitIds(before) + {last.eventId};
  }

  lemma RemovedAppend(journal: seq<Record>, commits: seq<Record>)
    requires AllCommits(commits)
    ensures Removed(journal + commits) == Removed(journal)
  {
    var all := journal + commits;
    assert forall k :: |journal| <= k < |all| ==> all[k] in commits;
    forall id | id in Removed(journal) ensures id in Removed(all) {
      var i :| 0 <= i < |journal| && journal[i].Remove? && journal[i].eventId == id;
      assert all[i] == journal[i];
    }
    forall id | id in Removed(all) ensures id in Removed(journal) {
      var i :| 0 <= i < |all| && all[i].Remove? && all[i].eventId == id;
      assert i < |journal|;
    }
  }

  // --- what recovery restores ---

  /** The additions are the commits of the restored receipts. */
  ghost predicate AreAdditions(s: seq<Entry>, removed: set<string>, checkpoint: Checkpoint, receipts: seq<Receipt>,
                               additions: seq<Record>) {
    && AllCommits(additions)
    && (forall r :: r in receipts ==>
          && Judge(s, removed, checkpoint, r) != Conflict
          && (Judge(s, removed, checkpoint, r) == Restore ==> CommitOf(r) in additions))
    && (forall id :: id in CommitIds(additions) ==>
          exists r :: r in receipts && r.eventId == id && Judge(s, removed, checkpoint, r) == Restore)
  }

  lemma {:induction false} AdditionsAre(s: seq<Entry>, removed: set<string>, checkpoint: Checkpoint,
                                        receipts: seq<Receipt>)
    requires Additions(s, removed, checkpoint, receipts).Ok?
    ensures AreAdditions(s, removed, checkpoint, receipts, Additions(s, removed, checkpoint, receipts).value)
  {
    if receipts != [] {
      var before, last := receipts[..|receipts| - 1], receipts[|receipts| - 1];
      assert receipts == before + [last];
      AdditionsAre(s, removed, checkpoint, before);
      AdditionsGrow(s, removed, checkpoint, before, last, Additions(s, removed, checkpoint, before).value);
    }
  }

  lemma AdditionsGrow(s: seq<Entry>, removed: set<string>, checkpoint: Checkpoint, before: seq<Receipt>, last: Receipt,
                      additions: seq<Record>)
    requires AreAdditions(s, removed, checkpoint, before, additions) && Judge(s, removed, checkpoint, last) != Conflict
    ensures AreAdditions(s, removed, checkpoint, before + [last],
                         if Judge(s, removed, checkpoint, last) == Restore then additions + [CommitOf(last)]
                         else additions)
  {
    var receipts, verdict := before + [last], Judge(s, removed, checkpoint, last);
    var grown := if verdict == Restore then additions + [CommitOf(last)] else additions;
    assert forall r :: r in receipts <==> r in before || r == last;
    forall id | id in CommitIds(grown)
      ensures exists r :: r in receipts && r.eventId == id && Judge(s, removed, checkpoint, r) == Restore
    {
      if id in CommitIds(additions) {
        var r :| r in before && r.eventId == id && Judge(s, removed, checkpoint, r) == Restore;
        assert r in receipts;
      } else {
        assert last in receipts && id == last.eventId && verdict == Restore;
      }
    }
  }

  /** Where a turn receipt stands once recovery accepted the lifecycle. */
  ghost predicate Recovered(journal: seq<Record>, s: seq<Entry>, checkpoint: Checkpoint, r: Receipt) {
    r.turnEvent ==>
      || Holds(s, r.eventId, r.envelope, r.committedAt)
      || r.eventId in Removed(journal)
      || BelowFloor(checkpoint, r)
  }

  predicate BelowFloor(checkpoint: Checkpoint, r: Receipt) {
    var key := SequenceKey(r.envelope.domain, r.envelope.scopeId);
    key.Ok? && r.envelope.sequence <= Floor(checkpoint, key.value)
  }

  /** Recovery only appends, is complete, and resurrects nothing: whatever it brings back is a turn
      receipt that was neither removed nor at or below its floor. */
  lemma RecoveryRestores(journal: seq<Record>, lifecycle: Lifecycle, checkpoint: Checkpoint)
    requires Recover(journal, lifecycle, checkpoint).Ok?
    ensures var after := Recover(journal, lifecycle, checkpoint).value.records;
            && journal <= after && Project(journal).Ok? && Project(after).Ok?
            && var s, s' := Project(journal).value, Project(after).value;
            && s <= s'
            && (forall r :: r in lifecycle.receipts ==> Recovered(journal, s', checkpoint, r))
            && (forall id :: id in Ids(s') && id !in Ids(s) ==>
                  && id !in Removed(journal)
                  && exists r :: r in lifecycle.receipts && r.turnEvent && r.eventId == id
                       && !BelowFloor(checkpoint, r))
  {
    var s, receipts := Project(journal).value, lifecycle.receipts;
    var additions := Additions(s, Removed(journal), checkpoint, receipts).value;
    AdditionsAre(s, Removed(journal), checkpoint, receipts);
    CommitsExtend(journal, additions);
    var s' := Project(journal + additions).value;
    forall r | r in receipts ensures Recovered(journal, s', checkpoint, r) {
      if IndexOf(s, r.eventId) < |s| {
        PrefixKeeps(s, s', r.eventId);
      } else if Judge(s, Removed(journal), checkpoint, r) == Restore {
        assert CommitOf(r) in additions;
      }
    }
  }

  // --- recovering again ---

  lemma {:induction false} SkipsOnly(s: seq<Entry>, removed: set<string>, checkpoint: Checkpoint,
                                     receipts: seq<Receipt>)
    requires forall r :: r in receipts ==> Judge(s, removed, checkpoint, r) == Skip
    ensures Additions(s, removed, checkpoint, receipts) == Ok([])
  {
    if receipts != [] {
      var before := receipts[..|receipts| - 1];
      assert receipts[|receipts| - 1] in receipts && forall r :: r in before ==> r in receipts;
      SkipsOnly(s, removed, checkpoint, before);
    }
  }

  /** Recovery adds nothing exactly when every receipt is skipped. */
  lemma NothingToRecoverIff(journal: seq<Record>, lifecycle: Lifecycle, checkpoint: Checkpoint)
    requires lifecycle.integral && Project(journal).Ok?
    ensures Recover(journal, lifecycle, checkpoint) == Ok(Recovery(journal, 0)) <==>
      forall r :: r in lifecycle.receipts ==> Judge(Project(journal).value, Removed(journal), checkpoint, r) == Skip
  {
    var s, removed, receipts := Project(journal).value, Removed(journal), lifecycle.receipts;
    if forall r :: r in receipts ==> Judge(s, removed, checkpoint, r) == Skip {
      SkipsOnly(s, removed, checkpoint, receipts);
      assert journal + [] == journal;
    } else {
      var r :| r in receipts && Judge(s, removed, checkpoint, r) != Skip;
      if Additions(s, removed, checkpoint, receipts).Ok? {
        AdditionsAre(s, removed, checkpoint, receipts);
      }
    }
  }

  /** A turn receipt of the event of a restored one. */
  ghost predicate Beside(s: seq<Entry>, removed: set<string>, checkpoint: Checkpoint, receipts: seq<Receipt>,
                         r: Receipt, t: Receipt) {
    && r in receipts && t in receipts && r.eventId == t.eventId && t.turnEvent
    && Judge(s, removed, checkpoint, r) == Restore
  }

  /** A receipt that is restored speaks for every turn receipt of the same event. */
  ghost predicate RestoredAgree(s: seq<Entry>, removed: set<string>, checkpoint: Checkpoint, receipts: seq<Receipt>) {
    forall r, t :: Beside(s, removed, checkpoint, receipts, r, t) ==>
      t.envelope == r.envelope && t.committedAt == r.committedAt
  }

  /** No restored event has another turn receipt at or below that receipt's floor. */
  ghost predicate NoneSplit(s: seq<Entry>, removed: set<string>, checkpoint: Checkpoint, receipts: seq<Receipt>) {
    forall r, t :: Beside(s, removed, checkpoint, receipts, r, t) ==> !BelowFloor(checkpoint, t)
  }

  /** A receipt that recovery restores is held afterwards; none conflicts. */
  lemma RestoredIsHeld(journal: seq<Record>, lifecycle: Lifecycle, checkpoint: Checkpoint, r: Receipt)
    requires Recover(journal, lifecycle, checkpoint).Ok? && r in lifecycle.receipts
    ensures var after := Recover(journal, lifecycle, checkpoint).value.records;
            && Project(after).Ok?
            && var verdict := Judge(Project(journal).value, Removed(journal), checkpoint, r);
               && verdict != Conflict
               && (verdict == Restore ==> Holds(Project(after).value, r.eventId, r.envelope, r.committedAt))
  {
    var s, removed, receipts := Project(journal).value, Removed(journal), lifecycle.receipts;
    AdditionsAre(s, removed, checkpoint, receipts);
    CommitsExtend(journal, Additions(s, removed, checkpoint, receipts).value);
    assert Judge(s, removed, checkpoint, r) == Restore ==>
        CommitOf(r) in Additions(s, removed, checkpoint, receipts).value;
  }

  /** Two turn receipts of one event, the first of them restored: they agree once recovery is
      accepted, unless the second was skipped below its floor. */
  lemma RestoredPair(journal: seq<Record>, lifecycle: Lifecycle, checkpoint: Checkpoint, r: Receipt, t: Receipt)
    requires Recover(journal, lifecycle, checkpoint).Ok?
    requires Beside(Project(journal).value, Removed(journal), checkpoint, lifecycle.receipts, r, t)
    ensures t.envelope == r.envelope && t.committedAt == r.committedAt <==> !BelowFloor(checkpoint, t)
  {
    RestoredIsHeld(journal, lifecycle, checkpoint, r);
    RestoredIsHeld(journal, lifecycle, checkpoint, t);
  }

  lemma AgreeIffNoneSplit(journal: seq<Record>, lifecycle: Lifecycle, checkpoint: Checkpoint)
    requires Recover(journal, lifecycle, checkpoint).Ok?
    ensures var s, removed := Project(journal).value, Removed(journal);
            RestoredAgree(s, removed, checkpoint, lifecycle.receipts) <==>
              NoneSplit(s, removed, checkpoint, lifecycle.receipts)
  {
    var s, removed, receipts := Project(journal).value, Removed(journal), lifecycle.receipts;
    forall r, t | Beside(s, removed, checkpoint, receipts, r, t)
      ensures t.envelope == r.envelope && t.committedAt == r.committedAt <==> !BelowFloor(checkpoint, t)
    {
      RestoredPair(journal, lifecycle, checkpoint, r, t);
    }
  }

  /** A receipt that does not agree with a restored one of its event conflicts with it later. */
  lemma ConflictsLater(journal: seq<Record>, lifecycle: Lifecycle, checkpoint: Checkpoint, r: Receipt, t: Receipt)
    requires Recover(journal, lifecycle, checkpoint).Ok?
    requires Beside(Project(journal).value, Removed(journal), checkpoint, lifecycle.receipts, r, t)
    requires !(t.envelope == r.envelope && t.committedAt == r.committedAt)
    ensures var after := Project(Recover(journal, lifecycle, checkpoint).value.records);
            after.Ok? && Judge(after.value, Removed(journal), checkpoint, t) == Conflict
  {
    RestoredIsHeld(journal, lifecycle, checkpoint, r);
  }

  /** A second recovery skips every receipt exactly if those of a restored event agree with it. */
  lemma SkippedAgainIff(journal: seq<Record>, lifecycle: Lifecycle, checkpoint: Checkpoint)
    requires Recover(journal, lifecycle, checkpoint).Ok?
    ensures var s, removed, receipts := Project(journal).value, Removed(journal), lifecycle.receipts;
            var after := Recover(journal, lifecycle, checkpoint).value.records;
            && Project(after).Ok? && Removed(after) == removed
            && (RestoredAgree(s, removed, checkpoint, receipts) <==>
                  forall t :: t in receipts ==> Judge(Project(after).value, removed, checkpoint, t) == Skip)
  {
    var s, removed, receipts := Project(journal).value, Removed(journal), lifecycle.receipts;
    var additions := Additions(s, removed, checkpoint, receipts).value;
    AdditionsAre(s, removed, checkpoint, receipts);
    CommitsExtend(journal, additions);
    RemovedAppend(journal, additions);
    var s' := Project(journal + additions).value;
    if RestoredAgree(s, removed, checkpoint, receipts) {
      forall t | t in receipts ensures Judge(s', removed, checkpoint, t) == Skip {
        SkippedAgain(s, s', removed, checkpoint, receipts, additions, t);
      }
    } else {
      var r, t :| Beside(s, removed, checkpoint, receipts, r, t)
                  && !(t.envelope == r.envelope && t.committedAt == r.committedAt);
      ConflictsLater(journal, lifecycle, checkpoint, r, t);
    }
  }

  /** A second recovery adds nothing exactly when no restored event has a receipt skipped below its
      floor: such a receipt conflicts with what the first recovery wrote. */
  lemma RecoveryIsIdempotentIff(journal: seq<Record>, lifecycle: Lifecycle, checkpoint: Checkpoint)
    requires Recover(journal, lifecycle, checkpoint).Ok?
    ensures var after := Recover(journal, lifecycle, checkpoint).value.records;
            Recover(after, lifecycle, checkpoint) == Ok(Recovery(after, 0)) <==>
              NoneSplit(Project(journal).value, Removed(journal), checkpoint, lifecycle.receipts)
  {
    AgreeIffNoneSplit(journal, lifecycle, checkpoint);
    SkippedAgainIff(journal, lifecycle, checkpoint);
    NothingToRecoverIff(Recover(journal, lifecycle, checkpoint).value.records, lifecycle, checkpoint);
  }

  /** It happens: with an empty journal, one receipt of an event is restored and another, of a scope
      whose floor it does not pass, is skipped; the next recovery rejects. */
  lemma RecoveryCanConflict() returns (lifecycle: Lifecycle, checkpoint: Checkpoint)
    ensures var first := Recover([], lifecycle, checkpoint);
            && first.Ok? && first.value.added == 1
            && Recover(first.value.records, lifecycle, checkpoint).Rejected?
  {
    var e, f := Envelope("e", "d", "a", 1, true, ""), Envelope("e", "d", "b", 1, true, "");
    var r, t := Receipt(true, "e", e, At(0)), Receipt(true, "e", f, At(0));
    lifecycle, checkpoint := Lifecycle(true, [r, t]), map[KeyOf(f) := 1];
    KeyIsKeyOf(e);
    KeyIsKeyOf(f);
    assert KeyOf(e)[2] == 'a' && KeyOf(f)[2] == 'b';
    var none: seq<Receipt> := [];
    assert none + [r] == [r] && [r] + [t] == [r, t];
    AdditionsOf([], Removed([]), checkpoint, none, r);
    AdditionsOf([], Removed([]), checkpoint, [r], t);
    var after := [CommitOf(r)];
    assert [] + after == after;
    ProjectOne(CommitOf(r));
    var s: seq<Entry> := Project(after).value;
    assert s == [Entry("e", e, At(0), map[])];
    assert s[0].eventId == "e" && IndexOf(s, "e") == 0;
    AdditionsOf(s, Removed(after), checkpoint, none, r);
    AdditionsOf(s, Removed(after), checkpoint, [r], t);
  }

  lemma SkippedAgain(s: seq<Entry>, s': seq<Entry>, removed: set<string>, checkpoint: Checkpoint,
                     receipts: seq<Receipt>,
                     additions: seq<Record>, t: Receipt)
    requires s <= s' && t in receipts && Judge(s, removed, checkpoint, t) != Conflict
    requires RestoredAgree(s, removed, checkpoint, receipts)
    requires Ids(s') == Ids(s) + CommitIds(additions)
    requires forall r :: r in receipts && Judge(s, removed, checkpoint, r) == Restore ==> CommitOf(r) in additions
    requires forall id :: id in CommitIds(additions) ==>
      exists r :: r in receipts && r.eventId == id && Judge(s, removed, checkpoint, r) == Restore
    requires forall c :: c in additions ==> c.Commit? && Holds(s', c.eventId, c.envelope, c.committedAt)
    ensures Judge(s', removed, checkpoint, t) == Skip
  {
    var j := IndexOf(s', t.eventId);
    if IndexOf(s, t.eventId) < |s| {
      PrefixKeeps(s, s', t.eventId);
    } else if j < |s'| && t.turnEvent {
      assert s'[j].eventId in Ids(s');
      var r :| r in receipts && r.eventId == t.eventId && Judge(s, removed, checkpoint, r) == Restore;
      assert Beside(s, removed, checkpoint, receipts, r, t) && CommitOf(r) in additions;
    }
  }

  // --- compaction and recovery ---

  /** A turn receipt only a REMOVE record keeps from coming back. */
  ghost predicate Forgotten(journal: seq<Record>, lifecycle: Lifecycle, r: Receipt)
    requires Project(journal).Ok?
  {
    r in lifecycle.receipts && r.turnEvent && r.eventId in Removed(journal) - Ids(Project(journal).value)
  }

  /** After a compaction, recovery stays quiet exactly when the advanced floors cover every receipt
      whose REMOVE record the rewrite forgot.  `covered` holds the envelopes of the whole outbox. */
  lemma CompactionKeepsRecoveryQuietIff(journal: seq<Record>, rewritten: seq<Record>, lifecycle: Lifecycle,
                                        checkpoint: Checkpoint, cutoff: int)
    requires Recover(journal, lifecycle, checkpoint) == Ok(Recovery(journal, 0))
    requires Project(rewritten) == Ok(Kept(Project(journal).value, cutoff)) && Removed(rewritten) == {}
    ensures var advanced := Advanced(checkpoint, Envelopes(Project(journal).value));
            advanced.Ok? ==>
              (Recover(rewritten, lifecycle, advanced.value) == Ok(Recovery(rewritten, 0)) <==>
                forall r :: Forgotten(journal, lifecycle, r) ==> BelowFloor(advanced.value, r))
  {
    var s, s' := Project(journal).value, Kept(Project(journal).value, cutoff);
    var advanced := Advanced(checkpoint, Envelopes(s));
    if advanced.Ok? {
      NothingToRecoverIff(journal, lifecycle, checkpoint);
      NothingToRecoverIff(rewritten, lifecycle, advanced.value);
      forall r | r in lifecycle.receipts
        ensures Judge(s', {}, advanced.value, r) == Skip <==>
          (Forgotten(journal, lifecycle, r) ==> BelowFloor(advanced.value, r))
      {
        CompactedVerdict(journal, s, checkpoint, advanced.value, cutoff, r);
      }
    }
  }

  lemma CompactedVerdict(journal: seq<Record>, s: seq<Entry>, checkpoint: Checkpoint, advanced: Checkpoint, cutoff: int,
                         r: Receipt)
    requires Project(journal) == Ok(s) && Advanced(checkpoint, Envelopes(s)) == Ok(advanced)
    requires Judge(s, Removed(journal), checkpoint, r) == Skip
    ensures Judge(Kept(s, cutoff), {}, advanced, r) == Skip <==>
      (r.turnEvent && r.eventId in Removed(journal) && r.eventId !in Ids(s) ==> BelowFloor(advanced, r))
  {
    ProjectIsNormal(journal);
    HeldAreValid(journal);
    RaisedCovers(checkpoint, Envelopes(s));
    var i := IndexOf(s, r.eventId);
    KeptPosition(s, cutoff, r.eventId);
    if r.turnEvent && i < |s| {
      assert s[i].eventId in Ids(s);
      assert Envelopes(s)[i] == r.envelope;
      KeyIsKeyOf(r.envelope);
    } else if r.turnEvent {
      NotInIds(s, r.eventId);
      var key := SequenceKey(r.envelope.domain, r.envelope.scopeId);
      assert RaisedTo(checkpoint, Envelopes(s), advanced, key.value);
    }
  }

  lemma NotInIds(s: seq<Entry>, eventId: string)
    ensures eventId in Ids(s) <==> IndexOf(s, eventId) < |s|
  {
    var i := IndexOf(s, eventId);
    if i < |s| {
      assert s[i].eventId in Ids(s);
    }
  }

  /** A kept entry is the one the outbox had under its id. */
  lemma {:induction false} KeptPosition(s: seq<Entry>, cutoff: int, eventId: string)
    requires Normal(s)
    ensures var kept := Kept(s, cutoff);
            var i, j := IndexOf(s, eventId), IndexOf(kept, eventId);
            j < |kept| ==> i < |s| && kept[j] == s[i]
  {
    CompactionParts(s, cutoff);
    var kept := Kept(s, cutoff);
    var j := IndexOf(kept, eventId);
    if j < |kept| {
      assert kept[j] in kept;
      var k :| 0 <= k < |s| && s[k] == kept[j];
      assert IndexOf(s, eventId) == k;
    }
  }

  // --- the compaction of a store ---

  /** The journal and the checkpoint a compaction leaves; `compacted` tells whether it rewrote them. */
  datatype Stored = Stored(compacted: bool, records: seq<Record>, checkpoint: Checkpoint)

  /** What remains of a projection is normal and recorded. */
  lemma KeptIsWritable(journal: seq<Record>, cutoff: int)
    requires Project(journal).Ok?
    ensures var s := Project(journal).value;
            Normalize(s) == Ok(s) && Normalize(Kept(s, cutoff)) == Ok(Kept(s, cutoff))
    ensures forall i :: 0 <= i < |Kept(Project(journal).value, cutoff)| ==>
              History.Recorded(Kept(Project(journal).value, cutoff)[i])
  {
    var s, kept := Project(journal).value, Kept(Project(journal).value, cutoff);
    ProjectIsNormal(journal);
    NormalizeFixes(s);
    CompactRefinesJournal(journal, s, cutoff);
    ProjectIsNormal(journal + Removals(Dropped(s, cutoff)));
    NormalizeFixes(kept);
    History.ProjectionIsRecorded(journal);
    CompactionParts(s, cutoff);
    forall i | 0 <= i < |kept| ensures History.Recorded(kept[i]) {
      assert kept[i] in kept && kept[i] in s;
    }
  }

  /** Recovery has nothing to do. */
  ghost predicate Quiet(journal: seq<Record>, lifecycle: Lifecycle, checkpoint: Checkpoint) {
    Recover(journal, lifecycle, checkpoint) == Ok(Recovery(journal, 0))
  }

  /** Every receipt whose REMOVE a compaction forgets lies at or below its advanced floor. */
  ghost predicate ForgetsSafely(journal: seq<Record>, lifecycle: Lifecycle, advanced: Checkpoint)
    requires Project(journal).Ok?
  {
    forall r :: Forgotten(journal, lifecycle, r) ==> BelowFloor(advanced, r)
  }

  lemma NothingRemoved(records: seq<Record>)
    requires History.RemovesNothing(records)
    ensures Removed(records) == {}
  {
    assert forall i :: 0 <= i < |records| ==> records[i] in records;
  }

  /** Compacts a store: the floors are raised over the whole outbox, then the journal is rewritten
      to what is kept.  Whatever the lifecycle, a recovery that was quiet stays quiet exactly if the
      rewriting forgets safely. */
  method CompactEvents(journal: seq<Record>, checkpoint: Checkpoint, retainDeliveredAfter: Stamp)
    returns (result: Result<Stored>)
    ensures Project(journal).Rejected? || !retainDeliveredAfter.At? ==> result.Rejected?
    ensures Project(journal).Ok? && retainDeliveredAfter.At? ==>
      var s, kept := Project(journal).value, Kept(Project(journal).value, retainDeliveredAfter.ms);
      if |kept| == |s| then result == Ok(Stored(false, journal, checkpoint))
      else if Advanced(checkpoint, Envelopes(s)).Rejected? then result.Rejected?
      else
        && result.Ok? && result.value.compacted && Ok(result.value.checkpoint) == Advanced(checkpoint, Envelopes(s))
        && Project(result.value.records) == Ok(kept) && Removed(result.value.records) == {}
    ensures result.Ok? && result.value.compacted ==>
      forall lifecycle :: Quiet(journal, lifecycle, checkpoint) ==>
        (Quiet(result.value.records, lifecycle, result.value.checkpoint) <==>
           ForgetsSafely(journal, lifecycle, result.value.checkpoint))
  {
    var projected := ProjectJournal(journal);
    if projected.Rejected? {
      return Rejected;
    }
    var s := projected.value;
    var compaction := Compact(s, retainDeliveredAfter);
    if compaction.Rejected? {
      KeptIsWritable(journal, 0);
      return Rejected;
    }
    KeptIsWritable(journal, retainDeliveredAfter.ms);
    if !compaction.value.compacted {
      return Ok(Stored(false, journal, checkpoint));
    }
    var advanced := AdvanceCheckpoint(checkpoint, Envelopes(s));
    if advanced.Rejected? {
      return Rejected;
    }
    var records := History.RecordsFromOutbox(compaction.value.outbox);
    if records.Rejected? {
      return Rejected;
    }
    NothingRemoved(records.value);
    forall lifecycle | Quiet(journal, lifecycle, checkpoint)
      ensures Quiet(records.value, lifecycle, advanced.value) <==> ForgetsSafely(journal, lifecycle, advanced.value)
    {
      CompactionKeepsRecoveryQuietIff(journal, records.value, lifecycle, checkpoint, retainDeliveredAfter.ms);
    }
    result := Ok(Stored(true, records.value, advanced.value));
  }

  // --- a compaction that revives an event ---

  lemma RemovedSnoc(journal: seq<Record>, r: Record)
    ensures Removed(journal + [r]) == Removed(journal) + if r.Remove? then {r.eventId} else {}
  {
    var all := journal + [r];
    assert all[|journal|] == r && forall i :: 0 <= i < |journal| ==> all[i] == journal[i];
  }

  lemma CommitAlone(journal: seq<Record>, f: Envelope, at: Stamp)
    requires Project(journal) == Ok([]) && ValidEnvelope(f) && at.At?
    ensures Project(journal + [Commit(f.eventId, f, at)]) == Ok([Entry(f.eventId, f, at, map[])])
  {
    ProjectSnoc(journal, Commit(f.eventId, f, at));
    var none: seq<Entry> := [];
    assert none + [Entry(f.eventId, f, at, map[])] == [Entry(f.eventId, f, at, map[])];
  }

  /** The entry of an event delivered to one consumer. */
  function DeliveredTo(f: Envelope, at: Stamp, consumerId: string, deliveredAt: Stamp): Entry {
    var delivery := Delivery(Delivered, 0, Blank, deliveredAt, f.domain, f.scopeId, f.sequence);
    Entry(f.eventId, f, at, map[consumerId := delivery])
  }

  lemma DeliverAlone(journal: seq<Record>, f: Envelope, at: Stamp, consumerId: string, deliveredAt: Stamp)
    requires Project(journal) == Ok([Entry(f.eventId, f, at, map[])])
    requires ValidRecord(Ack(f.eventId, consumerId, deliveredAt, f.domain, f.scopeId, f.sequence))
    ensures Project(journal + [Ack(f.eventId, consumerId, deliveredAt, f.domain, f.scopeId, f.sequence)])
         == Ok([DeliveredTo(f, at, consumerId, deliveredAt)])
  {
    var entry := Entry(f.eventId, f, at, map[]);
    ProjectSnoc(journal, Ack(f.eventId, consumerId, deliveredAt, f.domain, f.scopeId, f.sequence));
    var s := [entry];
    assert s[0].eventId == f.eventId && IndexOf(s, f.eventId) == 0;
    assert s[0 := DeliveredTo(f, at, consumerId, deliveredAt)] == [DeliveredTo(f, at, consumerId, deliveredAt)];
  }

  /** After a journal that leaves nothing, another event is committed and delivered. */
  function ThenDelivered(start: seq<Record>, f: Envelope): seq<Record> {
    start + [Commit(f.eventId, f, At(0))] + [Ack(f.eventId, "k", At(1), f.domain, f.scopeId, f.sequence)]
  }

  lemma ThenDeliveredIs(start: seq<Record>, f: Envelope)
    requires Project(start) == Ok([]) && ValidEnvelope(f) && 1 <= f.sequence <= MAX_SAFE_INTEGER
    ensures Project(ThenDelivered(start, f)) == Ok([DeliveredTo(f, At(0), "k", At(1))])
    ensures Removed(ThenDelivered(start, f)) == Removed(start)
  {
    var committed, ack := Commit(f.eventId, f, At(0)), Ack(f.eventId, "k", At(1), f.domain, f.scopeId, f.sequence);
    CommitAlone(start, f, At(0));
    DeliverAlone(start + [committed], f, At(0), "k", At(1));
    RemovedSnoc(start, committed);
    RemovedSnoc(start + [committed], ack);
  }

  /** A journal whose only event was committed and removed. */
  lemma CommittedAndRemoved(e: Envelope) returns (start: seq<Record>)
    requires e == Envelope("e", e.domain, e.scopeId, 1, true, "") && ValidEnvelope(e)
    ensures Project(start) == Ok([]) && Removed(start) == {"e"}
  {
    var c := Commit("e", e, At(0));
    FirstCommits(e.domain, e.scopeId);
    RemovesOnly(c);
    start := [c, Remove("e")];
    assert start == [c] + [Remove("e")] && Removed([c]) == {};
    RemovedSnoc([c], Remove("e"));
  }

  lemma OneEntry(entry: Entry)
    requires entry.eventId == "f"
    ensures IndexOf([entry], "e") == 1 && Ids([entry]) == {"f"}
  {
    assert [entry][0].eventId == "f";
  }

  /** A removed event, gone from the outbox, is what only its REMOVE record keeps away. */
  lemma OnlyRemovalKeepsAway(journal: seq<Record>, r: Receipt, checkpoint: Checkpoint)
    requires Project(journal).Ok? && r.turnEvent && r.eventId in Removed(journal)
    requires IndexOf(Project(journal).value, r.eventId) == |Project(journal).value|
    requires SequenceKey(r.envelope.domain, r.envelope.scopeId).Ok?
    ensures Quiet(journal, Lifecycle(true, [r]), checkpoint) && Forgotten(journal, Lifecycle(true, [r]), r)
  {
    NothingToRecoverIff(journal, Lifecycle(true, [r]), checkpoint);
    NotInIds(Project(journal).value, r.eventId);
  }

  /** It happens, whatever the two scopes: an event removed with its turn comes back once a
      compaction, prompted by another scope, has dropped its REMOVE record. */
  lemma CompactionCanRevive(e: Envelope, f: Envelope) returns (journal: seq<Record>, lifecycle: Lifecycle)
    requires ValidEnvelope(e) && e == Envelope("e", e.domain, e.scopeId, 1, true, "")
    requires ValidEnvelope(f) && f.eventId == "f" && f.sequence == 1 && KeyOf(e) != KeyOf(f)
    ensures Project(journal).Ok? && Quiet(journal, lifecycle, map[])
    ensures var s := Project(journal).value;
            var advanced := Advanced(map[], Envelopes(s));
            |Kept(s, 5)| < |s| && advanced.Ok? && !ForgetsSafely(journal, lifecycle, advanced.value)
  {
    var r := Receipt(true, "e", e, At(0));
    var done := DeliveredTo(f, At(0), "k", At(1));
    var start := CommittedAndRemoved(e);
    journal, lifecycle := ThenDelivered(start, f), Lifecycle(true, [r]);
    ThenDeliveredIs(start, f);
    KeyIsKeyOf(e);
    OneEntry(done);
    KeptAway(done);
    AdvancedOne(map[], f);
    OnlyRemovalKeepsAway(journal, r, map[]);
    NotBelow(r, f);
  }

  /** The floor of one scope leaves another scope's first event above. */
  lemma NotBelow(r: Receipt, f: Envelope)
    requires ValidEnvelope(r.envelope) && r.envelope.sequence == 1 && KeyOf(r.envelope) != KeyOf(f)
    ensures !BelowFloor(map[][KeyOf(f) := 1], r)
  {
    KeyIsKeyOf(r.envelope);
  }

  lemma KeptAway(done: Entry)
    requires "k" in done.deliveries && done.deliveries.Keys == {"k"} && Reclaimable(done.deliveries["k"], 5)
    ensures Kept([done], 5) == [] && Envelopes([done]) == [done.envelope]
  {
    KeptOne(done, 5);
  }
}
