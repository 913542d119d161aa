/** Which lifecycles a recovery accepts and what it appends, said of the receipts themselves. */
module RecoveryOutcomes {
  import Lines
  import opened Outcome
  import opened Outbox
  import opened OutboxSequence
  import opened TurnRecovery

  /** The event of a receipt is in the outbox, with the receipt's content. */
  ghost predicate Agrees(s: seq<Entry>, r: Receipt) {
    exists i :: 0 <= i < |s| && s[i].eventId == r.eventId && s[i].envelope == r.envelope
                && s[i].committedAt == r.committedAt
  }

  /** The receipt of a turn event that is neither in the outbox, nor removed, nor below its floor. */
  predicate Lost(s: seq<Entry>, removed: set<string>, checkpoint: Checkpoint, r: Receipt) {
    r.turnEvent && r.eventId !in Ids(s) && r.eventId !in removed && !BelowFloor(checkpoint, r)
  }

  predicate Keyed(r: Receipt) {
    SequenceKey(r.envelope.domain, r.envelope.scopeId).Ok?
  }

  /** A receipt that stands in no recovery's way: of another event than a turn's, or of one in the
      outbox as it says, or of one with a key that, if it is lost, can be committed. */
  ghost predicate Recoverable(s: seq<Entry>, removed: set<string>, checkpoint: Checkpoint, r: Receipt) {
    r.turnEvent ==>
      if r.eventId in Ids(s) then Agrees(s, r)
      else Keyed(r) && (Lost(s, removed, checkpoint, r) ==> ValidRecord(CommitOf(r)))
  }

  /** The lost receipts in their order. */
  function Losses(s: seq<Entry>, removed: set<string>, checkpoint: Checkpoint, receipts: seq<Receipt>): seq<Receipt> {
    if receipts == [] then []
    else
      var later := Losses(s, removed, checkpoint, receipts[1..]);
      if Lost(s, removed, checkpoint, receipts[0]) then [receipts[0]] + later else later
  }

  /** Lost receipts of one event say the same. */
  ghost predicate LossesAgree(losses: seq<Receipt>) {
    forall r, t :: r in losses && t in losses && r.eventId == t.eventId ==>
      r.envelope == t.envelope && r.committedAt == t.committedAt
  }

  ghost predicate Committable(losses: seq<Receipt>) {
    LossesAgree(losses) && forall r :: r in losses ==> ValidRecord(CommitOf(r))
  }

  ghost predicate Unheld(s: seq<Entry>, losses: seq<Receipt>) {
    forall r :: r in losses ==> r.eventId !in Ids(s)
  }

  /** The records are the commits of these receipts, one by one. */
  ghost predicate CommitsOf(records: seq<Record>, receipts: seq<Receipt>) {
    |records| == |receipts| && forall k :: 0 <= k < |records| ==> records[k] == CommitOf(receipts[k])
  }

  lemma JudgedAs(s: seq<Entry>, removed: set<string>, checkpoint: Checkpoint, r: Receipt)
    requires DistinctIds(s)
    ensures Judge(s, removed, checkpoint, r) == Restore <==> Keyed(r) && Lost(s, removed, checkpoint, r)
    ensures Judge(s, removed, checkpoint, r) == Conflict <==>
              r.turnEvent && if r.eventId in Ids(s) then !Agrees(s, r) else !Keyed(r)
  {
    NotInIds(s, r.eventId);
    var i := IndexOf(s, r.eventId);
    if i < |s| && Agrees(s, r) {
      var j :| 0 <= j < |s| && s[j].eventId == r.eventId && s[j].envelope == r.envelope
               && s[j].committedAt == r.committedAt;
      assert i == j;
    }
  }

  lemma {:induction false} LossesSnoc(s: seq<Entry>, removed: set<string>, checkpoint: Checkpoint,
                                      receipts: seq<Receipt>, last: Receipt)
    ensures Losses(s, removed, checkpoint, receipts + [last]) ==
              if Lost(s, removed, checkpoint, last) then Losses(s, removed, checkpoint, receipts) + [last]
              else Losses(s, removed, checkpoint, receipts)
  {
    if receipts != [] {
      LossesSnoc(s, removed, checkpoint, receipts[1..], last);
      assert (receipts + [last])[1..] == receipts[1..] + [last];
    }
  }

  lemma {:induction false} LossesAre(s: seq<Entry>, removed: set<string>, checkpoint: Checkpoint,
                                     receipts: seq<Receipt>, r: Receipt)
    ensures r in Losses(s, removed, checkpoint, receipts) <==> r in receipts && Lost(s, removed, checkpoint, r)
  {
    if receipts != [] {
      LossesAre(s, removed, checkpoint, receipts[1..], r);
      assert r in receipts <==> r == receipts[0] || r in receipts[1..];
    }
  }

  /** No receipt conflicts, and then the lost ones are appended in their order. */
  lemma {:induction false} AdditionsIff(s: seq<Entry>, removed: set<string>, checkpoint: Checkpoint,
                                        receipts: seq<Receipt>)
    requires DistinctIds(s)
    ensures Additions(s, removed, checkpoint, receipts).Ok? <==>
              forall r :: r in receipts ==> Judge(s, removed, checkpoint, r) != Conflict
    ensures Additions(s, removed, checkpoint, receipts).Ok? ==>
              CommitsOf(Additions(s, removed, checkpoint, receipts).value, Losses(s, removed, checkpoint, receipts))
  {
    if receipts != [] {
      var before, last := receipts[..|receipts| - 1], receipts[|receipts| - 1];
      assert receipts == before + [last];
      assert forall r :: r in receipts <==> r in before || r == last;
      AdditionsIff(s, removed, checkpoint, before);
      LossesSnoc(s, removed, checkpoint, before, last);
      JudgedAs(s, removed, checkpoint, last);
    }
  }

  /** Commits of events an accepted journal does not hold are accepted exactly if each is valid and
      those of one event say the same. */
  lemma {:induction false} CommitsAccepted(journal: seq<Record>, losses: seq<Receipt>, commits: seq<Record>)
    requires Project(journal).Ok? && CommitsOf(commits, losses)
    requires Unheld(Project(journal).value, losses)
    ensures Project(journal + commits).Ok? <==> Committable(losses)
  {
    if losses == [] {
      assert journal + commits == journal;
    } else {
      var n := |losses| - 1;
      var before, last := losses[..n], losses[n];
      assert losses == before + [last] && forall r :: r in before ==> r in losses;
      CommitsAccepted(journal, before, commits[..n]);
      Lines.InitLast(commits);
      Lines.Regroup(journal, commits[..n], [commits[n]]);
      OneMoreAccepted(journal, before, commits[..n], last);
    }
  }

  lemma OneMoreAccepted(journal: seq<Record>, before: seq<Receipt>, commits: seq<Record>, last: Receipt)
    requires Project(journal).Ok? && CommitsOf(commits, before)
    requires last.eventId !in Ids(Project(journal).value)
    requires Project(journal + commits).Ok? <==> Committable(before)
    ensures Project(journal + commits + [CommitOf(last)]).Ok? <==> Committable(before + [last])
  {
    CommittableSnoc(before, last);
    ProjectSnoc(journal + commits, CommitOf(last));
    if Project(journal + commits).Ok? {
      AreCommits(commits, before);
      CommitsExtend(journal, commits);
      LastAccepted(Project(journal).value, Project(journal + commits).value, before, commits, last);
    }
  }

  lemma AreCommits(commits: seq<Record>, losses: seq<Receipt>)
    requires CommitsOf(commits, losses)
    ensures AllCommits(commits)
  {
  }

  lemma CommittableSnoc(before: seq<Receipt>, last: Receipt)
    ensures Committable(before + [last]) <==>
              Committable(before) && LossesAgree(before + [last]) && ValidRecord(CommitOf(last))
  {
    assert last in before + [last] && forall r :: r in before ==> r in before + [last];
    assert forall r :: r in before + [last] ==> r in before || r == last;
  }

  ghost predicate AllHeld(m: seq<Entry>, receipts: seq<Receipt>) {
    forall r :: r in receipts ==> Holds(m, r.eventId, r.envelope, r.committedAt)
  }

  lemma HeldAs(m: seq<Entry>, commits: seq<Record>, receipts: seq<Receipt>)
    requires CommitsOf(commits, receipts)
    requires forall c :: c in commits ==> c.Commit? && Holds(m, c.eventId, c.envelope, c.committedAt)
    ensures AllHeld(m, receipts)
    ensures forall id :: id in CommitIds(commits) ==> exists r :: r in receipts && r.eventId == id
  {
    forall r | r in receipts ensures Holds(m, r.eventId, r.envelope, r.committedAt) {
      var k :| 0 <= k < |receipts| && receipts[k] == r;
      assert commits[k] in commits;
    }
    forall id | id in CommitIds(commits) ensures exists r :: r in receipts && r.eventId == id {
      var k :| 0 <= k < |commits| && commits[k].eventId == id;
      assert receipts[k] in receipts;
    }
  }

  /** A receipt agrees with held ones exactly if it is held, too, or none of them is of its event. */
  lemma AgreeIffHeld(m: seq<Entry>, before: seq<Receipt>, last: Receipt)
    requires AllHeld(m, before) && LossesAgree(before)
    requires last.eventId in Ids(m) ==> exists r :: r in before && r.eventId == last.eventId
    ensures LossesAgree(before + [last]) <==>
              (last.eventId in Ids(m) ==> Holds(m, last.eventId, last.envelope, last.committedAt))
  {
    NotInIds(m, last.eventId);
    assert forall r :: r in before + [last] <==> r in before || r == last;
  }

  lemma LastAccepted(s: seq<Entry>, m: seq<Entry>, before: seq<Receipt>, commits: seq<Record>, last: Receipt)
    requires last.eventId !in Ids(s) && Ids(m) == Ids(s) + CommitIds(commits) && CommitsOf(commits, before)
    requires forall c :: c in commits ==> c.Commit? && Holds(m, c.eventId, c.envelope, c.committedAt)
    requires LossesAgree(before)
    ensures Apply(m, CommitOf(last)).Ok? <==> ValidRecord(CommitOf(last)) && LossesAgree(before + [last])
  {
    HeldAs(m, commits, before);
    AgreeIffHeld(m, before, last);
    NotInIds(m, last.eventId);
  }

  /** A recovery is accepted exactly if the lifecycle record is intact, the journal projects, every
      receipt can be recovered, and lost ones of one event agree.  It then appends the lost ones. */
  lemma RecoversIff(journal: seq<Record>, lifecycle: Lifecycle, checkpoint: Checkpoint)
    ensures Recover(journal, lifecycle, checkpoint).Ok? <==>
              && lifecycle.integral && Project(journal).Ok?
              && var s, removed := Project(journal).value, Removed(journal);
                 && (forall r :: r in lifecycle.receipts ==> Recoverable(s, removed, checkpoint, r))
                 && LossesAgree(Losses(s, removed, checkpoint, lifecycle.receipts))
    ensures Recover(journal, lifecycle, checkpoint).Ok? ==>
              var recovery := Recover(journal, lifecycle, checkpoint).value;
              var losses := Losses(Project(journal).value, Removed(journal), checkpoint, lifecycle.receipts);
              && recovery.added == |losses| && journal <= recovery.records
              && CommitsOf(recovery.records[|journal|..], losses)
  {
    if lifecycle.integral && Project(journal).Ok? {
      var s, removed, receipts := Project(journal).value, Removed(journal), lifecycle.receipts;
      ProjectIsNormal(journal);
      AdditionsIff(s, removed, checkpoint, receipts);
      forall r | r in receipts
        ensures Judge(s, removed, checkpoint, r) != Conflict ==>
                  (Recoverable(s, removed, checkpoint, r) <==>
                     (Lost(s, removed, checkpoint, r) ==> ValidRecord(CommitOf(r))))
        ensures Recoverable(s, removed, checkpoint, r) ==> Judge(s, removed, checkpoint, r) != Conflict
      {
        JudgedAs(s, removed, checkpoint, r);
      }
      var losses := Losses(s, removed, checkpoint, receipts);
      forall r ensures r in losses <==> r in receipts && Lost(s, removed, checkpoint, r) {
        LossesAre(s, removed, checkpoint, receipts, r);
      }
      if Additions(s, removed, checkpoint, receipts).Ok? {
        var additions := Additions(s, removed, checkpoint, receipts).value;
        CommitsAccepted(journal, losses, additions);
        assert (journal + additions)[|journal|..] == additions;
      }
    }
  }

  function TurnReceipts(receipts: seq<Receipt>): seq<Receipt> {
    if receipts == [] then []
    else if receipts[|receipts| - 1].turnEvent then
      TurnReceipts(receipts[..|receipts| - 1]) + [receipts[|receipts| - 1]]
    else TurnReceipts(receipts[..|receipts| - 1])
  }

  lemma {:induction false} OthersAreSkipped(s: seq<Entry>, removed: set<string>, checkpoint: Checkpoint,
                                            receipts: seq<Receipt>)
    ensures Additions(s, removed, checkpoint, TurnReceipts(receipts)) == Additions(s, removed, checkpoint, receipts)
  {
    if receipts != [] {
      var before, last := receipts[..|receipts| - 1], receipts[|receipts| - 1];
      OthersAreSkipped(s, removed, checkpoint, before);
      if last.turnEvent {
        assert (TurnReceipts(before) + [last])[..|TurnReceipts(before)|] == TurnReceipts(before);
      }
    }
  }

  /** Receipts of anything but turn events leave a recovery as it is. */
  lemma OthersDoNotMatter(journal: seq<Record>, lifecycle: Lifecycle, checkpoint: Checkpoint)
    ensures Recover(journal, lifecycle.(receipts := TurnReceipts(lifecycle.receipts)), checkpoint) ==
              Recover(journal, lifecycle, checkpoint)
  {
    if Project(journal).Ok? {
      OthersAreSkipped(Project(journal).value, Removed(journal), checkpoint, lifecycle.receipts);
    }
  }
}
