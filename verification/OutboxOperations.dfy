/** The incremental outbox operations and their agreement with replaying the journal. */
module OutboxOperations {
  import opened Text
  import opened Outcome
  import opened Outbox

  /** `entries.map(step)` where a step may throw. */
  function MapEntries(s: seq<Entry>, step: Entry -> Result<Entry>): Result<seq<Entry>> {
    if s == [] then Ok([])
    else
      var before :- MapEntries(s[..|s| - 1], step);
      var last :- step(s[|s| - 1]);
      Ok(before + [last])
  }

  predicate Contains(s: seq<Entry>, eventId: string) {
    exists i :: 0 <= i < |s| && s[i].eventId == eventId
  }

  datatype AttemptResult = AttemptResult(found: bool, outbox: seq<Entry>)

  function RecordAttempt(source: seq<Entry>, eventId: string, consumerId: string, attemptedAt: Stamp)
    : Result<AttemptResult>
  {
    if !Canonical(eventId) || !Canonical(consumerId) || !attemptedAt.At? then Rejected
    else
      var s :- Normalize(source);
      var outbox :- MapEntries(s, (e: Entry) =>
        if e.eventId != eventId then Ok(e) else AttemptEntry(e, consumerId, attemptedAt));
      Ok(AttemptResult(Contains(s, eventId), outbox))
  }

  predicate AckPermitted(eventId: string, consumerId: string, domain: string, scopeId: string, sequence: int,
                         deliveredAt: Stamp)
  {
    && Canonical(eventId) && Canonical(consumerId) && Canonical(domain) && Canonical(scopeId)
    && deliveredAt.At? && 1 <= sequence <= MAX_SAFE_INTEGER
  }

  function AckStep(eventId: string, consumerId: string, domain: string, scopeId: string, sequence: int,
                   deliveredAt: Stamp)
    : Entry -> Result<Entry>
  {
    (e: Entry) =>
      if e.eventId != eventId then Ok(e) else AckEntry(e, consumerId, deliveredAt, domain, scopeId, sequence)
  }

  datatype AckResult = AckResult(found: bool, changed: bool, outbox: seq<Entry>)

  function Acknowledge(source: seq<Entry>, eventId: string, consumerId: string, domain: string, scopeId: string,
                       sequence: int, deliveredAt: Stamp): Result<AckResult>
  {
    if !AckPermitted(eventId, consumerId, domain, scopeId, sequence, deliveredAt) then Rejected
    else
      var s :- Normalize(source);
      var outbox :- MapEntries(s, AckStep(eventId, consumerId, domain, scopeId, sequence, deliveredAt));
      var changed := exists i :: 0 <= i < |s| && s[i].eventId == eventId
          && DeliveryTo(s[i], consumerId).deliveredAt == Blank;
      Ok(AckResult(Contains(s, eventId), changed, outbox))
  }

  predicate Reclaimable(d: Delivery, cutoff: int) {
    d.deliveredAt.At? && d.deliveredAt.ms < cutoff
  }

  predicate Retained(e: Entry, cutoff: int) {
    e.deliveries == map[] || exists c :: c in e.deliveries && !Reclaimable(e.deliveries[c], cutoff)
  }

  /** The entries a compaction keeps, in order. */
  function Kept(s: seq<Entry>, cutoff: int): seq<Entry> {
    if s == [] then []
    else if Retained(s[|s| - 1], cutoff) then Kept(s[..|s| - 1], cutoff) + [s[|s| - 1]]
    else Kept(s[..|s| - 1], cutoff)
  }

  /** The entries it drops. */
  function Dropped(s: seq<Entry>, cutoff: int): seq<Entry> {
    if s == [] then []
    else if Retained(s[|s| - 1], cutoff) then Dropped(s[..|s| - 1], cutoff)
    else Dropped(s[..|s| - 1], cutoff) + [s[|s| - 1]]
  }

  datatype CompactResult = CompactResult(compacted: bool, removed: int, outbox: seq<Entry>)

  function Compact(source: seq<Entry>, retainDeliveredAfter: Stamp): Result<CompactResult> {
    if !retainDeliveredAfter.At? then Rejected
    else
      var s :- Normalize(source);
      var kept := Kept(s, retainDeliveredAfter.ms);
      Ok(CompactResult(|kept| != |s|, |s| - |kept|, kept))
  }

  // --- operations against replay ---

  lemma {:induction false} MapFixes(s: seq<Entry>, step: Entry -> Result<Entry>)
    requires forall k :: 0 <= k < |s| ==> step(s[k]) == Ok(s[k])
    ensures MapEntries(s, step) == Ok(s)
  {
    if s != [] {
      MapFixes(s[..|s| - 1], step);
      assert s[..|s| - 1] + [s[|s| - 1]] == s;
    }
  }

  lemma {:induction false} MapAt(s: seq<Entry>, i: nat, step: Entry -> Result<Entry>)
    requires i < |s| && forall k :: 0 <= k < |s| && k != i ==> step(s[k]) == Ok(s[k])
    ensures MapEntries(s, step) == if step(s[i]).Ok? then Ok(s[i := step(s[i]).value]) else Rejected
  {
    var n := |s| - 1;
    if i == n {
      MapFixes(s[..n], step);
      assert step(s[i]).Ok? ==> s[i := step(s[i]).value] == s[..n] + [step(s[i]).value];
    } else {
      MapAt(s[..n], i, step);
      assert step(s[i]).Ok? ==> s[i := step(s[i]).value] == s[..n][i := step(s[i]).value] + [s[n]];
    }
  }

  /** A step that only concerns one event changes its entry or nothing. */
  lemma MapSettles(s: seq<Entry>, eventId: string, step: Entry -> Result<Entry>)
    requires DistinctIds(s)
    requires forall e :: e in s && e.eventId != eventId ==> step(e) == Ok(e)
    ensures var i := IndexOf(s, eventId);
            MapEntries(s, step) ==
              if i == |s| then Ok(s) else if step(s[i]).Ok? then Ok(s[i := step(s[i]).value]) else Rejected
  {
    var i := IndexOf(s, eventId);
    assert forall k :: 0 <= k < |s| ==> s[k] in s;
    if i == |s| {
      MapFixes(s, step);
    } else {
      MapAt(s, i, step);
    }
  }

  /** Recording an attempt on a projection is appending the ATTEMPT record to its journal. */
  lemma AttemptRefinesJournal(journal: seq<Record>, s: seq<Entry>, eventId: string, consumerId: string, at: Stamp)
    requires Project(journal) == Ok(s)
    ensures var appended := Project(journal + [Attempt(eventId, consumerId, at)]);
            var direct := RecordAttempt(s, eventId, consumerId, at);
            if Contains(s, eventId)
            then direct == if appended.Ok? then Ok(AttemptResult(true, appended.value)) else Rejected
            else
              && appended.Rejected?
              && direct == if Canonical(eventId) && Canonical(consumerId) && at.At? then Ok(AttemptResult(false, s))
                           else Rejected
  {
    ProjectIsNormal(journal);
    NormalizeFixes(s);
    ProjectSnoc(journal, Attempt(eventId, consumerId, at));
    MapSettles(s, eventId, (e: Entry) => if e.eventId != eventId then Ok(e) else AttemptEntry(e, consumerId, at));
  }

  /** Acknowledging on a projection is appending the ACK record: same acceptance, same entries. */
  lemma AckRefinesJournal(journal: seq<Record>, s: seq<Entry>, eventId: string, consumerId: string, domain: string,
                          scopeId: string, sequence: int, at: Stamp)
    requires Project(journal) == Ok(s)
    ensures var appended := Project(journal + [Ack(eventId, consumerId, at, domain, scopeId, sequence)]);
            var direct := Acknowledge(s, eventId, consumerId, domain, scopeId, sequence, at);
            if Contains(s, eventId)
            then
              && direct.Ok? == appended.Ok?
              && (direct.Ok? ==> direct.value.found && direct.value.outbox == appended.value
                                 && direct.value.changed == (appended.value != s))
            else
              && appended.Rejected?
              && direct == if Canonical(eventId) && Canonical(consumerId) && Canonical(domain) && Canonical(scopeId)
                               && at.At? && 1 <= sequence <= MAX_SAFE_INTEGER
                           then Ok(AckResult(false, false, s)) else Rejected
  {
    ProjectIsNormal(journal);
    ProjectSnoc(journal, Ack(eventId, consumerId, at, domain, scopeId, sequence));
    AcknowledgeSettles(s, eventId, consumerId, domain, scopeId, sequence, at);
    var i := IndexOf(s, eventId);
    if i < |s| && AckEntry(s[i], consumerId, at, domain, scopeId, sequence).Ok? {
      UpdateChanges(s, i, AckEntry(s[i], consumerId, at, domain, scopeId, sequence).value);
    }
  }

  /** What an acknowledgement does to a projected outbox. */
  lemma AcknowledgeSettles(s: seq<Entry>, eventId: string, consumerId: string, domain: string, scopeId: string,
                           sequence: int, at: Stamp)
    requires Normal(s)
    ensures var i := IndexOf(s, eventId);
            Acknowledge(s, eventId, consumerId, domain, scopeId, sequence, at) ==
              if !AckPermitted(eventId, consumerId, domain, scopeId, sequence, at) then Rejected
              else if i == |s| then Ok(AckResult(false, false, s))
              else if AckEntry(s[i], consumerId, at, domain, scopeId, sequence).Rejected? then Rejected
              else
                var e := AckEntry(s[i], consumerId, at, domain, scopeId, sequence).value;
                Ok(AckResult(true, e != s[i], s[i := e]))
  {
    var i := IndexOf(s, eventId);
    NormalizeFixes(s);
    MapSettles(s, eventId, AckStep(eventId, consumerId, domain, scopeId, sequence, at));
    if i < |s| && AckEntry(s[i], consumerId, at, domain, scopeId, sequence).Ok? && at.At? {
      AckChanges(s[i], consumerId, at, domain, scopeId, sequence);
      OnlyAt(s, i);
    }
  }

  /** An acknowledgement changes an entry unless the consumer already has the event. */
  lemma AckChanges(e: Entry, consumerId: string, at: Stamp, domain: string, scopeId: string, sequence: int)
    requires at.At? && AckEntry(e, consumerId, at, domain, scopeId, sequence).Ok?
    ensures AckEntry(e, consumerId, at, domain, scopeId, sequence).value != e <==>
        DeliveryTo(e, consumerId).deliveredAt == Blank
  {
    var after := AckEntry(e, consumerId, at, domain, scopeId, sequence).value;
    assert DeliveryTo(after, consumerId).deliveredAt != Blank;
  }

  lemma UpdateChanges(s: seq<Entry>, i: nat, e: Entry)
    requires i < |s|
    ensures s[i := e] != s <==> e != s[i]
  {
    assert s[i := e][i] == e;
  }

  lemma OnlyAt(s: seq<Entry>, i: nat)
    requires DistinctIds(s) && i < |s|
    ensures forall k :: 0 <= k < |s| && s[k].eventId == s[i].eventId ==> k == i
  {
  }

  /** The REMOVE records of some entries. */
  function Removals(dropped: seq<Entry>): seq<Record> {
    seq(|dropped|, k requires 0 <= k < |dropped| => Remove(dropped[k].eventId))
  }

  /** The list without some events. */
  function Without(s: seq<Entry>, eventIds: set<string>): seq<Entry> {
    if s == [] then []
    else if s[|s| - 1].eventId in eventIds then Without(s[..|s| - 1], eventIds)
    else Without(s[..|s| - 1], eventIds) + [s[|s| - 1]]
  }

  lemma {:induction false} WithoutAbsent(s: seq<Entry>, eventIds: set<string>)
    requires forall i :: 0 <= i < |s| ==> s[i].eventId !in eventIds
    ensures Without(s, eventIds) == s
  {
    if s != [] {
      WithoutAbsent(s[..|s| - 1], eventIds);
    }
  }

  lemma {:induction false} WithoutTwice(s: seq<Entry>, a: set<string>, b: set<string>)
    ensures Without(Without(s, a), b) == Without(s, a + b)
  {
    if s != [] {
      var before, last := s[..|s| - 1], s[|s| - 1];
      WithoutTwice(before, a, b);
      assert (Without(before, a) + [last])[..|Without(before, a)|] == Without(before, a);
    }
  }

  lemma DeleteSnoc(before: seq<Entry>, last: Entry, eventId: string)
    requires DistinctIds(before + [last])
    ensures Deleted(before + [last], eventId) ==
      if last.eventId == eventId then before else Deleted(before, eventId) + [last]
  {
    var s := before + [last];
    var i, j := IndexOf(before, eventId), IndexOf(s, eventId);
    assert s[|before|] == last;
    if i < |before| {
      assert s[i] == before[i] && j == i;
      assert s[..i] == before[..i] && s[i + 1..] == before[i + 1..] + [last];
    } else {
      assert j == if last.eventId == eventId then |before| else |s|;
    }
  }

  /** Deleting the one entry of an id is leaving it out. */
  lemma {:induction false} DeleteIsWithout(s: seq<Entry>, eventId: string)
    requires DistinctIds(s)
    ensures Deleted(s, eventId) == Without(s, {eventId})
  {
    if s != [] {
      var before, last := s[..|s| - 1], s[|s| - 1];
      assert before + [last] == s;
      DeleteIsWithout(before, eventId);
      DeleteSnoc(before, last, eventId);
      if last.eventId == eventId {
        WithoutAbsent(before, {eventId});
      }
    }
  }

  lemma RemovalsSnoc(journal: seq<Record>, before: seq<Entry>, last: Entry)
    ensures journal + Removals(before + [last]) == (journal + Removals(before)) + [Remove(last.eventId)]
  {
    assert Removals(before + [last]) == Removals(before) + [Remove(last.eventId)];
  }

  lemma RemoveOneMore(journal: seq<Record>, s: seq<Entry>, eventId: string)
    requires Project(journal) == Ok(s) && Canonical(eventId)
    ensures Project(journal + [Remove(eventId)]) == Ok(Without(s, {eventId}))
  {
    ProjectSnoc(journal, Remove(eventId));
    ProjectIsNormal(journal);
    DeleteIsWithout(s, eventId);
  }

  lemma {:induction false} RemovalsProject(journal: seq<Record>, s: seq<Entry>, dropped: seq<Entry>)
    requires Project(journal) == Ok(s)
    requires forall i :: 0 <= i < |dropped| ==> Canonical(dropped[i].eventId)
    ensures Project(journal + Removals(dropped)) == Ok(Without(s, Ids(dropped)))
  {
    if dropped == [] {
      assert journal + Removals(dropped) == journal;
      WithoutAbsent(s, Ids(dropped));
    } else {
      var before, last := dropped[..|dropped| - 1], dropped[|dropped| - 1];
      RemovalsProject(journal, s, before);
      OneRemovalMore(journal, s, before, last);
      LastPutBack(dropped);
    }
  }

  lemma LastPutBack(s: seq<Entry>)
    requires s != []
    ensures s[..|s| - 1] + [s[|s| - 1]] == s
  {
  }

  lemma OneRemovalMore(journal: seq<Record>, s: seq<Entry>, before: seq<Entry>, last: Entry)
    requires Project(journal + Removals(before)) == Ok(Without(s, Ids(before))) && Canonical(last.eventId)
    ensures Project(journal + Removals(before + [last])) == Ok(Without(s, Ids(before + [last])))
  {
    RemovalsSnoc(journal, before, last);
    RemoveOneMore(journal + Removals(before), Without(s, Ids(before)), last.eventId);
    IdsAppend(before, last);
    WithoutTwice(s, Ids(before), {last.eventId});
  }

  lemma IdsAppend(s: seq<Entry>, e: Entry)
    ensures Ids(s + [e]) == Ids(s) + {e.eventId}
  {
    var t := s + [e];
    forall x | x in Ids(s) + {e.eventId} ensures x in Ids(t) {
      if x in Ids(s) {
        var i :| 0 <= i < |s| && s[i].eventId == x;
        assert t[i].eventId == x;
      } else {
        assert t[|s|].eventId == x;
      }
    }
    forall x | x in Ids(t) ensures x in Ids(s) + {e.eventId} {
      var i :| 0 <= i < |t| && t[i].eventId == x;
      if i < |s| {
        assert s[i].eventId == x;
      }
    }
  }

  /** Kept and dropped entries part the list by `Retained`. */
  lemma {:induction false} CompactionParts(s: seq<Entry>, cutoff: int)
    ensures |Kept(s, cutoff)| + |Dropped(s, cutoff)| == |s|
    ensures forall e :: e in Kept(s, cutoff) <==> e in s && Retained(e, cutoff)
    ensures forall e :: e in Dropped(s, cutoff) <==> e in s && !Retained(e, cutoff)
  {
    if s != [] {
      CompactionParts(s[..|s| - 1], cutoff);
      assert s == s[..|s| - 1] + [s[|s| - 1]];
    }
  }

  lemma SameIdSameEntry(s: seq<Entry>, d: Entry, e: Entry)
    requires DistinctIds(s) && d in s && e in s && d.eventId == e.eventId
    ensures d == e
  {
    var i :| 0 <= i < |s| && s[i] == d;
    var j :| 0 <= j < |s| && s[j] == e;
  }

  lemma {:induction false} KeptIsWithout(s: seq<Entry>, cutoff: int, eventIds: set<string>)
    requires forall i :: 0 <= i < |s| ==> (s[i].eventId in eventIds <==> !Retained(s[i], cutoff))
    ensures Kept(s, cutoff) == Without(s, eventIds)
  {
    if s != [] {
      KeptIsWithout(s[..|s| - 1], cutoff, eventIds);
    }
  }

  lemma DroppedIds(s: seq<Entry>, cutoff: int)
    requires DistinctIds(s)
    ensures forall i :: 0 <= i < |s| ==> (s[i].eventId in Ids(Dropped(s, cutoff)) <==> !Retained(s[i], cutoff))
  {
    var dropped := Dropped(s, cutoff);
    CompactionParts(s, cutoff);
    forall i | 0 <= i < |s| ensures s[i].eventId in Ids(dropped) <==> !Retained(s[i], cutoff) {
      if !Retained(s[i], cutoff) {
        assert s[i] in dropped;
        var k :| 0 <= k < |dropped| && dropped[k] == s[i];
      } else if s[i].eventId in Ids(dropped) {
        var k :| 0 <= k < |dropped| && dropped[k].eventId == s[i].eventId;
        assert dropped[k] in dropped;
        SameIdSameEntry(s, dropped[k], s[i]);
      }
    }
  }

  /** Compacting a projection is appending a REMOVE per dropped event. */
  lemma CompactRefinesJournal(journal: seq<Record>, s: seq<Entry>, cutoff: int)
    requires Project(journal) == Ok(s)
    ensures Compact(s, At(cutoff)).Ok?
    ensures Project(journal + Removals(Dropped(s, cutoff))) == Ok(Compact(s, At(cutoff)).value.outbox)
    ensures Compact(s, At(cutoff)).value.removed == |Dropped(s, cutoff)|
  {
    ProjectIsNormal(journal);
    NormalizeFixes(s);
    CompactionParts(s, cutoff);
    DroppedIds(s, cutoff);
    KeptIsWithout(s, cutoff, Ids(Dropped(s, cutoff)));
    forall i | 0 <= i < |Dropped(s, cutoff)| ensures Canonical(Dropped(s, cutoff)[i].eventId) {
      assert Dropped(s, cutoff)[i] in s;
    }
    RemovalsProject(journal, s, Dropped(s, cutoff));
  }

  /** An event leaves in a compaction exactly when some consumer is recorded for it and every
      recorded consumer received it before the cutoff. */
  lemma CompactDropsOnlyDelivered(s: seq<Entry>, cutoff: int, e: Entry)
    requires Normal(s) && e in s
    ensures Compact(s, At(cutoff)).Ok?
    ensures e !in Compact(s, At(cutoff)).value.outbox <==>
      && e.deliveries != map[]
      && forall c :: c in e.deliveries ==>
           e.deliveries[c].status == Delivered && e.deliveries[c].deliveredAt.ms < cutoff
  {
    NormalizeFixes(s);
    CompactionParts(s, cutoff);
    var i :| 0 <= i < |s| && s[i] == e;
    assert NormalEntry(s[i]);
  }
}
