/** What the facts of an activity timeline carry, read off the events of a run: a settled activity
    shows its last durable event, an unsettled one its deltas. */
module ActivityFacts {
  import opened ActivityTimeline
  import opened ActivityRuns

  // --- settled activities ---

  /** A fact is the durable event's, field by field. */
  predicate Carries(f: Fact, e: Envelope) {
    && f.eventId == e.eventId && f.eventType == e.eventType && f.activityId == e.activityId
    && f.text == e.text && f.sequence == e.sequence && f.details == e.details
  }

  /** A durable event takes the place of another of its id or of its activity. */
  predicate Supersedes(later: Envelope, e: Envelope) {
    later.eventId == e.eventId || (later.activityId == e.activityId && e.activityId != "")
  }

  /** No later event of these takes its place. */
  ghost predicate Current(durables: seq<Envelope>, i: nat)
    requires i < |durables|
  {
    forall j :: i < j < |durables| ==> !Supersedes(durables[j], durables[i])
  }

  /** A fact is that of a durable event still current. */
  ghost predicate FromCurrent(f: Fact, durables: seq<Envelope>) {
    exists i :: 0 <= i < |durables| && Current(durables, i) && Carries(f, durables[i])
  }

  lemma {:induction false} PurgeHas(t: seq<Fact>, eventId: string, activityId: string, f: Fact)
    ensures f in Purge(t, eventId, activityId) <==>
              f in t && f.eventId != eventId && (f.activityId != activityId || activityId == "")
  {
    if t != [] {
      PurgeHas(t[..|t| - 1], eventId, activityId, f);
      assert t == t[..|t| - 1] + [t[|t| - 1]];
    }
  }

  lemma CurrentAppend(durables: seq<Envelope>, e: Envelope, f: Fact)
    ensures FromCurrent(f, durables + [e]) <==>
              Carries(f, e) || (FromCurrent(f, durables)
                && f.eventId != e.eventId && (f.activityId != e.activityId || e.activityId == ""))
  {
    var longer := durables + [e];
    assert longer[|durables|] == e && forall i :: 0 <= i < |durables| ==> longer[i] == durables[i];
    forall i | 0 <= i < |durables|
      ensures Current(longer, i) <==> Current(durables, i) && !Supersedes(e, durables[i])
    {
    }
    assert Current(longer, |durables|);
  }

  /** Durable events alone: the facts are exactly those of the current events. */
  lemma {:induction false} DurableFacts(durables: seq<Envelope>, f: Fact)
    requires OneActivityPerEvent(durables) && forall e :: e in durables ==> IsDurable(e)
    ensures f in Fold(durables) <==> FromCurrent(f, durables)
  {
    if durables != [] {
      var before, e := durables[..|durables| - 1], durables[|durables| - 1];
      assert durables == before + [e];
      assert OneActivityPerEvent(before);
      DurableFacts(before, f);
      FoldOrderly(before);
      FromMore(Fold(before), before, durables);
      DurableReplaces(Fold(before), durables, e);
      InsertHas(Purge(Fold(before), e.eventId, e.activityId), FactOf(e, 1));
      PurgeHas(Fold(before), e.eventId, e.activityId, f);
      CurrentAppend(before, e, f);
    }
  }

  lemma {:induction false} StripKeeps(t: seq<Fact>, settled: set<string>, f: Fact)
    ensures f in Strip(t, settled) <==> f in t && (f.activityId == "" || f.activityId in settled)
  {
    if t != [] {
      StripKeeps(t[..|t| - 1], settled, f);
      assert t == t[..|t| - 1] + [t[|t| - 1]];
    }
  }

  lemma {:induction false} DurablesAre(events: seq<Envelope>)
    ensures forall e :: e in Durables(events) <==> e in events && IsDurable(e)
  {
    if events != [] {
      DurablesAre(events[..|events| - 1]);
      assert events == events[..|events| - 1] + [events[|events| - 1]];
    }
  }

  /** In every run the facts of settled activities, and those of none, are exactly those of the
      current durable events: each with its event's id, type, text, sequence and details. */
  lemma SettledFacts(events: seq<Envelope>, f: Fact)
    requires OneActivityPerEvent(events) && DeltasFirst(events)
    ensures f in Fold(events) && (f.activityId == "" || f.activityId in Settled(events)) <==>
              FromCurrent(f, Durables(events))
  {
    SettledPartIsDurable(events);
    StripKeeps(Fold(events), Settled(events), f);
    DurablesWithin(events);
    DurablesAre(events);
    DurableFacts(Durables(events), f);
  }

  // --- unsettled activities ---

  predicate IsDeltaOf(e: Envelope, activityId: string) {
    IsDelta(e) && e.activityId == activityId
  }

  ghost predicate FirstDelta(events: seq<Envelope>, i: nat, activityId: string) {
    i < |events| && IsDeltaOf(events[i], activityId) && forall j :: 0 <= j < i ==> !IsDeltaOf(events[j], activityId)
  }

  ghost predicate LastDelta(events: seq<Envelope>, i: nat, activityId: string) {
    i < |events| && IsDeltaOf(events[i], activityId)
    && forall j :: i < j < |events| ==> !IsDeltaOf(events[j], activityId)
  }

  /** The sequence of the last fact of the timeline, but at least one. */
  function EndOf(t: seq<Fact>): int {
    if t == [] || t[|t| - 1].sequence < 1 then 1 else t[|t| - 1].sequence
  }

  /** The fact has the id, type and details of the last delta, and stands where the first was put: at
      the end of the timeline as it was then. */
  ghost predicate ShowsDeltas(events: seq<Envelope>, activityId: string, first: nat, last: nat, f: Fact) {
    && FirstDelta(events, first, activityId) && LastDelta(events, last, activityId)
    && f in Fold(events) && f.activityId == activityId
    && f.eventId == events[last].eventId && f.eventType == events[last].activityEventType
    && f.details == events[last].details && f.sequence == EndOf(Fold(events[..first]))
  }

  /** In every run of distinct events, an activity with deltas and no durable event shows such a fact;
      its text is the deltas' by `DeltasConcatenate`. */
  lemma {:induction false} UnsettledFact(events: seq<Envelope>, activityId: string)
    returns (first: nat, last: nat, f: Fact)
    requires DistinctEvents(events) && activityId != "" && HasDelta(events, activityId)
    requires forall e :: e in events && IsDurable(e) ==> e.activityId != activityId
    ensures ShowsDeltas(events, activityId, first, last, f)
  {
    var n := |events| - 1;
    var before, e := events[..n], events[n];
    assert events == before + [e];
    DistinctIsOne(events);
    FoldOrderly(before);
    NewEvent(before, e, Fold(before));
    if HasDelta(before, activityId) {
      var was;
      first, last, was := UnsettledFact(before, activityId);
      if IsDeltaOf(e, activityId) {
        f := DeltaOnto(Fold(before), e, was);
        DeltaShows(before, e, activityId, first, last, was, f);
        last := n;
      } else {
        f := was;
        OtherShows(before, e, activityId, first, last, f);
      }
    } else {
      NoFactYet(before, activityId);
      first, last, f := n, n, FactOf(e, Tail(Fold(before)));
      FirstShows(before, e, activityId);
    }
  }

  lemma NoFactYet(before: seq<Envelope>, activityId: string)
    requires DistinctEvents(before) && activityId != "" && !HasDelta(before, activityId)
    requires forall e :: e in before && IsDurable(e) ==> e.activityId != activityId
    ensures IndexOfActivity(Fold(before), activityId) == |Fold(before)|
  {
    DeltasConcatenate(before, activityId);
  }

  /** The first delta of an activity opens its fact. */
  lemma FirstShows(before: seq<Envelope>, e: Envelope, activityId: string)
    requires IsDeltaOf(e, activityId) && !HasDelta(before, activityId)
    requires IndexOfEvent(Fold(before), e.eventId) == |Fold(before)|
    requires IndexOfActivity(Fold(before), activityId) == |Fold(before)|
    ensures ShowsDeltas(before + [e], activityId, |before|, |before|, FactOf(e, Tail(Fold(before))))
  {
    var events := before + [e];
    assert events[..|before|] == before && events[|before|] == e;
    forall j | 0 <= j < |before| ensures !IsDeltaOf(events[j], activityId) {
      assert before[j] in before;
    }
    InsertedHas(Fold(before), FactOf(e, Tail(Fold(before))), FactOf(e, Tail(Fold(before))));
  }

  lemma DeltaShows(before: seq<Envelope>, e: Envelope, activityId: string, first: nat, last: nat, was: Fact, f: Fact)
    requires ShowsDeltas(before, activityId, first, last, was) && IsDeltaOf(e, activityId)
    requires f in Reduce(Fold(before), e) && f.activityId == activityId && f.eventId == e.eventId
    requires f.eventType == e.activityEventType && f.details == e.details && f.sequence == was.sequence
    ensures ShowsDeltas(before + [e], activityId, first, |before|, f)
  {
    var events := before + [e];
    assert events[..|before|] == before && events[|before|] == e && events[..first] == before[..first];
    assert forall j :: 0 <= j <= first ==> events[j] == before[j];
  }

  lemma OtherShows(before: seq<Envelope>, e: Envelope, activityId: string, first: nat, last: nat, f: Fact)
    requires ShowsDeltas(before, activityId, first, last, f) && !IsDeltaOf(e, activityId)
    requires IsDurable(e) ==> e.activityId != activityId
    requires IndexOfEvent(Fold(before), e.eventId) == |Fold(before)|
    ensures ShowsDeltas(before + [e], activityId, first, last, f)
  {
    var events := before + [e];
    assert events[..|before|] == before && events[..first] == before[..first];
    assert forall j :: 0 <= j < |before| ==> events[j] == before[j];
    if e.activityId != activityId {
      ReduceRetains(Fold(before), e, f);
    }
  }

  /** A further delta takes its activity's fact over, in place. */
  lemma DeltaOnto(t: seq<Fact>, e: Envelope, was: Fact) returns (f: Fact)
    requires UniqueActivities(t) && IsDelta(e) && e.activityId != "" && IndexOfEvent(t, e.eventId) == |t|
    requires was in t && was.activityId == e.activityId && was.sequence >= 1
    ensures f in Reduce(t, e) && f.activityId == e.activityId && f.eventId == e.eventId
    ensures f.eventType == e.activityEventType && f.details == e.details && f.sequence == was.sequence
  {
    var k := IndexOfActivity(t, e.activityId);
    var i :| 0 <= i < |t| && t[i] == was;
    f := FactOf(e, t[k].sequence).(text := t[k].text + e.text);
    InsertedHas(RemoveAt(t, k), f, f);
  }
}
