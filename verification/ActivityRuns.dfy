/** Whole runs of activity events: what deltas amount to until a durable event arrives, and that
    once every activity has one the deltas leave no trace. */
module ActivityRuns {
  import opened ActivityTimeline

  /** An event id always names the same activity. */
  ghost predicate OneActivityPerEvent(events: seq<Envelope>) {
    forall e, f :: e in events && f in events && e.eventId == f.eventId ==> e.activityId == f.activityId
  }

  /** The facts of a list stem from events of the run. */
  ghost predicate FromEvents(t: seq<Fact>, events: seq<Envelope>) {
    forall f :: f in t ==> exists e :: e in events && e.eventId == f.eventId && e.activityId == f.activityId
  }

  ghost predicate Orderly(t: seq<Fact>, events: seq<Envelope>) {
    Sorted(t) && UniqueEvents(t) && UniqueActivities(t) && FromEvents(t, events)
  }

  lemma ReduceMembers(t: seq<Fact>, e: Envelope)
    ensures forall f :: f in Reduce(t, e) ==> f in t || (f.eventId == e.eventId && f.activityId == e.activityId)
  {
    var i, k := IndexOfEvent(t, e.eventId), IndexOfActivity(t, e.activityId);
    if IsActivity(e) && i < |t| && !IsTransient(e) {
      RemoveKeeps(t, i);
      InsertHas(RemoveAt(t, i), FactOf(e, 1));
    } else if IsActivity(e) && i == |t| && k < |t| {
      RemoveKeeps(t, k);
      var fact := FactOf(e, t[k].sequence);
      InsertHas(RemoveAt(t, k), if IsTransient(e) then fact.(text := t[k].text + fact.text) else fact);
    } else if IsActivity(e) && i == |t| {
      InsertHas(t, FactOf(e, Tail(t)));
    }
  }

  lemma ReduceOrderly(t: seq<Fact>, events: seq<Envelope>, e: Envelope)
    requires Orderly(t, events) && OneActivityPerEvent(events + [e])
    ensures Orderly(Reduce(t, e), events + [e])
  {
    ReduceKeepsOrder(t, e);
    var i := IndexOfEvent(t, e.eventId);
    assert !Renames(t, e) by {
      if i < |t| {
        assert t[i] in t;
        var x :| x in events && x.eventId == t[i].eventId && x.activityId == t[i].activityId;
        assert x in events + [e] && e in events + [e];
      }
    }
    ReduceKeepsActivitiesIff(t, e);
    ReduceMembers(t, e);
    forall f | f in Reduce(t, e)
      ensures exists x :: x in events + [e] && x.eventId == f.eventId && x.activityId == f.activityId
    {
      if f in t {
        var x :| x in events && x.eventId == f.eventId && x.activityId == f.activityId;
        assert x in events + [e];
      } else {
        assert e in events + [e];
      }
    }
  }

  /** Along every run in which an event id fixes its activity, the timeline is sorted and has one
      fact per event and per activity. */
  lemma {:induction false} FoldOrderly(events: seq<Envelope>)
    requires OneActivityPerEvent(events)
    ensures Orderly(Fold(events), events)
  {
    if events != [] {
      var before, e := events[..|events| - 1], events[|events| - 1];
      assert events == before + [e];
      FoldOrderly(before);
      ReduceOrderly(Fold(before), before, e);
    }
  }

  // --- the text of an activity ---

  /** The texts of an activity's deltas, in order. */
  function DeltaText(events: seq<Envelope>, activityId: string): string {
    if events == [] then ""
    else
      var before, e := DeltaText(events[..|events| - 1], activityId), events[|events| - 1];
      if IsDelta(e) && e.activityId == activityId then before + e.text else before
  }

  predicate HasDelta(events: seq<Envelope>, activityId: string) {
    exists e :: e in events && IsDelta(e) && e.activityId == activityId
  }

  ghost predicate DistinctEvents(events: seq<Envelope>) {
    forall i, j :: 0 <= i < j < |events| ==> events[i].eventId != events[j].eventId
  }

  /** The list shows the activity's text, or nothing while it has no delta. */
  ghost predicate Shows(t: seq<Fact>, activityId: string, shown: bool, text: string) {
    var k := IndexOfActivity(t, activityId);
    if shown then k < |t| && t[k].text == text else k == |t|
  }

  lemma ShownIs(t: seq<Fact>, activityId: string, f: Fact)
    requires UniqueActivities(t) && activityId != "" && f in t && f.activityId == activityId
    ensures Shows(t, activityId, true, f.text)
  {
    var i :| 0 <= i < |t| && t[i] == f;
  }

  lemma ShownElsewhere(t: seq<Fact>, e: Envelope, activityId: string, shown: bool, text: string)
    requires UniqueActivities(t) && UniqueActivities(Reduce(t, e)) && activityId != ""
    requires e.activityId != activityId && Shows(t, activityId, shown, text)
    requires IndexOfEvent(t, e.eventId) == |t|
    ensures Shows(Reduce(t, e), activityId, shown, text)
  {
    var t' := Reduce(t, e);
    ReduceMembers(t, e);
    if shown {
      var f := t[IndexOfActivity(t, activityId)];
      ReduceRetains(t, e, f);
      ShownIs(t', activityId, f);
    } else {
      NoSuchActivity(t, activityId);
      NoSuchActivity(t', activityId);
    }
  }

  lemma InsertedHas(t: seq<Fact>, f: Fact, g: Fact)
    requires g in t || g == f
    ensures g in Insert(t, f)
  {
    InsertHas(t, f);
  }

  lemma RemovedHas(t: seq<Fact>, k: nat, f: Fact)
    requires k < |t| && f in t && f != t[k]
    ensures f in RemoveAt(t, k)
  {
    var i :| 0 <= i < |t| && t[i] == f;
    assert RemoveAt(t, k)[if i < k then i else i - 1] == f;
  }

  lemma ReduceRetains(t: seq<Fact>, e: Envelope, f: Fact)
    requires f in t && IndexOfEvent(t, e.eventId) == |t|
    requires f.activityId != e.activityId
    ensures f in Reduce(t, e)
  {
    var k := IndexOfActivity(t, e.activityId);
    if IsActivity(e) && k < |t| {
      RemovedHas(t, k, f);
      var fact := FactOf(e, t[k].sequence);
      InsertedHas(RemoveAt(t, k), if IsTransient(e) then fact.(text := t[k].text + fact.text) else fact, f);
    } else if IsActivity(e) {
      InsertedHas(t, FactOf(e, Tail(t)), f);
    }
  }

  lemma DeltaGrows(t: seq<Fact>, e: Envelope, shown: bool, text: string)
    requires UniqueActivities(t) && UniqueActivities(Reduce(t, e)) && e.activityId != "" && IsDelta(e)
    requires IndexOfEvent(t, e.eventId) == |t| && Shows(t, e.activityId, shown, text) && (shown || text == "")
    ensures Shows(Reduce(t, e), e.activityId, true, text + e.text)
  {
    var k := IndexOfActivity(t, e.activityId);
    if k < |t| {
      var f := FactOf(e, t[k].sequence).(text := t[k].text + e.text);
      InsertedHas(RemoveAt(t, k), f, f);
      ShownIs(Reduce(t, e), e.activityId, f);
    } else {
      var f := FactOf(e, Tail(t));
      InsertedHas(t, f, f);
      ShownIs(Reduce(t, e), e.activityId, f);
      assert "" + e.text == e.text;
    }
  }

  lemma NewId(events: seq<Envelope>, e: Envelope, x: Envelope)
    requires DistinctEvents(events + [e]) && x in events
    ensures x.eventId != e.eventId
  {
    var all := events + [e];
    var j :| 0 <= j < |events| && events[j] == x;
    assert all[j] == x && all[|events|] == e;
  }

  lemma NewEvent(events: seq<Envelope>, e: Envelope, t: seq<Fact>)
    requires DistinctEvents(events + [e]) && FromEvents(t, events)
    ensures IndexOfEvent(t, e.eventId) == |t|
  {
    forall f | f in t ensures f.eventId != e.eventId {
      var x :| x in events && x.eventId == f.eventId && x.activityId == f.activityId;
      NewId(events, e, x);
    }
    NoSuchEvent(t, e.eventId);
  }

  lemma DistinctIsOne(events: seq<Envelope>)
    requires DistinctEvents(events)
    ensures OneActivityPerEvent(events)
  {
    forall e, f | e in events && f in events && e.eventId == f.eventId ensures e.activityId == f.activityId {
      var i :| 0 <= i < |events| && events[i] == e;
      var j :| 0 <= j < |events| && events[j] == f;
    }
  }

  /** In every run of distinct events, an activity without a durable event so far shows exactly the
      concatenation of its deltas. */
  lemma {:induction false} DeltasConcatenate(events: seq<Envelope>, activityId: string)
    requires DistinctEvents(events) && activityId != ""
    requires forall e :: e in events && IsDurable(e) ==> e.activityId != activityId
    ensures Shows(Fold(events), activityId, HasDelta(events, activityId), DeltaText(events, activityId))
    ensures !HasDelta(events, activityId) ==> DeltaText(events, activityId) == ""
  {
    if events != [] {
      var before, e := events[..|events| - 1], events[|events| - 1];
      assert events == before + [e];
      DeltasConcatenate(before, activityId);
      DistinctIsOne(events);
      FoldOrderly(before);
      FoldOrderly(events);
      NewEvent(before, e, Fold(before));
      var shown, text := HasDelta(before, activityId), DeltaText(before, activityId);
      if IsDelta(e) && e.activityId == activityId {
        DeltaGrows(Fold(before), e, shown, text);
        assert e in events;
      } else {
        assert HasDelta(events, activityId) == shown;
        if e.activityId != activityId {
          ShownElsewhere(Fold(before), e, activityId, shown, text);
        }
      }
    }
  }

  // --- convergence ---

  function Durables(events: seq<Envelope>): seq<Envelope> {
    if events == [] then []
    else if IsDurable(events[|events| - 1]) then Durables(events[..|events| - 1]) + [events[|events| - 1]]
    else Durables(events[..|events| - 1])
  }

  /** Activities a durable event has named. */
  function Settled(events: seq<Envelope>): set<string> {
    set e | e in events && IsDurable(e) :: e.activityId
  }

  /** The facts of settled activities, and those of no activity. */
  function Strip(t: seq<Fact>, settled: set<string>): seq<Fact> {
    if t == [] then []
    else
      var f := t[|t| - 1];
      if f.activityId == "" || f.activityId in settled then Strip(t[..|t| - 1], settled) + [f]
      else Strip(t[..|t| - 1], settled)
  }

  lemma StripAppend(t: seq<Fact>, f: Fact, settled: set<string>)
    ensures Strip(t + [f], settled) ==
      if f.activityId == "" || f.activityId in settled then Strip(t, settled) + [f] else Strip(t, settled)
  {
    assert (t + [f])[..|t|] == t;
  }

  /** The list without an event and, unless it is empty, an activity. */
  function Purge(t: seq<Fact>, eventId: string, activityId: string): seq<Fact> {
    if t == [] then []
    else
      var f := t[|t| - 1];
      if f.eventId == eventId || (f.activityId == activityId && activityId != "")
      then Purge(t[..|t| - 1], eventId, activityId)
      else Purge(t[..|t| - 1], eventId, activityId) + [f]
  }

  lemma PurgeAppend(t: seq<Fact>, f: Fact, eventId: string, activityId: string)
    ensures Purge(t + [f], eventId, activityId) ==
      if f.eventId == eventId || (f.activityId == activityId && activityId != "") then Purge(t, eventId, activityId)
      else Purge(t, eventId, activityId) + [f]
  {
    assert (t + [f])[..|t|] == t;
  }

  lemma {:induction false} PurgeNothing(t: seq<Fact>, eventId: string, activityId: string)
    requires forall f :: f in t ==> f.eventId != eventId && (f.activityId != activityId || activityId == "")
    ensures Purge(t, eventId, activityId) == t
  {
    if t != [] {
      assert t[|t| - 1] in t && forall f :: f in t[..|t| - 1] ==> f in t;
      PurgeNothing(t[..|t| - 1], eventId, activityId);
    }
  }

  lemma {:induction false} PurgeOne(t: seq<Fact>, i: nat, eventId: string, activityId: string)
    requires i < |t|
    requires t[i].eventId == eventId || (t[i].activityId == activityId && activityId != "")
    requires forall k :: 0 <= k < |t| && k != i ==>
        t[k].eventId != eventId && (t[k].activityId != activityId || activityId == "")
    ensures Purge(t, eventId, activityId) == RemoveAt(t, i)
  {
    var before, last := t[..|t| - 1], t[|t| - 1];
    if i == |t| - 1 {
      PurgeNothing(before, eventId, activityId);
      assert RemoveAt(t, i) == before;
    } else {
      PurgeOne(before, i, eventId, activityId);
      assert RemoveAt(t, i) == RemoveAt(before, i) + [last];
    }
  }

  /** A durable event on an orderly list replaces its event's and its activity's fact. */
  lemma DurableReplaces(t: seq<Fact>, events: seq<Envelope>, e: Envelope)
    requires Orderly(t, events) && e in events && OneActivityPerEvent(events) && IsDurable(e)
    ensures Reduce(t, e) == Insert(Purge(t, e.eventId, e.activityId), FactOf(e, 1))
  {
    var i, k := IndexOfEvent(t, e.eventId), IndexOfActivity(t, e.activityId);
    if i < |t| {
      assert t[i] in t;
      var x :| x in events && x.eventId == t[i].eventId && x.activityId == t[i].activityId;
      assert t[i].activityId == e.activityId;
      PurgeOne(t, i, e.eventId, e.activityId);
    } else if k < |t| {
      PurgeOne(t, k, e.eventId, e.activityId);
    } else {
      assert forall f :: f in t ==> f.eventId != e.eventId;
      PurgeNothing(t, e.eventId, e.activityId);
    }
  }

  lemma {:induction false} StripInsert(t: seq<Fact>, f: Fact, settled: set<string>)
    requires Sorted(t)
    ensures Strip(Insert(t, f), settled) ==
      if f.activityId == "" || f.activityId in settled then Insert(Strip(t, settled), f) else Strip(t, settled)
  {
    if t == [] || t[|t| - 1].sequence <= f.sequence {
      assert (t + [f])[..|t|] == t;
      StripBelow(t, settled, f.sequence);
    } else {
      var before, last := t[..|t| - 1], t[|t| - 1];
      StripInsert(before, f, settled);
      StripAppend(Insert(before, f), last, settled);
      if last.activityId == "" || last.activityId in settled {
        assert (Strip(before, settled) + [last])[..|Strip(before, settled)|] == Strip(before, settled);
      }
    }
  }

  lemma {:induction false} StripBelow(t: seq<Fact>, settled: set<string>, bound: int)
    requires Sorted(t) && (t != [] ==> t[|t| - 1].sequence <= bound)
    ensures var s := Strip(t, settled); s != [] ==> s[|s| - 1].sequence <= bound
  {
    if t != [] {
      StripBelow(t[..|t| - 1], settled, bound);
    }
  }

  lemma {:induction false} StripPurge(t: seq<Fact>, settled: set<string>, eventId: string, activityId: string)
    requires forall f :: f in t && f.eventId == eventId ==> f.activityId == activityId
    ensures Strip(Purge(t, eventId, activityId), if activityId == "" then settled else settled + {activityId})
         == Purge(Strip(t, settled), eventId, activityId)
  {
    if t != [] {
      var before, last := t[..|t| - 1], t[|t| - 1];
      assert last in t && forall f :: f in before ==> f in t;
      StripPurge(before, settled, eventId, activityId);
      StripAppend(Purge(before, eventId, activityId), last,
                  if activityId == "" then settled else settled + {activityId});
      PurgeAppend(Strip(before, settled), last, eventId, activityId);
    }
  }

  lemma {:induction false} PurgeSorted(t: seq<Fact>, eventId: string, activityId: string)
    requires Sorted(t)
    ensures Sorted(Purge(t, eventId, activityId))
    ensures forall f :: f in Purge(t, eventId, activityId) ==> f in t
  {
    if t != [] {
      var before, last := t[..|t| - 1], t[|t| - 1];
      PurgeSorted(before, eventId, activityId);
      assert t == before + [last];
      forall f | f in before ensures f.sequence <= last.sequence {
      }
    }
  }

  /** A durable event acts on the stripped list as it does on the whole one. */
  lemma DurableCommutes(t: seq<Fact>, events: seq<Envelope>, e: Envelope, settled: set<string>)
    requires Orderly(t, events) && Orderly(Strip(t, settled), events)
    requires e in events && OneActivityPerEvent(events) && IsDurable(e)
    ensures Strip(Reduce(t, e), settled + {e.activityId}) == Reduce(Strip(t, settled), e)
  {
    var s, f := Strip(t, settled), FactOf(e, 1);
    DurableReplaces(t, events, e);
    DurableReplaces(s, events, e);
    forall g | g in t && g.eventId == e.eventId ensures g.activityId == e.activityId {
      var x :| x in events && x.eventId == g.eventId && x.activityId == g.activityId;
    }
    StripPurge(t, settled, e.eventId, e.activityId);
    PurgeSorted(t, e.eventId, e.activityId);
    StripInsert(Purge(t, e.eventId, e.activityId), f, settled + {e.activityId});
    if e.activityId == "" {
      StripSame(Purge(t, e.eventId, e.activityId), settled, settled + {e.activityId});
    }
  }

  lemma {:induction false} StripSame(t: seq<Fact>, a: set<string>, b: set<string>)
    requires a + {""} == b + {""}
    ensures Strip(t, a) == Strip(t, b)
  {
    if t != [] {
      StripSame(t[..|t| - 1], a, b);
      var f := t[|t| - 1];
      assert f.activityId in a + {""} <==> f.activityId in b + {""};
    }
  }

  /** A delta of an unsettled activity leaves the stripped list alone. */
  lemma DeltaInvisible(t: seq<Fact>, e: Envelope, settled: set<string>)
    requires Sorted(t) && IsDelta(e) && e.activityId != "" && e.activityId !in settled
    ensures Strip(Reduce(t, e), settled) == Strip(t, settled)
  {
    var k := IndexOfActivity(t, e.activityId);
    if IndexOfEvent(t, e.eventId) == |t| {
      if k < |t| {
        StripRemove(t, k, settled);
        RemoveKeeps(t, k);
        var fact := FactOf(e, t[k].sequence);
        StripInsert(RemoveAt(t, k), fact.(text := t[k].text + fact.text), settled);
      } else {
        StripInsert(t, FactOf(e, Tail(t)), settled);
      }
    }
  }

  lemma {:induction false} StripRemove(t: seq<Fact>, i: nat, settled: set<string>)
    requires i < |t| && t[i].activityId != "" && t[i].activityId !in settled
    ensures Strip(RemoveAt(t, i), settled) == Strip(t, settled)
  {
    var before, last := t[..|t| - 1], t[|t| - 1];
    if i == |t| - 1 {
      assert RemoveAt(t, i) == before;
    } else {
      StripRemove(before, i, settled);
      assert RemoveAt(t, i) == RemoveAt(before, i) + [last];
      StripAppend(RemoveAt(before, i), last, settled);
    }
  }

  /** Every delta names an activity and comes before its first durable event. */
  ghost predicate DeltasFirst(events: seq<Envelope>) {
    forall i, j :: 0 <= i < |events| && 0 <= j < |events| && IsDelta(events[j]) ==>
      events[j].activityId != "" &&
      (IsDurable(events[i]) && events[i].activityId == events[j].activityId ==> j < i)
  }

  /** At any time the settled part of the timeline is the fold of the durable events alone. */
  lemma {:induction false} SettledPartIsDurable(events: seq<Envelope>)
    requires OneActivityPerEvent(events) && DeltasFirst(events)
    ensures Strip(Fold(events), Settled(events)) == Fold(Durables(events))
  {
    if events != [] {
      var before, e := events[..|events| - 1], events[|events| - 1];
      assert events == before + [e];
      OneFewer(before, e);
      SettledPartIsDurable(before);
      if IsDurable(e) {
        DurableSettles(before, e);
      } else {
        DeltaLeavesSettled(before, e);
      }
    }
  }

  lemma OneFewer(before: seq<Envelope>, e: Envelope)
    requires OneActivityPerEvent(before + [e]) && DeltasFirst(before + [e])
    ensures OneActivityPerEvent(before) && DeltasFirst(before)
  {
    var events := before + [e];
    assert forall x :: x in before ==> x in events;
    assert forall i :: 0 <= i < |before| ==> events[i] == before[i];
  }

  /** A durable event settles its activity. */
  lemma DurableSettles(before: seq<Envelope>, e: Envelope)
    requires OneActivityPerEvent(before + [e]) && OneActivityPerEvent(before) && IsDurable(e)
    requires Strip(Fold(before), Settled(before)) == Fold(Durables(before))
    ensures Strip(Fold(before + [e]), Settled(before + [e])) == Fold(Durables(before + [e]))
  {
    var events := before + [e];
    assert events[..|before|] == before && e in events;
    SettledMore(before, e);
    FoldOrderly(before);
    DurablesWithin(before);
    FoldOrderly(Durables(before));
    FromMore(Fold(before), before, events);
    FromMore(Fold(Durables(before)), Durables(before), events);
    DurableCommutes(Fold(before), events, e, Settled(before));
    assert (Durables(before) + [e])[..|Durables(before)|] == Durables(before);
  }

  lemma SettledMore(before: seq<Envelope>, e: Envelope)
    ensures Settled(before + [e]) == if IsDurable(e) then Settled(before) + {e.activityId} else Settled(before)
  {
    var events := before + [e];
    assert e in events && forall x :: x in before ==> x in events;
  }

  /** Any other event leaves the settled part alone. */
  lemma DeltaLeavesSettled(before: seq<Envelope>, e: Envelope)
    requires OneActivityPerEvent(before) && DeltasFirst(before + [e]) && !IsDurable(e)
    ensures Strip(Fold(before + [e]), Settled(before + [e])) == Strip(Fold(before), Settled(before))
  {
    var events := before + [e];
    assert events[..|before|] == before;
    SettledMore(before, e);
    FoldOrderly(before);
    if IsDelta(e) {
      assert events[|before|] == e && e.activityId != "";
      forall d | d in before && IsDurable(d) ensures d.activityId != e.activityId {
        var i :| 0 <= i < |before| && before[i] == d;
        assert events[i] == d;
      }
      DeltaInvisible(Fold(before), e, Settled(before));
    }
  }

  lemma {:induction false} DurablesWithin(events: seq<Envelope>)
    ensures forall e :: e in Durables(events) ==> e in events
    ensures OneActivityPerEvent(events) ==> OneActivityPerEvent(Durables(events))
  {
    if events != [] {
      DurablesWithin(events[..|events| - 1]);
      assert events == events[..|events| - 1] + [events[|events| - 1]];
    }
  }

  lemma FromMore(t: seq<Fact>, events: seq<Envelope>, more: seq<Envelope>)
    requires Orderly(t, events) && forall e :: e in events ==> e in more
    ensures Orderly(t, more)
  {
  }

  /** Once every activity with deltas has a durable event, the timeline is the fold of the durable
      events alone; redelivered events change nothing about that. */
  lemma DeltasLeaveNoTrace(events: seq<Envelope>)
    requires OneActivityPerEvent(events) && DeltasFirst(events)
    requires forall e :: e in events && IsDelta(e) ==> e.activityId in Settled(events)
    ensures Fold(events) == Fold(Durables(events))
  {
    SettledPartIsDurable(events);
    FoldNames(events);
    StripAll(Fold(events), Settled(events));
  }

  lemma {:induction false} FoldNames(events: seq<Envelope>)
    ensures forall f :: f in Fold(events) ==> exists e :: e in events && IsActivity(e) && e.activityId == f.activityId
  {
    if events != [] {
      var before, e := events[..|events| - 1], events[|events| - 1];
      assert events == before + [e];
      FoldNames(before);
      ReduceMembers(Fold(before), e);
      forall f | f in Fold(events) ensures exists x :: x in events && IsActivity(x) && x.activityId == f.activityId {
        if f in Fold(before) {
          var x :| x in before && IsActivity(x) && x.activityId == f.activityId;
          assert x in events;
        } else {
          assert e in events;
        }
      }
    }
  }

  lemma {:induction false} StripAll(t: seq<Fact>, settled: set<string>)
    requires forall f :: f in t ==> f.activityId == "" || f.activityId in settled
    ensures Strip(t, settled) == t
  {
    if t != [] {
      assert t[|t| - 1] in t && forall f :: f in t[..|t| - 1] ==> f in t;
      StripAll(t[..|t| - 1], settled);
    }
  }
}
