/** Activity timelines: transient deltas accumulate in a fact until a durable event replaces it. */
module ActivityTimeline {
  import opened Sorting

  datatype EventType = Thinking | ModelAnalysis | ActivityDelta | LlmDelta | OtherType

  /** `wire` says whether the identity carries the message wire event; `details` stands for the
      payload and identity fields a fact copies unchanged.  Identifiers are canonical text. */
  datatype Envelope = Envelope(eventId: string, wire: bool, eventType: EventType, activityEventType: EventType,
                               activityId: string, text: string, sequence: int, details: string)

  /** `activityId` is empty for a fact without one. */
  datatype Fact = Fact(eventId: string, eventType: EventType, activityId: string, text: string, sequence: int,
                       details: string)

  predicate IsActivity(e: Envelope) {
    e.eventType.Thinking? || e.eventType.ModelAnalysis? || e.eventType.ActivityDelta?
  }

  predicate IsTransient(e: Envelope) {
    e.wire && (e.eventType.LlmDelta? || e.eventType.ActivityDelta?)
  }

  predicate IsDelta(e: Envelope) {
    IsActivity(e) && IsTransient(e)
  }

  predicate IsDurable(e: Envelope) {
    IsActivity(e) && !IsTransient(e)
  }

  /** The fact of an event; a delta takes the position it is given. */
  function FactOf(e: Envelope, position: int): Fact {
    if IsTransient(e) then
      Fact(e.eventId, e.activityEventType, e.activityId, e.text, if position < 1 then 1 else position, e.details)
    else Fact(e.eventId, e.eventType, e.activityId, e.text, e.sequence, e.details)
  }

  // --- the list ---

  function SequenceOf(f: Fact): int {
    f.sequence
  }

  /** Behind every fact that is not later. */
  function Insert(t: seq<Fact>, f: Fact): seq<Fact> {
    InsertBy(t, f, SequenceOf)
  }

  function IndexOfEvent(t: seq<Fact>, eventId: string): (i: nat)
    ensures i <= |t|
    ensures i < |t| ==> t[i].eventId == eventId
    ensures forall j :: 0 <= j < i ==> t[j].eventId != eventId
  {
    if t == [] then 0
    else
      var i := IndexOfEvent(t[..|t| - 1], eventId);
      if i < |t| - 1 || t[i].eventId == eventId then i else i + 1
  }

  /** Position of an activity's fact; the empty id names none. */
  function IndexOfActivity(t: seq<Fact>, activityId: string): (i: nat)
    ensures i <= |t|
    ensures i < |t| ==> t[i].activityId == activityId && activityId != ""
    ensures activityId != "" ==> forall j :: 0 <= j < i ==> t[j].activityId != activityId
  {
    if t == [] then 0
    else
      var i := IndexOfActivity(t[..|t| - 1], activityId);
      if i < |t| - 1 || (t[i].activityId == activityId && activityId != "") then i else i + 1
  }

  function RemoveAt(t: seq<Fact>, i: nat): seq<Fact>
    requires i < |t|
  {
    t[..i] + t[i + 1..]
  }

  function Tail(t: seq<Fact>): int {
    if t == [] then 0 else t[|t| - 1].sequence
  }

  function MergeFact(t: seq<Fact>, e: Envelope): seq<Fact> {
    var i := IndexOfActivity(t, e.activityId);
    if i == |t| then Insert(t, FactOf(e, Tail(t)))
    else
      var fact := FactOf(e, t[i].sequence);
      Insert(RemoveAt(t, i), if IsTransient(e) then fact.(text := t[i].text + fact.text) else fact)
  }

  /** The timeline after one more event. */
  function Reduce(t: seq<Fact>, e: Envelope): seq<Fact> {
    if !IsActivity(e) then t
    else
      var i := IndexOfEvent(t, e.eventId);
      if i < |t| then
        if IsTransient(e) then t else Insert(RemoveAt(t, i), FactOf(e, 1))
      else MergeFact(t, e)
  }

  function Fold(events: seq<Envelope>): seq<Fact> {
    if events == [] then [] else Reduce(Fold(events[..|events| - 1]), events[|events| - 1])
  }

  /** The copy of a timeline a reduction splices in place. */
  class FactList {
    var items: seq<Fact>

    constructor (timeline: seq<Fact>)
      ensures items == timeline
    {
      items := timeline;
    }

    method Splice(index: nat)
      requires index < |items|
      modifies this
      ensures items == RemoveAt(old(items), index)
    {
      items := items[..index] + items[index + 1..];
    }

    /** Behind every fact that is not later. */
    method InsertBySequence(fact: Fact)
      modifies this
      ensures items == Insert(old(items), fact)
    {
      var index := |items|;
      assert items[..index] == items && items[index..] == [];
      while index > 0 && items[index - 1].sequence > fact.sequence
        invariant 0 <= index <= |items|
        invariant Insert(items, fact) == Insert(items[..index], fact) + items[index..]
      {
        var before := items[..index];
        assert before[..|before| - 1] == items[..index - 1];
        assert items[index - 1..] == [items[index - 1]] + items[index..];
        index := index - 1;
      }
      assert Insert(items[..index], fact) == items[..index] + [fact];
      items := items[..index] + [fact] + items[index..];
    }
  }

  method ReduceTimeline(timeline: seq<Fact>, e: Envelope) returns (next: seq<Fact>)
    ensures next == Reduce(timeline, e)
  {
    var list := new FactList(timeline);
    if !IsActivity(e) {
      return list.items;
    }
    var isDelta := IsTransient(e);
    var sameEvent := IndexOfEvent(list.items, e.eventId);
    if sameEvent < |list.items| {
      if !isDelta {
        list.Splice(sameEvent);
        list.InsertBySequence(FactOf(e, 1));
      }
      return list.items;
    }
    var activity := IndexOfActivity(list.items, e.activityId);
    var tail := Tail(list.items);
    if activity == |list.items| {
      list.InsertBySequence(FactOf(e, tail));
      return list.items;
    }
    var previous := list.items[activity];
    var fact := FactOf(e, previous.sequence);
    list.Splice(activity);
    list.InsertBySequence(if isDelta then fact.(text := previous.text + fact.text) else fact);
    next := list.items;
  }

  // --- what every timeline keeps ---

  ghost predicate Sorted(t: seq<Fact>) {
    forall i, j :: 0 <= i < j < |t| ==> t[i].sequence <= t[j].sequence
  }

  ghost predicate UniqueEvents(t: seq<Fact>) {
    forall i, j :: 0 <= i < j < |t| ==> t[i].eventId != t[j].eventId
  }

  ghost predicate UniqueActivities(t: seq<Fact>) {
    forall i, j :: 0 <= i < j < |t| && t[i].activityId != "" ==> t[i].activityId != t[j].activityId
  }

  /** Where insertion puts the fact: between what is not later and what is. */
  lemma {:induction false} InsertSplits(t: seq<Fact>, f: Fact) returns (k: nat)
    ensures k <= |t| && Insert(t, f) == t[..k] + [f] + t[k..]
    ensures k > 0 ==> t[k - 1].sequence <= f.sequence
    ensures forall i :: k <= i < |t| ==> f.sequence < t[i].sequence
  {
    if t == [] || t[|t| - 1].sequence <= f.sequence {
      k := |t|;
    } else {
      var before, last := t[..|t| - 1], t[|t| - 1];
      k := InsertSplits(before, f);
      assert t == before + [last];
      assert t[k..] == before[k..] + [last] && t[..k] == before[..k];
    }
  }

  lemma InsertKeepsSorted(t: seq<Fact>, f: Fact)
    requires Sorted(t)
    ensures Sorted(Insert(t, f))
  {
    var k := InsertSplits(t, f);
  }

  lemma RemoveKeeps(t: seq<Fact>, i: nat)
    requires i < |t|
    ensures var r := RemoveAt(t, i);
            && (Sorted(t) ==> Sorted(r)) && (UniqueEvents(t) ==> UniqueEvents(r))
            && (UniqueActivities(t) ==> UniqueActivities(r))
            && forall f :: f in r ==> f in t
  {
    var r := RemoveAt(t, i);
    assert forall k :: 0 <= k < |r| ==> r[k] == t[if k < i then k else k + 1];
  }

  lemma InsertHas(t: seq<Fact>, f: Fact)
    ensures forall g :: g in Insert(t, f) <==> g in t || g == f
  {
    InsertPermutes(t, f, SequenceOf);
    forall g ensures g in Insert(t, f) <==> g in t || g == f {
      assert g in Insert(t, f) <==> g in multiset(Insert(t, f));
      assert g in t <==> g in multiset(t);
    }
  }

  /** Inserting a fact of a new event keeps events unique. */
  lemma InsertKeepsEvents(t: seq<Fact>, f: Fact)
    requires UniqueEvents(t) && forall i :: 0 <= i < |t| ==> t[i].eventId != f.eventId
    ensures UniqueEvents(Insert(t, f))
  {
    var k := InsertSplits(t, f);
  }

  /** Inserting a fact of a new activity, or of none, keeps activities unique. */
  lemma InsertKeepsActivities(t: seq<Fact>, f: Fact)
    requires UniqueActivities(t)
    requires f.activityId == "" || forall i :: 0 <= i < |t| ==> t[i].activityId != f.activityId
    ensures UniqueActivities(Insert(t, f))
  {
    var k := InsertSplits(t, f);
  }

  lemma RemoveForgets(t: seq<Fact>, i: nat)
    requires i < |t|
    ensures UniqueEvents(t) ==> forall k :: 0 <= k < |t| - 1 ==> RemoveAt(t, i)[k].eventId != t[i].eventId
    ensures UniqueActivities(t) && t[i].activityId != "" ==>
      forall k :: 0 <= k < |t| - 1 ==> RemoveAt(t, i)[k].activityId != t[i].activityId
  {
    var r := RemoveAt(t, i);
    assert forall k :: 0 <= k < |r| ==> r[k] == t[if k < i then k else k + 1];
  }

  lemma NoSuchEvent(t: seq<Fact>, eventId: string)
    ensures IndexOfEvent(t, eventId) == |t| <==> forall f :: f in t ==> f.eventId != eventId
  {
  }

  lemma NoSuchActivity(t: seq<Fact>, activityId: string)
    requires activityId != ""
    ensures IndexOfActivity(t, activityId) == |t| <==> forall f :: f in t ==> f.activityId != activityId
  {
  }

  /** Every reduction keeps the list sorted with one fact per event. */
  lemma ReduceKeepsOrder(t: seq<Fact>, e: Envelope)
    requires Sorted(t) && UniqueEvents(t)
    ensures Sorted(Reduce(t, e)) && UniqueEvents(Reduce(t, e))
  {
    var i, k := IndexOfEvent(t, e.eventId), IndexOfActivity(t, e.activityId);
    if IsActivity(e) && i < |t| && !IsTransient(e) {
      RemoveKeeps(t, i);
      RemoveForgets(t, i);
      InsertKeepsSorted(RemoveAt(t, i), FactOf(e, 1));
      InsertKeepsEvents(RemoveAt(t, i), FactOf(e, 1));
    } else if IsActivity(e) && i == |t| && k < |t| {
      RemoveKeeps(t, k);
      var fact := FactOf(e, t[k].sequence);
      var merged := if IsTransient(e) then fact.(text := t[k].text + fact.text) else fact;
      InsertKeepsSorted(RemoveAt(t, k), merged);
      assert forall g :: g in RemoveAt(t, k) ==> g in t;
      InsertKeepsEvents(RemoveAt(t, k), merged);
    } else if IsActivity(e) && i == |t| {
      InsertKeepsSorted(t, FactOf(e, Tail(t)));
      InsertKeepsEvents(t, FactOf(e, Tail(t)));
    }
  }

  /** A durable event that reuses an event id under another activity's name. */
  predicate Renames(t: seq<Fact>, e: Envelope) {
    var i, k := IndexOfEvent(t, e.eventId), IndexOfActivity(t, e.activityId);
    IsDurable(e) && i < |t| && t[i].activityId != e.activityId && k < |t|
  }

  lemma RenameClashes(t: seq<Fact>, e: Envelope)
    requires Renames(t, e)
    ensures !UniqueActivities(Reduce(t, e))
  {
    var i, k := IndexOfEvent(t, e.eventId), IndexOfActivity(t, e.activityId);
    var r, f := RemoveAt(t, i), FactOf(e, 1);
    var at := if k < i then k else k - 1;
    assert r[at] == t[k];
    var split := InsertSplits(r, f);
    var after := Insert(r, f);
    assert after[split] == f;
    assert after[if at < split then at else at + 1] == r[at];
  }

  lemma ReplaceKeepsActivities(t: seq<Fact>, e: Envelope)
    requires UniqueActivities(t) && IsDurable(e) && IndexOfEvent(t, e.eventId) < |t| && !Renames(t, e)
    ensures UniqueActivities(Reduce(t, e))
  {
    var i := IndexOfEvent(t, e.eventId);
    var r := RemoveAt(t, i);
    RemoveKeeps(t, i);
    RemoveForgets(t, i);
    forall x | 0 <= x < |r| && e.activityId != "" ensures r[x].activityId != e.activityId {
      assert r[x] in t;
      NoSuchActivity(t, e.activityId);
    }
    InsertKeepsActivities(r, FactOf(e, 1));
  }

  lemma MergeKeepsActivities(t: seq<Fact>, e: Envelope)
    requires UniqueActivities(t)
    ensures UniqueActivities(MergeFact(t, e))
  {
    var k := IndexOfActivity(t, e.activityId);
    if k < |t| {
      RemoveKeeps(t, k);
      RemoveForgets(t, k);
      var fact := FactOf(e, t[k].sequence);
      InsertKeepsActivities(RemoveAt(t, k), if IsTransient(e) then fact.(text := t[k].text + fact.text) else fact);
    } else {
      InsertKeepsActivities(t, FactOf(e, Tail(t)));
    }
  }

  /** One fact per activity survives a reduction exactly when the event does not give the fact it
      replaces the activity of another fact. */
  lemma ReduceKeepsActivitiesIff(t: seq<Fact>, e: Envelope)
    requires UniqueActivities(t)
    ensures UniqueActivities(Reduce(t, e)) <==> !Renames(t, e)
  {
    if Renames(t, e) {
      RenameClashes(t, e);
    } else if IsDurable(e) && IndexOfEvent(t, e.eventId) < |t| {
      ReplaceKeepsActivities(t, e);
    } else if IsActivity(e) && IndexOfEvent(t, e.eventId) == |t| {
      MergeKeepsActivities(t, e);
    }
  }

  /** It happens in a run: the third of these events carries the id of the first and the activity of
      the second. */
  lemma RenamesHappen(first: Envelope, second: Envelope, third: Envelope)
    requires IsDurable(first) && IsDurable(second) && IsDurable(third)
    requires first.eventId != second.eventId && first.activityId != second.activityId && second.activityId != ""
    requires first.sequence <= second.sequence
    requires third.eventId == first.eventId && third.activityId == second.activityId
    ensures UniqueActivities(Fold([first, second])) && Renames(Fold([first, second]), third)
    ensures !UniqueActivities(Fold([first, second, third]))
  {
    var one, two := [FactOf(first, 1)], [FactOf(first, 1), FactOf(second, 1)];
    FoldSnoc([], first);
    FoldSnoc([first], second);
    FoldSnoc([first, second], third);
    assert [] + [first] == [first] && [first] + [second] == [first, second];
    assert [first, second] + [third] == [first, second, third];
    assert Fold([first]) == one;
    AppendsNew(one, second);
    assert one + [FactOf(second, 1)] == two;
    FoundIn(two, first.eventId, second.activityId);
    ReduceKeepsActivitiesIff(two, third);
  }

  /** A later event of a new id and activity goes to the end. */
  lemma AppendsNew(t: seq<Fact>, e: Envelope)
    requires IsDurable(e)
    requires forall f :: f in t ==> f.eventId != e.eventId && f.activityId != e.activityId && f.sequence <= e.sequence
    ensures Reduce(t, e) == t + [FactOf(e, 1)]
  {
    NoSuchEvent(t, e.eventId);
    if e.activityId != "" {
      NoSuchActivity(t, e.activityId);
    }
  }

  lemma FoundIn(two: seq<Fact>, eventId: string, activityId: string)
    requires |two| == 2 && two[0].eventId == eventId && two[1].activityId == activityId != ""
        && two[0].activityId != activityId
    ensures IndexOfEvent(two, eventId) == 0 && IndexOfActivity(two, activityId) == 1
  {
  }

  lemma FoldSnoc(events: seq<Envelope>, e: Envelope)
    ensures Fold(events + [e]) == Reduce(Fold(events), e)
  {
    assert (events + [e])[..|events|] == events;
  }
}
