/** Merging lists of turn lifecycle events of one session. */
module TurnMerge {
  import opened Text
  import opened Outcome
  import opened Sorting

  /** An envelope.  `lifecycle` says that the protocol's own validation accepts it and finds it in
      the turn lifecycle family; `body` is everything else it carries. */
  datatype Envelope = Envelope(eventId: string, sequence: int, sessionId: string, domain: string, scopeId: string,
                               lifecycle: bool, body: string)

  function SequenceOf(): Envelope -> int {
    (e: Envelope) => e.sequence
  }

  /** Two events agree when sharing an id or a sequence makes them equal. */
  predicate Agree(e: Envelope, f: Envelope) {
    e.eventId == f.eventId || e.sequence == f.sequence ==> e == f
  }

  ghost predicate Consistent(events: seq<Envelope>) {
    forall i, j :: 0 <= i < |events| && 0 <= j < |events| ==> Agree(events[i], events[j])
  }

  /** Turn lifecycle events of the session. */
  ghost predicate AllOfSession(sessionId: string, events: seq<Envelope>) {
    forall i :: 0 <= i < |events| ==> events[i].lifecycle && events[i].sessionId == sessionId
  }

  ghost predicate Mergeable(sessionId: string, events: seq<Envelope>) {
    Canonical(sessionId) && AllOfSession(sessionId, events) && Consistent(events)
  }

  /** What a merge yields: exactly the events given, once each, strictly by sequence, if they are
      all of the session and agree with one another; nothing otherwise. */
  ghost predicate Merges(sessionId: string, events: seq<Envelope>, result: Result<seq<Envelope>>) {
    && (result.Ok? <==> Mergeable(sessionId, events))
    && (result.Ok? ==> Strict(result.value, SequenceOf()) && SameElements(events, result.value))
  }

  /** The two Maps of a merge and the values of the second, in the order they were set. */
  ghost predicate Indexes(byId: map<string, Envelope>, bySequence: map<int, Envelope>, kept: seq<Envelope>,
                          seen: seq<Envelope>)
  {
    && SameElements(seen, kept) && PairwiseDistinct(kept, SequenceOf())
    && (forall e :: e in kept ==> Indexed(byId, bySequence, e))
    && (forall id :: id in byId ==> byId[id] in kept && byId[id].eventId == id)
    && (forall n :: n in bySequence ==> bySequence[n] in kept && bySequence[n].sequence == n)
  }

  predicate Indexed(byId: map<string, Envelope>, bySequence: map<int, Envelope>, e: Envelope) {
    e.eventId in byId && byId[e.eventId] == e && e.sequence in bySequence && bySequence[e.sequence] == e
  }

  /** `mergeTurnLifecycleEvents`. */
  method MergeTurnLifecycleEvents(sessionId: string, events: seq<Envelope>) returns (result: Result<seq<Envelope>>)
    ensures Merges(sessionId, events, result)
  {
    if !Canonical(sessionId) {
      return Rejected;
    }
    var byId: map<string, Envelope>, bySequence: map<int, Envelope> := map[], map[];
    var kept: seq<Envelope> := [];
    for i := 0 to |events|
      invariant AllOfSession(sessionId, events[..i]) && Consistent(events[..i])
      invariant Indexes(byId, bySequence, kept, events[..i])
    {
      var e := events[i];
      if !e.lifecycle || e.sessionId != sessionId {
        return Rejected;
      }
      TakeOneMore(events, i);
      if e.eventId in byId || e.sequence in bySequence {
        var existing := if e.eventId in byId then byId[e.eventId] else bySequence[e.sequence];
        if existing != e {
          Conflicts(events, i, existing);
          return Rejected;
        }
        SeenAgain(byId, bySequence, kept, events[..i], e);
        continue;
      }
      NewcomerAgrees(byId, bySequence, kept, events[..i], e);
      byId, bySequence, kept := byId[e.eventId := e], bySequence[e.sequence := e], kept + [e];
    }
    assert events[..|events|] == events;
    SortKeeps(kept);
    result := Ok(SortBy(kept, SequenceOf()));
  }

  lemma TakeOneMore<T>(s: seq<T>, i: nat)
    requires i < |s|
    ensures s[..i + 1] == s[..i] + [s[i]]
  {
  }

  /** Sorting distinct sequences puts them in strict order. */
  lemma SortKeeps(kept: seq<Envelope>)
    requires PairwiseDistinct(kept, SequenceOf())
    ensures Strict(SortBy(kept, SequenceOf()), SequenceOf()) && SameElements(kept, SortBy(kept, SequenceOf()))
  {
    var sorted := SortBy(kept, SequenceOf());
    SortSorts(kept, SequenceOf());
    assert SameCounts(kept, sorted);
    DistinctCarries(kept, sorted, SequenceOf());
    SameCountsSameElements(kept, sorted);
  }

  /** An event that differs from an earlier one with its id or sequence. */
  lemma Conflicts(events: seq<Envelope>, i: nat, existing: Envelope)
    requires i < |events| && existing in events[..i] && !Agree(existing, events[i])
    ensures !Consistent(events)
  {
    var j :| 0 <= j < i && events[..i][j] == existing;
    assert !Agree(events[j], events[i]);
  }

  lemma SeenAgain(byId: map<string, Envelope>, bySequence: map<int, Envelope>, kept: seq<Envelope>,
                  seen: seq<Envelope>, e: Envelope)
    requires Indexes(byId, bySequence, kept, seen) && e in kept && Consistent(seen)
    ensures Indexes(byId, bySequence, kept, seen + [e]) && Consistent(seen + [e])
  {
    assert e in seen;
    var k :| 0 <= k < |seen| && seen[k] == e;
    var longer := seen + [e];
    forall i, j | 0 <= i < |longer| && 0 <= j < |longer| ensures Agree(longer[i], longer[j]) {
      assert Agree(seen[if i < |seen| then i else k], seen[if j < |seen| then j else k]);
    }
  }

  lemma NewcomerAgrees(byId: map<string, Envelope>, bySequence: map<int, Envelope>, kept: seq<Envelope>,
                       seen: seq<Envelope>, e: Envelope)
    requires Indexes(byId, bySequence, kept, seen) && Consistent(seen)
    requires e.eventId !in byId && e.sequence !in bySequence
    ensures Indexes(byId[e.eventId := e], bySequence[e.sequence := e], kept + [e], seen + [e]) && Consistent(seen + [e])
  {
    var longer := seen + [e];
    forall i | 0 <= i < |seen| ensures Agree(seen[i], e) && Agree(e, seen[i]) {
      assert seen[i] in kept && Indexed(byId, bySequence, seen[i]);
    }
    forall i, j | 0 <= i < |longer| && 0 <= j < |longer| ensures Agree(longer[i], longer[j]) {
      assert i < |seen| && j < |seen| ==> Agree(seen[i], seen[j]);
    }
    forall k | 0 <= k < |kept| ensures kept[k].sequence != e.sequence {
      assert Indexed(byId, bySequence, kept[k]);
    }
  }

  // --- what follows ---

  lemma MergeableDepends(sessionId: string, a: seq<Envelope>, b: seq<Envelope>)
    requires (forall e :: e in b ==> e in a) && Mergeable(sessionId, a)
    ensures Mergeable(sessionId, b)
  {
    forall i | 0 <= i < |b| ensures b[i].lifecycle && b[i].sessionId == sessionId {
      assert b[i] in a;
      var k :| 0 <= k < |a| && a[k] == b[i];
    }
    forall i, j | 0 <= i < |b| && 0 <= j < |b| ensures Agree(b[i], b[j]) {
      assert b[i] in a && b[j] in a;
      var k :| 0 <= k < |a| && a[k] == b[i];
      var l :| 0 <= l < |a| && a[l] == b[j];
      assert Agree(a[k], a[l]);
    }
  }

  /** The outcome depends on the set of events alone: not on their order, nor on repetitions. */
  lemma OrderDoesNotMatter(sessionId: string, a: seq<Envelope>, b: seq<Envelope>,
                           r: Result<seq<Envelope>>, q: Result<seq<Envelope>>)
    requires SameElements(a, b) && Merges(sessionId, a, r) && Merges(sessionId, b, q)
    ensures r == q
  {
    if r.Ok? {
      MergeableDepends(sessionId, a, b);
      StrictIsUnique(r.value, q.value, SequenceOf());
    } else if q.Ok? {
      MergeableDepends(sessionId, b, a);
    }
  }

  /** Merging in stages: what is merged already can be merged on with later events. */
  lemma MergeInStages(sessionId: string, a: seq<Envelope>, b: seq<Envelope>, merged: Result<seq<Envelope>>,
                      staged: Result<seq<Envelope>>, whole: Result<seq<Envelope>>)
    requires Merges(sessionId, a, merged) && Merges(sessionId, a + b, whole)
    requires merged.Ok? ==> Merges(sessionId, merged.value + b, staged)
    ensures if merged.Ok? then staged == whole else whole.Rejected?
  {
    if merged.Ok? {
      OrderDoesNotMatter(sessionId, merged.value + b, a + b, staged, whole);
    } else if whole.Ok? {
      MergeableDepends(sessionId, a + b, a);
    }
  }
}
