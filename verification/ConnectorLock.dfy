/** The per-connector lock of the connector runtime: a chain of promises per key. */
module ConnectorLock {

  type Key = string

  /** Where one request stands: its operation has not begun, is running, has settled, or has
      settled and left the lock. */
  datatype Phase = Waiting | Running | Settled | Released

  /** The promise found in the Map, if any. */
  datatype Previous = Nothing | After(index: nat)

  datatype Request = Request(key: Key, previous: Previous, phase: Phase)

  /** Requests in the order they arrived, and the Map from key to the latest promise. */
  datatype Locks = Locks(requests: seq<Request>, current: map<Key, nat>)

  const NO_LOCKS := Locks([], map[])

  datatype Event = Arrive(key: Key) | Begin(i: nat) | Settle(i: nat) | Leave(i: nat)

  predicate Done(phase: Phase) {
    phase.Settled? || phase.Released?
  }

  predicate CanBegin(l: Locks, i: nat) {
    && i < |l.requests| && l.requests[i].phase.Waiting?
    && match l.requests[i].previous {
         case Nothing => true
         case After(p) => p < |l.requests| && Done(l.requests[p].phase)
       }
  }

  function WithPhase(l: Locks, i: nat, phase: Phase): Locks
    requires i < |l.requests|
  {
    l.(requests := l.requests[i := l.requests[i].(phase := phase)])
  }

  /** The Map entry goes if it is still the request's own. */
  function AfterLeave(l: Locks, i: nat): Locks
    requires i < |l.requests|
  {
    var released, key := WithPhase(l, i, Released), l.requests[i].key;
    if key in l.current && l.current[key] == i then released.(current := l.current - {key}) else released
  }

  /** One event of the runtime: a call arrives, a `then` callback runs once the promise before it
      settled either way, an operation settles, or its `finally` drops the Map entry if it is
      still its own. */
  predicate Step(l: Locks, event: Event, l': Locks) {
    match event
    case Arrive(key) =>
      var previous := if key in l.current then After(l.current[key]) else Nothing;
      l' == Locks(l.requests + [Request(key, previous, Waiting)], l.current[key := |l.requests|])
    case Begin(i) => CanBegin(l, i) && l' == WithPhase(l, i, Running)
    case Settle(i) => i < |l.requests| && l.requests[i].phase.Running? && l' == WithPhase(l, i, Settled)
    case Leave(i) => i < |l.requests| && l.requests[i].phase.Settled? && l' == AfterLeave(l, i)
  }

  ghost predicate Run(states: seq<Locks>, events: seq<Event>) {
    && |states| == |events| + 1 && states[0] == NO_LOCKS
    && forall i :: 0 <= i < |events| ==> Step(states[i], events[i], states[i + 1])
  }

  predicate SameKey(l: Locks, i: nat, j: nat)
    requires i < |l.requests| && j < |l.requests|
  {
    l.requests[i].key == l.requests[j].key
  }

  /** Requests for one key are served one at a time and in order: once one has begun, every
      earlier one has settled. */
  ghost predicate Serial(l: Locks) {
    forall i, j :: 0 <= i < j < |l.requests| && SameKey(l, i, j) && !l.requests[j].phase.Waiting? ==>
      Done(l.requests[i].phase)
  }

  /** Nothing of the key lies strictly between `p` and `j`. */
  predicate Adjacent(l: Locks, p: nat, j: nat) {
    forall k :: p < k < j && k < |l.requests| && j < |l.requests| ==> l.requests[k].key != l.requests[j].key
  }

  /** A request waits for the one before it of its key, or that one is known to be done. */
  ghost predicate ChainedAt(l: Locks, j: nat)
    requires j < |l.requests|
  {
    match l.requests[j].previous
    case After(p) => p < j && l.requests[p].key == l.requests[j].key && Adjacent(l, p, j)
    case Nothing => AllDoneBefore(l, j)
  }

  ghost predicate Chained(l: Locks) {
    forall j :: 0 <= j < |l.requests| ==> ChainedAt(l, j)
  }

  predicate AllDoneBefore(l: Locks, j: nat)
    requires j < |l.requests|
  {
    forall i :: 0 <= i < j && l.requests[i].key == l.requests[j].key ==> Done(l.requests[i].phase)
  }

  /** The Map holds the latest request of a key; a key it lacks has nothing left to do. */
  ghost predicate MapIsLatest(l: Locks) {
    && (forall key :: key in l.current ==>
          && l.current[key] < |l.requests| && l.requests[l.current[key]].key == key
          && forall k :: l.current[key] < k < |l.requests| ==> l.requests[k].key != key)
    && (forall i :: 0 <= i < |l.requests| && l.requests[i].key !in l.current ==> Done(l.requests[i].phase))
  }

  ghost predicate Good(l: Locks) {
    Serial(l) && Chained(l) && MapIsLatest(l)
  }

  /** What finishing one more request never undoes. */
  lemma PhaseAdvances(l: Locks, i: nat, phase: Phase)
    requires Good(l) && i < |l.requests| && Done(phase) && !l.requests[i].phase.Waiting?
    ensures Good(WithPhase(l, i, phase))
  {
    var l' := WithPhase(l, i, phase);
    assert forall k :: 0 <= k < |l.requests| ==>
      l'.requests[k].key == l.requests[k].key && l'.requests[k].previous == l.requests[k].previous
      && (Done(l.requests[k].phase) ==> Done(l'.requests[k].phase));
    forall j | 0 <= j < |l'.requests| ensures ChainedAt(l', j) {
      assert ChainedAt(l, j);
    }
  }

  /** A request that may begin has every earlier request of its key behind it. */
  lemma BeginsLast(l: Locks, i: nat, k: nat)
    requires Good(l) && CanBegin(l, i) && k < i && l.requests[k].key == l.requests[i].key
    ensures Done(l.requests[k].phase)
  {
    assert ChainedAt(l, i);
  }

  lemma BeginKeepsGood(l: Locks, i: nat)
    requires Good(l) && CanBegin(l, i)
    ensures Good(WithPhase(l, i, Running))
  {
    var l' := WithPhase(l, i, Running);
    assert forall k :: 0 <= k < |l.requests| ==>
      l'.requests[k].key == l.requests[k].key && l'.requests[k].previous == l.requests[k].previous
      && (Done(l.requests[k].phase) ==> Done(l'.requests[k].phase));
    forall k | 0 <= k < i && l'.requests[k].key == l'.requests[i].key ensures Done(l'.requests[k].phase) {
      BeginsLast(l, i, k);
    }
    forall j | 0 <= j < |l'.requests| ensures ChainedAt(l', j) {
      assert ChainedAt(l, j);
    }
  }

  lemma ArriveKeepsGood(l: Locks, key: Key)
    requires Good(l)
    ensures var previous := if key in l.current then After(l.current[key]) else Nothing;
            Good(Locks(l.requests + [Request(key, previous, Waiting)], l.current[key := |l.requests|]))
  {
    var previous := if key in l.current then After(l.current[key]) else Nothing;
    var l' := Locks(l.requests + [Request(key, previous, Waiting)], l.current[key := |l.requests|]);
    assert forall k :: 0 <= k < |l.requests| ==> l'.requests[k] == l.requests[k];
    forall j | 0 <= j < |l'.requests| ensures ChainedAt(l', j) {
      if j < |l.requests| {
        assert ChainedAt(l, j);
      }
    }
  }

  /** Dropping the Map entry of the latest request, which has settled. */
  lemma DropKeepsGood(l: Locks, i: nat)
    requires Good(l) && i < |l.requests| && Done(l.requests[i].phase)
    requires l.requests[i].key in l.current && l.current[l.requests[i].key] == i
    ensures Good(l.(current := l.current - {l.requests[i].key}))
  {
    var l' := l.(current := l.current - {l.requests[i].key});
    forall j | 0 <= j < |l'.requests| ensures ChainedAt(l', j) {
      assert ChainedAt(l, j);
    }
  }

  lemma StepKeepsGood(l: Locks, event: Event, l': Locks)
    requires Good(l) && Step(l, event, l')
    ensures Good(l')
  {
    match event {
      case Arrive(key) => ArriveKeepsGood(l, key);
      case Begin(i) => BeginKeepsGood(l, i);
      case Settle(i) => PhaseAdvances(l, i, Settled);
      case Leave(i) =>
        PhaseAdvances(l, i, Released);
        var released := WithPhase(l, i, Released);
        if l' != released {
          DropKeepsGood(released, i);
        }
    }
  }

  /** In every run, operations on one key run one at a time, in the order they were requested. */
  lemma {:induction false} RunsAreSerial(states: seq<Locks>, events: seq<Event>)
    requires Run(states, events)
    ensures Good(states[|events|])
  {
    if events != [] {
      var n := |events| - 1;
      RunsAreSerial(states[..n + 1], events[..n]);
      assert Step(states[n], events[n], states[n + 1]);
      StepKeepsGood(states[n], events[n], states[n + 1]);
    }
  }

  /** At most one operation of a key is running. */
  lemma OneAtATime(l: Locks, i: nat, j: nat)
    requires Good(l) && i < |l.requests| && j < |l.requests|
    requires l.requests[i].key == l.requests[j].key && l.requests[i].phase.Running? && l.requests[j].phase.Running?
    ensures i == j
  {
  }

  /** A waiting key never starves: if nothing of it runs, its first waiting request may begin. */
  lemma FirstWaitingMayBegin(l: Locks, i: nat)
    requires Good(l) && i < |l.requests| && l.requests[i].phase.Waiting?
    requires forall k :: 0 <= k < i && l.requests[k].key == l.requests[i].key ==> !l.requests[k].phase.Waiting?
    requires forall k :: 0 <= k < |l.requests| && l.requests[k].key == l.requests[i].key ==>
        !l.requests[k].phase.Running?
    ensures CanBegin(l, i)
  {
    assert ChainedAt(l, i);
  }
}
