/** Replay batches: a snapshot, and the tail of lifecycle events that continues it. */
module ReplayBatch {
  import opened Text
  import opened Outcome
  import opened Sorting
  import opened TurnMerge

  const SESSION_SEQUENCE_DOMAIN := "session"

  /** A snapshot envelope; `snapshotFamily` says that validation accepts it as one. */
  datatype Snapshot = NoSnapshot | Snapshot(envelope: Envelope, snapshotFamily: bool)

  /** A pending interaction; `request` says that validation accepts it as an interaction request. */
  datatype Interaction = Interaction(request: bool, pending: bool, sessionId: string, parentSessionId: string)

  /** The protocol block, if it is an object, and which of its fields are as expected. */
  datatype Protocol = NoProtocol | Protocol(name: bool, version: bool, schema: bool)

  /** `knownFields` says that no field is unknown. */
  datatype Batch = Batch(knownFields: bool, protocol: Protocol, sessionId: string, snapshot: Snapshot,
                         snapshotSequence: int, events: seq<Envelope>, pendingInteractions: seq<Interaction>)

  datatype Origin = OfSnapshot | OfEvent | OfInteraction

  /** The codes pushed.  One stands for all unknown fields, and `WrongFamily` for whatever the
      validation of an envelope reports. */
  datatype Error = UnknownField | InvalidProtocol | InvalidProtocolName | UnsupportedVersion | InvalidSchema
                 | MissingSessionId | InvalidSnapshotSequence | WrongFamily(origin: Origin)
                 | SessionMismatch(origin: Origin) | DomainMismatch(origin: Origin) | ScopeMismatch(origin: Origin)
                 | SnapshotSequenceMismatch | DuplicateEventId | EventIdentityConflict | InvalidEventSequence
                 | InteractionNotPending | InteractionSessionMismatch

  // --- what a valid batch is ---

  predicate OfStream(e: Envelope, sessionId: string) {
    e.sessionId == sessionId && e.domain == SESSION_SEQUENCE_DOMAIN && e.scopeId == sessionId
  }

  predicate HeaderFits(batch: Batch) {
    && batch.knownFields && batch.protocol == Protocol(true, true, true)
    && Canonical(batch.sessionId) && batch.snapshotSequence >= 0
  }

  predicate SnapshotFits(batch: Batch) {
    batch.snapshot.Snapshot? ==>
      && batch.snapshot.snapshotFamily && OfStream(batch.snapshot.envelope, batch.sessionId)
      && batch.snapshot.envelope.sequence == batch.snapshotSequence
  }

  /** Lifecycle events of the session, numbered without a gap from the snapshot on, ids distinct. */
  ghost predicate TailFits(sessionId: string, snapshotSequence: int, events: seq<Envelope>) {
    && (forall i :: 0 <= i < |events| ==> EventFits(sessionId, snapshotSequence, events, i))
    && (forall i, j :: 0 <= i < j < |events| ==> events[i].eventId != events[j].eventId)
  }

  predicate EventFits(sessionId: string, snapshotSequence: int, events: seq<Envelope>, i: nat)
    requires i < |events|
  {
    events[i].lifecycle && OfStream(events[i], sessionId) && events[i].sequence == snapshotSequence + 1 + i
  }

  predicate InteractionFits(sessionId: string, x: Interaction) {
    x.request && x.pending && (x.sessionId == sessionId || x.parentSessionId == sessionId)
  }

  ghost predicate Valid(batch: Batch) {
    && HeaderFits(batch) && SnapshotFits(batch) && TailFits(batch.sessionId, batch.snapshotSequence, batch.events)
    && forall i :: 0 <= i < |batch.pendingInteractions| ==>
         InteractionFits(batch.sessionId, batch.pendingInteractions[i])
  }

  // --- what is wrong with any other ---

  predicate ProtocolFinds(protocol: Protocol, code: Error)
    requires protocol.Protocol?
  {
    match code
    case InvalidProtocolName => !protocol.name
    case UnsupportedVersion => !protocol.version
    case InvalidSchema => !protocol.schema
    case _ => false
  }

  /** Without a protocol block nothing but unknown fields is looked for. */
  predicate HeaderFinds(batch: Batch, code: Error) {
    match code
    case UnknownField => !batch.knownFields
    case InvalidProtocol => batch.protocol.NoProtocol?
    case MissingSessionId => batch.protocol.Protocol? && !Canonical(batch.sessionId)
    case InvalidSnapshotSequence => batch.protocol.Protocol? && batch.snapshotSequence < 0
    case _ => batch.protocol.Protocol? && ProtocolFinds(batch.protocol, code)
  }

  predicate StreamFinds(e: Envelope, sessionId: string, origin: Origin, code: Error) {
    match code
    case SessionMismatch(from) => from == origin && e.sessionId != sessionId
    case DomainMismatch(from) => from == origin && e.domain != SESSION_SEQUENCE_DOMAIN
    case ScopeMismatch(from) => from == origin && e.scopeId != sessionId
    case _ => false
  }

  predicate SnapshotFinds(batch: Batch, code: Error) {
    batch.snapshot.Snapshot? &&
    if !batch.snapshot.snapshotFamily then code == WrongFamily(OfSnapshot)
    else
      || StreamFinds(batch.snapshot.envelope, batch.sessionId, OfSnapshot, code)
      || (code == SnapshotSequenceMismatch && batch.snapshot.envelope.sequence != batch.snapshotSequence)
  }

  /** The last lifecycle event with an id among the first n events, or -1. */
  function LastWith(events: seq<Envelope>, eventId: string, n: nat): (k: int)
    requires n <= |events|
    ensures -1 <= k < n && (k >= 0 ==> events[k].lifecycle && events[k].eventId == eventId)
    ensures forall j :: k < j < n && events[j].lifecycle ==> events[j].eventId != eventId
  {
    if n == 0 then -1
    else if events[n - 1].lifecycle && events[n - 1].eventId == eventId then n - 1
    else LastWith(events, eventId, n - 1)
  }

  /** The sequence of the last lifecycle event among the first n events, or the snapshot's. */
  function SequenceBefore(batch: Batch, n: nat): int
    requires n <= |batch.events|
  {
    if n == 0 then batch.snapshotSequence
    else if batch.events[n - 1].lifecycle then batch.events[n - 1].sequence else SequenceBefore(batch, n - 1)
  }

  /** What is wrong with an event after those before it. */
  predicate EventFinds(batch: Batch, i: nat, code: Error)
    requires i < |batch.events|
  {
    var e := batch.events[i];
    if !e.lifecycle then code == WrongFamily(OfEvent)
    else
      var last := LastWith(batch.events, e.eventId, i);
      || StreamFinds(e, batch.sessionId, OfEvent, code)
      || (code == DuplicateEventId && last >= 0 && batch.events[last] == e)
      || (code == EventIdentityConflict && last >= 0 && batch.events[last] != e)
      || (code == InvalidEventSequence && e.sequence != SequenceBefore(batch, i) + 1)
  }

  ghost predicate TailFinds(batch: Batch, n: nat, code: Error)
    requires n <= |batch.events|
  {
    exists i :: 0 <= i < n && EventFinds(batch, i, code)
  }

  predicate InteractionFinds(sessionId: string, x: Interaction, code: Error) {
    if !x.request then code == WrongFamily(OfInteraction)
    else
      || (code == InteractionNotPending && !x.pending)
      || (code == InteractionSessionMismatch && x.sessionId != sessionId && x.parentSessionId != sessionId)
  }

  ghost predicate InteractionsFind(batch: Batch, n: nat, code: Error)
    requires n <= |batch.pendingInteractions|
  {
    exists i :: 0 <= i < n && InteractionFinds(batch.sessionId, batch.pendingInteractions[i], code)
  }

  /** Everything wrong with a batch; past a bad header nothing is looked for. */
  ghost predicate Finds(batch: Batch, code: Error) {
    || HeaderFinds(batch, code)
    || (HeaderFits(batch) &&
        (SnapshotFinds(batch, code) || TailFinds(batch, |batch.events|, code)
         || InteractionsFind(batch, |batch.pendingInteractions|, code)))
  }

  // --- validation ---

  /** The list the collectors push to. */
  class Errors {
    var codes: seq<Error>

    constructor ()
      ensures codes == []
    {
      codes := [];
    }

    method Push(condition: bool, code: Error)
      modifies this
      ensures codes == if condition then old(codes) + [code] else old(codes)
    {
      if condition {
        codes := codes + [code];
      }
    }
  }

  method CollectProtocolErrors(protocol: Protocol, errors: Errors)
    requires protocol.Protocol?
    modifies errors
    ensures forall code :: code in errors.codes <==> code in old(errors.codes) || ProtocolFinds(protocol, code)
    ensures |errors.codes| >= |old(errors.codes)|
    ensures |errors.codes| == |old(errors.codes)| <==> protocol == Protocol(true, true, true)
  {
    errors.Push(!protocol.name, InvalidProtocolName);
    errors.Push(!protocol.version, UnsupportedVersion);
    errors.Push(!protocol.schema, InvalidSchema);
  }

  method CollectHeaderErrors(batch: Batch, errors: Errors)
    modifies errors
    ensures forall code :: code in errors.codes <==> code in old(errors.codes) || HeaderFinds(batch, code)
    ensures |errors.codes| >= |old(errors.codes)|
    ensures |errors.codes| == |old(errors.codes)| <==> HeaderFits(batch)
  {
    errors.Push(!batch.knownFields, UnknownField);
    if batch.protocol.NoProtocol? {
      errors.Push(true, InvalidProtocol);
      return;
    }
    CollectProtocolErrors(batch.protocol, errors);
    errors.Push(!Canonical(batch.sessionId), MissingSessionId);
    errors.Push(batch.snapshotSequence < 0, InvalidSnapshotSequence);
  }

  method CollectSessionStreamErrors(e: Envelope, sessionId: string, errors: Errors, origin: Origin)
    modifies errors
    ensures forall code :: code in errors.codes <==>
                code in old(errors.codes) || StreamFinds(e, sessionId, origin, code)
    ensures |errors.codes| >= |old(errors.codes)|
    ensures |errors.codes| == |old(errors.codes)| <==> OfStream(e, sessionId)
  {
    errors.Push(e.sessionId != sessionId, SessionMismatch(origin));
    errors.Push(e.domain != SESSION_SEQUENCE_DOMAIN, DomainMismatch(origin));
    errors.Push(e.scopeId != sessionId, ScopeMismatch(origin));
  }

  method CollectSnapshotErrors(batch: Batch, errors: Errors)
    modifies errors
    ensures forall code :: code in errors.codes <==> code in old(errors.codes) || SnapshotFinds(batch, code)
    ensures |errors.codes| >= |old(errors.codes)|
    ensures |errors.codes| == |old(errors.codes)| <==> SnapshotFits(batch)
  {
    if batch.snapshot.NoSnapshot? {
      return;
    }
    if !batch.snapshot.snapshotFamily {
      errors.Push(true, WrongFamily(OfSnapshot));
      return;
    }
    CollectSessionStreamErrors(batch.snapshot.envelope, batch.sessionId, errors, OfSnapshot);
    errors.Push(batch.snapshot.envelope.sequence != batch.snapshotSequence, SnapshotSequenceMismatch);
  }

  /** The Map of the ids met so far, each with its last event. */
  ghost predicate Met(seen: map<string, Envelope>, events: seq<Envelope>, n: nat)
    requires n <= |events|
  {
    forall id :: MetOne(seen, events, n, id)
  }

  predicate MetOne(seen: map<string, Envelope>, events: seq<Envelope>, n: nat, id: string)
    requires n <= |events|
  {
    var last := LastWith(events, id, n);
    (id in seen <==> last >= 0) && (last >= 0 ==> seen[id] == events[last])
  }

  method CollectEventErrors(batch: Batch, i: nat, previous: int, seen: map<string, Envelope>, errors: Errors)
    requires i < |batch.events| && batch.events[i].lifecycle
    requires previous == SequenceBefore(batch, i) && Met(seen, batch.events, i)
    modifies errors
    ensures forall code :: code in errors.codes <==> code in old(errors.codes) || EventFinds(batch, i, code)
    ensures |errors.codes| >= |old(errors.codes)|
    ensures |errors.codes| == |old(errors.codes)| <==>
      var e := batch.events[i];
      OfStream(e, batch.sessionId) && LastWith(batch.events, e.eventId, i) < 0 && e.sequence == previous + 1
  {
    var event := batch.events[i];
    assert MetOne(seen, batch.events, i, event.eventId);
    CollectSessionStreamErrors(event, batch.sessionId, errors, OfEvent);
    if event.eventId in seen {
      errors.Push(true, if seen[event.eventId] == event then DuplicateEventId else EventIdentityConflict);
    }
    errors.Push(event.sequence != previous + 1, InvalidEventSequence);
  }

  method CollectEventTailErrors(batch: Batch, errors: Errors)
    modifies errors
    ensures forall code :: code in errors.codes <==>
                code in old(errors.codes) || TailFinds(batch, |batch.events|, code)
    ensures |errors.codes| >= |old(errors.codes)|
    ensures |errors.codes| == |old(errors.codes)| <==> TailFits(batch.sessionId, batch.snapshotSequence, batch.events)
  {
    var previous := batch.snapshotSequence;
    var seenEventIds: map<string, Envelope> := map[];
    ghost var before := errors.codes;
    for i := 0 to |batch.events|
      invariant |errors.codes| >= |before|
      invariant |errors.codes| == |before| <==>
                  TailFits(batch.sessionId, batch.snapshotSequence, batch.events[..i])
      invariant forall code :: code in errors.codes <==> code in before || TailFinds(batch, i, code)
      invariant previous == SequenceBefore(batch, i) && Met(seenEventIds, batch.events, i)
    {
      var event := batch.events[i];
      TailOneMore(batch, i);
      FindsOneMore(batch, i);
      MetOneMore(seenEventIds, batch.events, i);
      if !event.lifecycle {
        errors.Push(true, WrongFamily(OfEvent));
        continue;
      }
      CollectEventErrors(batch, i, previous, seenEventIds, errors);
      seenEventIds := seenEventIds[event.eventId := event];
      previous := event.sequence;
    }
    assert batch.events[..|batch.events|] == batch.events;
  }

  lemma FindsOneMore(batch: Batch, i: nat)
    requires i < |batch.events|
    ensures forall code :: TailFinds(batch, i + 1, code) <==> TailFinds(batch, i, code) || EventFinds(batch, i, code)
  {
  }

  /** The first events are in order, and one more is, exactly if it fits and its id is new. */
  lemma TailOneMore(batch: Batch, i: nat)
    requires i < |batch.events|
    ensures var e, events := batch.events[i], batch.events;
            TailFits(batch.sessionId, batch.snapshotSequence, events[..i + 1]) <==>
              && TailFits(batch.sessionId, batch.snapshotSequence, events[..i])
              && e.lifecycle && OfStream(e, batch.sessionId) && LastWith(events, e.eventId, i) < 0
              && e.sequence == SequenceBefore(batch, i) + 1
  {
    var sessionId, start, events := batch.sessionId, batch.snapshotSequence, batch.events;
    var shorter, longer := events[..i], events[..i + 1];
    if TailFits(sessionId, start, longer) {
      forall k | 0 <= k < i ensures EventFits(sessionId, start, shorter, k) {
        assert EventFits(sessionId, start, longer, k) && shorter[k] == longer[k];
      }
      assert EventFits(sessionId, start, longer, i);
      assert forall k :: 0 <= k < i ==> shorter[k] == longer[k];
      LastInOrder(batch, i);
      assert forall k :: 0 <= k < i ==> longer[k].eventId != longer[i].eventId;
    }
    if TailFits(sessionId, start, shorter) {
      LastInOrder(batch, i);
      forall k | 0 <= k < i ensures EventFits(sessionId, start, longer, k) && events[k].lifecycle {
        assert EventFits(sessionId, start, shorter, k) && shorter[k] == longer[k];
      }
      assert forall k :: 0 <= k < i ==> shorter[k] == longer[k];
    }
  }

  /** After a tail in order comes the sequence after its last. */
  lemma LastInOrder(batch: Batch, n: nat)
    requires n <= |batch.events| && TailFits(batch.sessionId, batch.snapshotSequence, batch.events[..n])
    ensures SequenceBefore(batch, n) == batch.snapshotSequence + n
  {
    if n > 0 {
      assert EventFits(batch.sessionId, batch.snapshotSequence, batch.events[..n], n - 1);
    }
  }

  lemma MetOneMore(seen: map<string, Envelope>, events: seq<Envelope>, i: nat)
    requires i < |events| && Met(seen, events, i)
    ensures Met(if events[i].lifecycle then seen[events[i].eventId := events[i]] else seen, events, i + 1)
  {
    var longer := if events[i].lifecycle then seen[events[i].eventId := events[i]] else seen;
    var n := i + 1;
    forall id ensures MetOne(longer, events, n, id) {
      assert MetOne(seen, events, i, id);
    }
  }

  method CollectPendingInteractionErrors(batch: Batch, errors: Errors)
    modifies errors
    ensures forall code :: code in errors.codes <==>
                code in old(errors.codes) || InteractionsFind(batch, |batch.pendingInteractions|, code)
    ensures |errors.codes| >= |old(errors.codes)|
    ensures |errors.codes| == |old(errors.codes)| <==>
      forall i :: 0 <= i < |batch.pendingInteractions| ==>
          InteractionFits(batch.sessionId, batch.pendingInteractions[i])
  {
    ghost var before := errors.codes;
    for i := 0 to |batch.pendingInteractions|
      invariant |errors.codes| >= |before|
      invariant |errors.codes| == |before| <==>
        forall j :: 0 <= j < i ==> InteractionFits(batch.sessionId, batch.pendingInteractions[j])
      invariant forall code :: code in errors.codes <==> code in before || InteractionsFind(batch, i, code)
    {
      var x := batch.pendingInteractions[i];
      InteractionsOneMore(batch, i);
      if !x.request {
        errors.Push(true, WrongFamily(OfInteraction));
        continue;
      }
      errors.Push(!x.pending, InteractionNotPending);
      errors.Push(x.sessionId != batch.sessionId && x.parentSessionId != batch.sessionId, InteractionSessionMismatch);
    }
  }

  lemma InteractionsOneMore(batch: Batch, i: nat)
    requires i < |batch.pendingInteractions|
    ensures forall code :: InteractionsFind(batch, i + 1, code) <==>
      InteractionsFind(batch, i, code) || InteractionFinds(batch.sessionId, batch.pendingInteractions[i], code)
  {
  }

  /** `validateReplayBatch`: the codes of everything that is wrong, none exactly for a valid batch. */
  method ValidateReplayBatch(batch: Batch) returns (codes: seq<Error>)
    ensures codes == [] <==> Valid(batch)
    ensures forall code :: code in codes <==> Finds(batch, code)
  {
    var errors := new Errors();
    CollectHeaderErrors(batch, errors);
    if errors.codes != [] {
      return errors.codes;
    }
    NoHeaderError(batch, errors.codes);
    CollectSnapshotErrors(batch, errors);
    CollectEventTailErrors(batch, errors);
    CollectPendingInteractionErrors(batch, errors);
    codes := errors.codes;
  }

  lemma NoHeaderError(batch: Batch, codes: seq<Error>)
    requires codes == [] && forall code :: code in codes <==> HeaderFinds(batch, code)
    ensures forall code :: !HeaderFinds(batch, code)
  {
    forall code ensures !HeaderFinds(batch, code) {
      assert code !in codes;
    }
  }

  // --- merging tails ---

  /** Two batches that agree on every event both know. */
  ghost predicate AgreeingTails(a: Batch, b: Batch) {
    Valid(a) && Valid(b) && a.sessionId == b.sessionId && Consistent(a.events + b.events)
  }

  /** The sequence a batch reaches. */
  function End(batch: Batch): int {
    batch.snapshotSequence + |batch.events|
  }

  /** The second tail begins no later than right after the first one ends. */
  predicate Meet(a: Batch, b: Batch) {
    a.snapshotSequence <= b.snapshotSequence <= End(a)
  }

  /** The first tail, and what the second one adds to it. */
  function Joined(a: Batch, b: Batch): seq<Envelope>
    requires Meet(a, b)
  {
    if End(b) <= End(a) then a.events else a.events + b.events[End(a) - b.snapshotSequence..]
  }

  lemma TailsAreMergeable(a: Batch, b: Batch)
    requires AgreeingTails(a, b)
    ensures Mergeable(a.sessionId, a.events + b.events)
  {
    var both := a.events + b.events;
    forall i | 0 <= i < |both| ensures both[i].lifecycle && both[i].sessionId == a.sessionId {
      if i < |a.events| {
        assert EventFits(a.sessionId, a.snapshotSequence, a.events, i);
      } else {
        assert EventFits(b.sessionId, b.snapshotSequence, b.events, i - |a.events|);
      }
    }
  }

  /** Where both tails know a sequence they know the same event. */
  lemma SameWhereBothKnow(a: Batch, b: Batch, j: nat)
    requires AgreeingTails(a, b) && Meet(a, b) && j < |b.events| && b.snapshotSequence + j < End(a)
    ensures a.events[b.snapshotSequence - a.snapshotSequence + j] == b.events[j]
  {
    var k := b.snapshotSequence - a.snapshotSequence + j;
    var both := a.events + b.events;
    assert EventFits(a.sessionId, a.snapshotSequence, a.events, k)
        && EventFits(b.sessionId, b.snapshotSequence, b.events, j);
    assert both[k] == a.events[k] && both[|a.events| + j] == b.events[j];
    assert Agree(both[k], both[|a.events| + j]);
  }

  lemma JoinedNumbers(a: Batch, b: Batch, i: nat)
    requires AgreeingTails(a, b) && Meet(a, b) && i < |Joined(a, b)|
    ensures EventFits(a.sessionId, a.snapshotSequence, Joined(a, b), i)
  {
    if i < |a.events| {
      assert EventFits(a.sessionId, a.snapshotSequence, a.events, i);
    } else {
      assert EventFits(b.sessionId, b.snapshotSequence, b.events, End(a) - b.snapshotSequence + i - |a.events|);
    }
  }

  lemma JoinedHoldsBoth(a: Batch, b: Batch)
    requires AgreeingTails(a, b) && Meet(a, b)
    ensures SameElements(a.events + b.events, Joined(a, b))
  {
    var both, joined := a.events + b.events, Joined(a, b);
    forall j | 0 <= j < |b.events| ensures b.events[j] in joined {
      if b.snapshotSequence + j < End(a) {
        SameWhereBothKnow(a, b, j);
        assert joined[b.snapshotSequence - a.snapshotSequence + j] == b.events[j];
      } else {
        assert joined[b.snapshotSequence - a.snapshotSequence + j] == b.events[j];
      }
    }
    forall j | 0 <= j < |a.events| ensures a.events[j] in joined {
      assert joined[j] == a.events[j];
    }
  }

  /** Tails that overlap or touch merge to one tail without a gap, right after the lower snapshot. */
  lemma TailsMerge(a: Batch, b: Batch, merged: Result<seq<Envelope>>)
    requires AgreeingTails(a, b) && a.snapshotSequence <= b.snapshotSequence <= End(a)
    requires Merges(a.sessionId, a.events + b.events, merged)
    ensures merged == Ok(Joined(a, b))
    ensures Valid(a.(events := Joined(a, b)))
    ensures End(a.(events := Joined(a, b))) == if End(a) < End(b) then End(b) else End(a)
  {
    var joined := Joined(a, b);
    TailsAreMergeable(a, b);
    JoinedHoldsBoth(a, b);
    forall i | 0 <= i < |joined| ensures EventFits(a.sessionId, a.snapshotSequence, joined, i) {
      JoinedNumbers(a, b, i);
    }
    forall i, j | 0 <= i < j < |joined| ensures SequenceOf()(joined[i]) < SequenceOf()(joined[j]) {
      assert EventFits(a.sessionId, a.snapshotSequence, joined, i)
          && EventFits(a.sessionId, a.snapshotSequence, joined, j);
    }
    assert Strict(joined, SequenceOf());
    StrictIsUnique(merged.value, joined, SequenceOf());
    MergeableDepends(a.sessionId, a.events + b.events, joined);
    forall i, j | 0 <= i < j < |joined| ensures joined[i].eventId != joined[j].eventId {
      assert EventFits(a.sessionId, a.snapshotSequence, joined, i)
          && EventFits(a.sessionId, a.snapshotSequence, joined, j);
      assert Agree(joined[i], joined[j]);
    }
  }

  /** And only those do: across a gap the merged events are no tail of the lower snapshot. */
  lemma GapShows(a: Batch, b: Batch, merged: Result<seq<Envelope>>)
    requires AgreeingTails(a, b) && b.events != [] && b.snapshotSequence > End(a)
    requires Merges(a.sessionId, a.events + b.events, merged)
    ensures merged.Ok? && !TailFits(a.sessionId, a.snapshotSequence, merged.value)
  {
    TailsAreMergeable(a, b);
    var both, m := a.events + b.events, merged.value;
    if TailFits(a.sessionId, a.snapshotSequence, m) {
      assert both[|a.events|] == b.events[0] && EventFits(b.sessionId, b.snapshotSequence, b.events, 0);
      assert b.events[0] in m;
      var k :| 0 <= k < |m| && m[k] == b.events[0];
      assert EventFits(a.sessionId, a.snapshotSequence, m, k);
      MissingNumber(a, b, m, End(a) - a.snapshotSequence);
    }
  }

  /** The number right after the first tail belongs to neither. */
  lemma MissingNumber(a: Batch, b: Batch, m: seq<Envelope>, k: nat)
    requires AgreeingTails(a, b) && b.snapshotSequence > End(a) && SameElements(a.events + b.events, m)
    requires k == |a.events| < |m|
    ensures !EventFits(a.sessionId, a.snapshotSequence, m, k)
  {
    assert m[k] in a.events + b.events;
    forall i | 0 <= i < |a.events| ensures a.events[i].sequence != End(a) + 1 {
      assert EventFits(a.sessionId, a.snapshotSequence, a.events, i);
    }
    forall i | 0 <= i < |b.events| ensures b.events[i].sequence != End(a) + 1 {
      assert EventFits(b.sessionId, b.snapshotSequence, b.events, i);
    }
  }
}
