/** The authority event outbox: a journal of commits, delivery attempts, acknowledgements and
    removals, folded into the list of events still to be delivered. */
module Outbox {
  import opened Text
  import opened Outcome

  /** A timestamp field: blank, parsed, or text that does not parse. */
  datatype Stamp = Blank | At(ms: int) | Garbled

  datatype Status = Pending | Delivered

  datatype Delivery = Delivery(status: Status, attempts: int, lastAttemptAt: Stamp, deliveredAt: Stamp,
                               domain: string, scopeId: string, sequence: int)

  /** `wellFormed` stands for the envelope rules that read none of the other fields. */
  datatype Envelope = Envelope(eventId: string, domain: string, scopeId: string, sequence: int,
                               wellFormed: bool, payload: string)

  datatype Entry = Entry(eventId: string, envelope: Envelope, committedAt: Stamp,
                         deliveries: map<string, Delivery>)

  datatype Record =
    | Commit(eventId: string, envelope: Envelope, committedAt: Stamp)
    | Attempt(eventId: string, consumerId: string, attemptedAt: Stamp)
    | Ack(eventId: string, consumerId: string, deliveredAt: Stamp, domain: string, scopeId: string, sequence: int)
    | Remove(eventId: string)

  const PENDING := Delivery(Pending, 0, Blank, Blank, "", "", 0)

  // --- delivery records ---

  predicate ValidDelivery(d: Delivery) {
    && 0 <= d.attempts <= MAX_SAFE_INTEGER
    && (if d.attempts > 0 then d.lastAttemptAt.At? else d.lastAttemptAt == Blank)
    && (if d.deliveredAt != Blank
        then d.deliveredAt.At? && Canonical(d.domain) && Canonical(d.scopeId) && 1 <= d.sequence <= MAX_SAFE_INTEGER
        else d.domain == "" && d.scopeId == "" && d.sequence == 0)
  }

  /** Checks a delivery and recomputes its status from its acknowledgement. */
  function ReadDelivery(d: Delivery): Result<Delivery> {
    if ValidDelivery(d) then Ok(d.(status := if d.deliveredAt == Blank then Pending else Delivered)) else Rejected
  }

  /** A delivery as `ReadDelivery` returns it. */
  predicate Settled(d: Delivery) {
    ValidDelivery(d) && d.status == if d.deliveredAt == Blank then Pending else Delivered
  }

  // --- entries ---

  predicate ValidEnvelope(e: Envelope) {
    Canonical(e.eventId) && Canonical(e.domain) && Canonical(e.scopeId) && e.sequence >= 0 && e.wellFormed
  }

  predicate ValidEntry(e: Entry) {
    && Canonical(e.eventId) && ValidEnvelope(e.envelope) && e.eventId == e.envelope.eventId && e.committedAt.At?
    && forall c :: c in e.deliveries ==> Canonical(c) && ValidDelivery(e.deliveries[c])
  }

  function Ids(s: seq<Entry>): set<string> {
    set i | 0 <= i < |s| :: s[i].eventId
  }

  predicate DistinctIds(s: seq<Entry>) {
    forall i, j :: 0 <= i < j < |s| ==> s[i].eventId != s[j].eventId
  }

  function SettleEntry(e: Entry): Entry
    requires ValidEntry(e)
  {
    e.(deliveries := map c | c in e.deliveries :: ReadDelivery(e.deliveries[c]).value)
  }

  /** The entries checked one by one; the result is the list with every delivery settled. */
  function Normalize(source: seq<Entry>): Result<seq<Entry>> {
    if source == [] then Ok([])
    else
      var before :- Normalize(source[..|source| - 1]);
      var item := source[|source| - 1];
      if ValidEntry(item) && item.eventId !in Ids(source[..|source| - 1])
      then Ok(before + [SettleEntry(item)]) else Rejected
  }

  predicate NormalEntry(e: Entry) {
    ValidEntry(e) && forall c :: c in e.deliveries ==> Settled(e.deliveries[c])
  }

  /** What every projection is: valid settled entries with distinct ids. */
  predicate Normal(s: seq<Entry>) {
    DistinctIds(s) && forall i :: 0 <= i < |s| ==> NormalEntry(s[i])
  }

  lemma {:induction false} NormalizeFixes(s: seq<Entry>)
    requires Normal(s)
    ensures Normalize(s) == Ok(s)
  {
    if s != [] {
      var before, item := s[..|s| - 1], s[|s| - 1];
      NormalizeFixes(before);
      assert SettleEntry(item).deliveries == item.deliveries;
      assert before + [item] == s;
    }
  }

  /** Normalising accepts exactly valid entries with distinct ids, and settles each of them. */
  lemma {:induction false} NormalizeAccepts(s: seq<Entry>)
    ensures Normalize(s).Ok? <==> DistinctIds(s) && forall i :: 0 <= i < |s| ==> ValidEntry(s[i])
    ensures Normalize(s).Ok? ==> |Normalize(s).value| == |s|
    ensures Normalize(s).Ok? ==> forall i :: 0 <= i < |s| ==>
      ValidEntry(s[i]) && Normalize(s).value[i] == SettleEntry(s[i])
  {
    if s != [] {
      var before, item := s[..|s| - 1], s[|s| - 1];
      NormalizeAccepts(before);
      assert s == before + [item];
      assert forall i :: 0 <= i < |before| ==> before[i] == s[i];
      assert item.eventId !in Ids(before) <==> forall i :: 0 <= i < |before| ==> before[i].eventId != item.eventId;
      assert DistinctIds(s) <==> DistinctIds(before) && item.eventId !in Ids(before);
    }
  }

  lemma NormalizeIsNormal(s: seq<Entry>)
    requires Normalize(s).Ok?
    ensures Normal(Normalize(s).value)
  {
    NormalizeAccepts(s);
    var r := Normalize(s).value;
    forall i | 0 <= i < |r| ensures NormalEntry(r[i]) {
      SettledIsNormal(s[i]);
    }
    assert forall i :: 0 <= i < |r| ==> r[i].eventId == s[i].eventId;
  }

  lemma SettledIsNormal(e: Entry)
    requires ValidEntry(e)
    ensures NormalEntry(SettleEntry(e)) && SettleEntry(e).eventId == e.eventId
  {
  }

  /** Position of an event, or the length of the list. */
  function IndexOf(s: seq<Entry>, eventId: string): (i: nat)
    ensures i <= |s|
    ensures i < |s| ==> s[i].eventId == eventId
    ensures forall j :: 0 <= j < i ==> s[j].eventId != eventId
  {
    if s == [] then 0
    else if s[0].eventId == eventId then 0
    else
      var k := IndexOf(s[1..], eventId);
      assert forall j :: 1 <= j < k + 1 ==> s[j] == s[1..][j - 1];
      k + 1
  }

  /** The list without the entry of an event, if it has one. */
  function Deleted(s: seq<Entry>, eventId: string): seq<Entry> {
    var i := IndexOf(s, eventId);
    if i < |s| then s[..i] + s[i + 1..] else s
  }

  function DeliveryTo(e: Entry, consumerId: string): Delivery {
    if consumerId in e.deliveries then e.deliveries[consumerId] else PENDING
  }

  // --- the journal ---

  predicate ValidRecord(r: Record) {
    Canonical(r.eventId) &&
    match r
    case Commit(eventId, envelope, committedAt) =>
      ValidEnvelope(envelope) && eventId == envelope.eventId && committedAt.At?
    case Attempt(_, consumerId, attemptedAt) => Canonical(consumerId) && attemptedAt.At?
    case Ack(_, consumerId, deliveredAt, domain, scopeId, sequence) =>
      Canonical(consumerId) && deliveredAt.At?
      && ValidDelivery(PENDING.(deliveredAt := deliveredAt, domain := domain, scopeId := scopeId, sequence := sequence))
    case Remove(_) => true
  }

  function WithDelivery(e: Entry, consumerId: string, d: Delivery): Result<Entry> {
    var settled :- ReadDelivery(d);
    Ok(e.(deliveries := e.deliveries[consumerId := settled]))
  }

  /** One more attempt, unless the consumer already has the event. */
  function AttemptEntry(e: Entry, consumerId: string, attemptedAt: Stamp): Result<Entry> {
    var current := DeliveryTo(e, consumerId);
    if current.deliveredAt != Blank then Ok(e)
    else WithDelivery(e, consumerId, current.(attempts := current.attempts + 1, lastAttemptAt := attemptedAt))
  }

  /** The acknowledgement, if its coordinates are the envelope's; a second one changes nothing. */
  function AckEntry(e: Entry, consumerId: string, deliveredAt: Stamp, domain: string, scopeId: string, sequence: int)
    : Result<Entry>
  {
    var current := DeliveryTo(e, consumerId);
    if (domain, scopeId, sequence) != (e.envelope.domain, e.envelope.scopeId, e.envelope.sequence) then Rejected
    else if current.deliveredAt != Blank then Ok(e)
    else WithDelivery(e, consumerId,
      current.(deliveredAt := deliveredAt, domain := domain, scopeId := scopeId, sequence := sequence))
  }

  /** One journal record applied to the entries in insertion order. */
  function Apply(s: seq<Entry>, r: Record): Result<seq<Entry>> {
    if !ValidRecord(r) then Rejected
    else
      var i := IndexOf(s, r.eventId);
      match r
      case Commit(eventId, envelope, committedAt) =>
        if i < |s| then
          if s[i].envelope == envelope && s[i].committedAt == committedAt then Ok(s) else Rejected
        else Ok(s + [Entry(eventId, envelope, committedAt, map[])])
      case Remove(_) =>
        Ok(Deleted(s, r.eventId))
      case Attempt(_, consumerId, attemptedAt) =>
        if i == |s| then Rejected
        else
          var e :- AttemptEntry(s[i], consumerId, attemptedAt);
          Ok(s[i := e])
      case Ack(_, consumerId, deliveredAt, domain, scopeId, sequence) =>
        if i == |s| then Rejected
        else
          var e :- AckEntry(s[i], consumerId, deliveredAt, domain, scopeId, sequence);
          Ok(s[i := e])
  }

  /** The projection of a journal: its records applied in order. */
  function Project(records: seq<Record>): Result<seq<Entry>> {
    if records == [] then Ok([])
    else
      var s :- Project(records[..|records| - 1]);
      Apply(s, records[|records| - 1])
  }

  lemma UpdateKeepsNormal(s: seq<Entry>, i: nat, e: Entry)
    requires Normal(s) && i < |s| && NormalEntry(e) && e.eventId == s[i].eventId
    ensures Normal(s[i := e])
  {
  }

  lemma WithDeliveryKeepsNormal(e: Entry, consumerId: string, d: Delivery)
    requires NormalEntry(e) && Canonical(consumerId) && WithDelivery(e, consumerId, d).Ok?
    ensures NormalEntry(WithDelivery(e, consumerId, d).value)
  {
  }

  lemma DeleteKeepsNormal(s: seq<Entry>, eventId: string)
    requires Normal(s)
    ensures Normal(Deleted(s, eventId))
  {
    var i, r := IndexOf(s, eventId), Deleted(s, eventId);
    assert i < |s| ==> forall k :: 0 <= k < |r| ==> r[k] == s[if k < i then k else k + 1];
  }

  lemma ApplyKeepsNormal(s: seq<Entry>, r: Record)
    requires Normal(s) && Apply(s, r).Ok?
    ensures Normal(Apply(s, r).value)
  {
    var i := IndexOf(s, r.eventId);
    if i < |s| {
      match r {
        case Commit(_, _, _) =>
        case Remove(_) =>
          DeleteKeepsNormal(s, r.eventId);
        case Attempt(_, consumerId, attemptedAt) =>
          var d := DeliveryTo(s[i], consumerId);
          if d.deliveredAt == Blank {
            WithDeliveryKeepsNormal(s[i], consumerId, d.(attempts := d.attempts + 1, lastAttemptAt := attemptedAt));
          }
          UpdateKeepsNormal(s, i, AttemptEntry(s[i], consumerId, attemptedAt).value);
        case Ack(_, consumerId, at, domain, scopeId, sequence) =>
          var d := DeliveryTo(s[i], consumerId);
          if d.deliveredAt == Blank {
            WithDeliveryKeepsNormal(s[i], consumerId,
              d.(deliveredAt := at, domain := domain, scopeId := scopeId, sequence := sequence));
          }
          UpdateKeepsNormal(s, i, AckEntry(s[i], consumerId, at, domain, scopeId, sequence).value);
      }
    }
  }

  lemma {:induction false} ProjectIsNormal(records: seq<Record>)
    requires Project(records).Ok?
    ensures Normal(Project(records).value)
  {
    if records != [] {
      ProjectIsNormal(records[..|records| - 1]);
      ApplyKeepsNormal(Project(records[..|records| - 1]).value, records[|records| - 1]);
    }
  }

  lemma ProjectSnoc(records: seq<Record>, r: Record)
    ensures Project(records + [r]) ==
      if Project(records).Ok? then Apply(Project(records).value, r) else Rejected
  {
    assert (records + [r])[..|records|] == records;
  }

  /** The Map a projection fills, in insertion order. */
  class EventMap {
    var entries: seq<Entry>

    constructor ()
      ensures entries == []
    {
      entries := [];
    }

    /** Replaces the entry in place, or appends it. */
    method Set(eventId: string, e: Entry)
      modifies this
      ensures var i := IndexOf(old(entries), eventId);
              entries == if i < |old(entries)| then old(entries)[i := e] else old(entries) + [e]
    {
      var i := IndexOf(entries, eventId);
      if i < |entries| {
        entries := entries[i := e];
      } else {
        entries := entries + [e];
      }
    }

    method Delete(eventId: string)
      modifies this
      ensures entries == Deleted(old(entries), eventId)
    {
      var i := IndexOf(entries, eventId);
      if i < |entries| {
        entries := entries[..i] + entries[i + 1..];
      }
    }
  }

  /** Applies one record to the Map, or rejects it and leaves the Map alone. */
  method ApplyRecord(byEventId: EventMap, record: Record) returns (ok: bool)
    modifies byEventId
    ensures ok == Apply(old(byEventId.entries), record).Ok?
    ensures byEventId.entries == if ok then Apply(old(byEventId.entries), record).value else old(byEventId.entries)
  {
    if !ValidRecord(record) {
      return false;
    }
    var i := IndexOf(byEventId.entries, record.eventId);
    match record {
      case Commit(eventId, envelope, committedAt) =>
        if i < |byEventId.entries| {
          var existing := byEventId.entries[i];
          return existing.envelope == envelope && existing.committedAt == committedAt;
        }
        byEventId.Set(eventId, Entry(eventId, envelope, committedAt, map[]));
        return true;
      case Remove(eventId) =>
        byEventId.Delete(eventId);
        return true;
      case Attempt(eventId, consumerId, attemptedAt) =>
        if i == |byEventId.entries| {
          return false;
        }
        var entry := byEventId.entries[i];
        var current := DeliveryTo(entry, consumerId);
        if current.deliveredAt != Blank {
          assert byEventId.entries[i := entry] == byEventId.entries;
          return true;
        }
        var updated := WithDelivery(entry, consumerId,
          current.(attempts := current.attempts + 1, lastAttemptAt := attemptedAt));
        if updated.Rejected? {
          return false;
        }
        byEventId.Set(eventId, updated.value);
        return true;
      case Ack(eventId, consumerId, deliveredAt, domain, scopeId, sequence) =>
        if i == |byEventId.entries| {
          return false;
        }
        var entry := byEventId.entries[i];
        if domain != entry.envelope.domain || scopeId != entry.envelope.scopeId || sequence != entry.envelope.sequence {
          return false;
        }
        var current := DeliveryTo(entry, consumerId);
        if current.deliveredAt != Blank {
          assert byEventId.entries[i := entry] == byEventId.entries;
          return true;
        }
        var updated := WithDelivery(entry, consumerId,
          current.(deliveredAt := deliveredAt, domain := domain, scopeId := scopeId, sequence := sequence));
        if updated.Rejected? {
          return false;
        }
        byEventId.Set(eventId, updated.value);
        return true;
    }
  }

  lemma {:induction false} RejectionSticks(records: seq<Record>, k: nat)
    requires k <= |records| && Project(records[..k]).Rejected?
    ensures Project(records).Rejected?
    decreases |records| - k
  {
    if k < |records| {
      assert records[..k + 1] == records[..k] + [records[k]];
      ProjectSnoc(records[..k], records[k]);
      RejectionSticks(records, k + 1);
    } else {
      assert records[..k] == records;
    }
  }

  /** The projection loop and its closing normalisation; the latter never changes or rejects anything. */
  method ProjectJournal(records: seq<Record>) returns (result: Result<seq<Entry>>)
    ensures result == Project(records)
  {
    var byEventId := new EventMap();
    var k := 0;
    while k < |records|
      invariant 0 <= k <= |records|
      invariant Project(records[..k]) == Ok(byEventId.entries)
    {
      ProjectSnoc(records[..k], records[k]);
      assert records[..k + 1] == records[..k] + [records[k]];
      var ok := ApplyRecord(byEventId, records[k]);
      if !ok {
        RejectionSticks(records, k + 1);
        return Rejected;
      }
      k := k + 1;
    }
    assert records[..k] == records;
    ProjectIsNormal(records);
    NormalizeFixes(byEventId.entries);
    result := Normalize(byEventId.entries);
  }
}
