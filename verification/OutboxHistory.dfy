/** What a journal says about one event, read off its records without replaying them, and the
    proof that replay agrees: delivery is a one-way street. */
module OutboxHistory {
  import opened Text
  import opened Outcome
  import opened Outbox

  /** The records about an event since its last removal. */
  function Life(journal: seq<Record>, eventId: string): seq<Record> {
    if journal == [] then []
    else
      var r := journal[|journal| - 1];
      if r.eventId != eventId then Life(journal[..|journal| - 1], eventId)
      else if r.Remove? then []
      else Life(journal[..|journal| - 1], eventId) + [r]
  }

  predicate IsAck(r: Record, consumerId: string) {
    r.Ack? && r.consumerId == consumerId
  }

  predicate IsAttempt(r: Record, consumerId: string) {
    r.Attempt? && r.consumerId == consumerId
  }

  /** Position of the first acknowledgement by a consumer, or the length. */
  function FirstAck(life: seq<Record>, consumerId: string): (k: nat)
    ensures k <= |life|
    ensures k < |life| ==> IsAck(life[k], consumerId)
    ensures forall j :: 0 <= j < k ==> !IsAck(life[j], consumerId)
  {
    if life == [] then 0
    else
      var k := FirstAck(life[..|life| - 1], consumerId);
      if k < |life| - 1 || IsAck(life[k], consumerId) then k else k + 1
  }

  function AttemptCount(records: seq<Record>, consumerId: string): nat {
    if records == [] then 0
    else
      var before := AttemptCount(records[..|records| - 1], consumerId);
      if IsAttempt(records[|records| - 1], consumerId) then before + 1 else before
  }

  function LastAttempt(records: seq<Record>, consumerId: string): Stamp {
    if records == [] then Blank
    else if IsAttempt(records[|records| - 1], consumerId) then records[|records| - 1].attemptedAt
    else LastAttempt(records[..|records| - 1], consumerId)
  }

  /** The delivery a life amounts to: attempts before the first acknowledgement, and that one. */
  function DeliveryOf(life: seq<Record>, consumerId: string): Delivery {
    var k := FirstAck(life, consumerId);
    var attempts := AttemptCount(life[..k], consumerId);
    var last := LastAttempt(life[..k], consumerId);
    if k < |life| then
      Delivery(Delivered, attempts, last, life[k].deliveredAt, life[k].domain, life[k].scopeId, life[k].sequence)
    else Delivery(Pending, attempts, last, Blank, "", "", 0)
  }

  /** Entries only a journal makes: every recorded delivery was attempted or acknowledged, with
      the coordinates of its envelope. */
  ghost predicate Recorded(e: Entry) {
    forall c :: c in e.deliveries ==>
      var d := e.deliveries[c];
      && (d.attempts > 0 || d.deliveredAt != Blank)
      && (d.deliveredAt != Blank ==>
            (d.domain, d.scopeId, d.sequence) == (e.envelope.domain, e.envelope.scopeId, e.envelope.sequence))
  }

  /** The entry agrees with the life of its event. */
  ghost predicate Tells(life: seq<Record>, e: Entry) {
    && life != [] && life[0].Commit?
    && (forall k :: 0 <= k < |life| && life[k].Commit? ==>
          life[k].envelope == e.envelope && life[k].committedAt == e.committedAt)
    && (forall c :: DeliveryTo(e, c) == DeliveryOf(life, c))
    && Recorded(e)
  }

  ghost predicate Present(s: seq<Entry>, eventId: string) {
    IndexOf(s, eventId) < |s|
  }

  // --- how one more record moves the reading ---

  lemma FirstAckAppend(life: seq<Record>, r: Record, c: string)
    ensures FirstAck(life + [r], c) ==
      if FirstAck(life, c) < |life| then FirstAck(life, c) else if IsAck(r, c) then |life| else |life| + 1
  {
    assert (life + [r])[..|life|] == life;
  }

  lemma AttemptsAppend(life: seq<Record>, r: Record, c: string)
    ensures AttemptCount(life + [r], c) == AttemptCount(life, c) + if IsAttempt(r, c) then 1 else 0
    ensures LastAttempt(life + [r], c) == if IsAttempt(r, c) then r.attemptedAt else LastAttempt(life, c)
  {
    assert (life + [r])[..|life|] == life;
  }

  lemma DeliveryOfSnoc(life: seq<Record>, r: Record, c: string)
    ensures DeliveryOf(life + [r], c) ==
      var d := DeliveryOf(life, c);
      if d.status == Delivered then d
      else if IsAttempt(r, c) then d.(attempts := d.attempts + 1, lastAttemptAt := r.attemptedAt)
      else if IsAck(r, c) then
        d.(status := Delivered, deliveredAt := r.deliveredAt, domain := r.domain, scopeId := r.scopeId,
           sequence := r.sequence)
      else d
  {
    var longer := life + [r];
    var k := FirstAck(life, c);
    FirstAckAppend(life, r, c);
    if k < |life| {
      assert longer[k] == life[k] && longer[..k] == life[..k];
    } else {
      assert life[..k] == life;
      if IsAck(r, c) {
        assert longer[..|life|] == life && longer[|life|] == r;
      } else {
        assert longer[..|life| + 1] == longer;
        AttemptsAppend(life, r, c);
      }
    }
  }

  lemma AttemptTells(life: seq<Record>, e: Entry, r: Record)
    requires Tells(life, e) && NormalEntry(e) && r.Attempt? && ValidRecord(r)
    requires AttemptEntry(e, r.consumerId, r.attemptedAt).Ok?
    ensures Tells(life + [r], AttemptEntry(e, r.consumerId, r.attemptedAt).value)
  {
    var after := AttemptEntry(e, r.consumerId, r.attemptedAt).value;
    forall c ensures DeliveryTo(after, c) == DeliveryOf(life + [r], c) {
      DeliveryOfSnoc(life, r, c);
      assert DeliveryTo(e, c) == DeliveryOf(life, c);
    }
  }

  lemma AckTells(life: seq<Record>, e: Entry, r: Record)
    requires Tells(life, e) && NormalEntry(e) && r.Ack? && ValidRecord(r)
    requires AckEntry(e, r.consumerId, r.deliveredAt, r.domain, r.scopeId, r.sequence).Ok?
    ensures Tells(life + [r], AckEntry(e, r.consumerId, r.deliveredAt, r.domain, r.scopeId, r.sequence).value)
  {
    var after := AckEntry(e, r.consumerId, r.deliveredAt, r.domain, r.scopeId, r.sequence).value;
    forall c ensures DeliveryTo(after, c) == DeliveryOf(life + [r], c) {
      DeliveryOfSnoc(life, r, c);
      assert DeliveryTo(e, c) == DeliveryOf(life, c);
    }
  }

  lemma CommitTells(life: seq<Record>, e: Entry, r: Record)
    requires Tells(life, e) && r.Commit? && r.envelope == e.envelope && r.committedAt == e.committedAt
    ensures Tells(life + [r], e)
  {
    forall c ensures DeliveryTo(e, c) == DeliveryOf(life + [r], c) {
      DeliveryOfSnoc(life, r, c);
      assert DeliveryTo(e, c) == DeliveryOf(life, c);
    }
  }

  lemma BirthTells(r: Record)
    requires r.Commit?
    ensures Tells([r], Entry(r.eventId, r.envelope, r.committedAt, map[]))
  {
    forall c ensures DeliveryOf([r], c) == PENDING {
      DeliveryOfSnoc([], r, c);
      assert [] + [r] == [r];
    }
  }

  /** The entry of an event moved to another list, unchanged. */
  ghost predicate SameStanding(s: seq<Entry>, s': seq<Entry>, eventId: string) {
    && Present(s', eventId) == Present(s, eventId)
    && (Present(s, eventId) ==> s'[IndexOf(s', eventId)] == s[IndexOf(s, eventId)])
  }

  lemma DeleteElsewhere(s: seq<Entry>, removed: string, eventId: string)
    requires Normal(s) && removed != eventId
    ensures SameStanding(s, Deleted(s, removed), eventId)
  {
    var s', i, k := Deleted(s, removed), IndexOf(s, removed), IndexOf(s, eventId);
    DeleteKeepsNormal(s, removed);
    if i < |s| {
      assert forall j :: 0 <= j < |s'| ==> s'[j] == s[if j < i then j else j + 1];
      if k < |s| {
        UniqueIndex(s', if k < i then k else k - 1, eventId);
      }
    }
  }

  lemma UpdateElsewhere(s: seq<Entry>, i: nat, e: Entry, eventId: string)
    requires i < |s| && e.eventId == s[i].eventId != eventId
    ensures SameStanding(s, s[i := e], eventId)
  {
    var k, s' := IndexOf(s, eventId), s[i := e];
    assert forall j :: 0 <= j < |s| && j != i ==> s'[j] == s[j];
    assert IndexOf(s', eventId) == k;
  }

  lemma AppendElsewhere(s: seq<Entry>, e: Entry, eventId: string)
    requires e.eventId != eventId
    ensures SameStanding(s, s + [e], eventId)
  {
    var k, s' := IndexOf(s, eventId), s + [e];
    assert forall j :: 0 <= j < |s| ==> s'[j] == s[j];
    assert s'[|s|] == e;
    assert IndexOf(s', eventId) == if k < |s| then k else |s'|;
  }

  /** Where other events stand is untouched by a record. */
  lemma ApplyElsewhere(s: seq<Entry>, r: Record, eventId: string)
    requires Normal(s) && Apply(s, r).Ok? && r.eventId != eventId
    ensures SameStanding(s, Apply(s, r).value, eventId)
  {
    var i := IndexOf(s, r.eventId);
    match r {
      case Commit(_, envelope, committedAt) =>
        if i == |s| {
          AppendElsewhere(s, Entry(r.eventId, envelope, committedAt, map[]), eventId);
        }
      case Remove(_) => DeleteElsewhere(s, r.eventId, eventId);
      case Attempt(_, c, at) => UpdateElsewhere(s, i, AttemptEntry(s[i], c, at).value, eventId);
      case Ack(_, c, at, d, sc, n) => UpdateElsewhere(s, i, AckEntry(s[i], c, at, d, sc, n).value, eventId);
    }
  }

  lemma UniqueIndex(s: seq<Entry>, k: nat, eventId: string)
    requires DistinctIds(s) && k < |s| && s[k].eventId == eventId
    ensures IndexOf(s, eventId) == k
  {
  }

  /** The record's own event: what replay does to it is what the record adds to its life. */
  lemma ApplyHere(s: seq<Entry>, r: Record, life: seq<Record>)
    requires Normal(s) && Apply(s, r).Ok? && !r.Remove?
    requires if Present(s, r.eventId) then Tells(life, s[IndexOf(s, r.eventId)]) else life == []
    ensures var s' := Apply(s, r).value;
            Present(s', r.eventId) && Tells(life + [r], s'[IndexOf(s', r.eventId)])
  {
    var s', i := Apply(s, r).value, IndexOf(s, r.eventId);
    ApplyKeepsNormal(s, r);
    if i == |s| {
      UniqueIndex(s', i, r.eventId);
      BirthTells(r);
      assert [] + [r] == [r];
    } else {
      UniqueIndex(s', i, r.eventId);
      match r {
        case Commit(_, _, _) => CommitTells(life, s[i], r);
        case Attempt(_, _, _) => AttemptTells(life, s[i], r);
        case Ack(_, _, _, _, _, _) => AckTells(life, s[i], r);
      }
    }
  }

  /** Over every accepted journal: an event is present exactly when its life is not empty, and
      its entry is the one its life tells. */
  lemma {:induction false} ReplayTellsLives(journal: seq<Record>, eventId: string)
    requires Project(journal).Ok?
    ensures var s := Project(journal).value;
            if Present(s, eventId) then Tells(Life(journal, eventId), s[IndexOf(s, eventId)])
            else Life(journal, eventId) == []
  {
    if journal != [] {
      var before, r := journal[..|journal| - 1], journal[|journal| - 1];
      ReplayTellsLives(before, eventId);
      ProjectIsNormal(before);
      var s := Project(before).value;
      if r.eventId != eventId {
        ApplyElsewhere(s, r, eventId);
      } else if r.Remove? {
        RemoveForgets(s, eventId);
      } else {
        ApplyHere(s, r, Life(before, eventId));
      }
    }
  }

  lemma RemoveForgets(s: seq<Entry>, eventId: string)
    requires Normal(s)
    ensures !Present(Deleted(s, eventId), eventId)
  {
    var i, r := IndexOf(s, eventId), Deleted(s, eventId);
    assert i < |s| ==> forall k :: 0 <= k < |r| ==> r[k] == s[if k < i then k else k + 1];
  }

  // --- which journals project ---

  predicate Acknowledged(life: seq<Record>, consumerId: string) {
    exists k :: 0 <= k < |life| && IsAck(life[k], consumerId)
  }

  /** What a record may follow, said of the records of its event since the last removal: a commit
      repeats the first one, if there is one; an attempt or an acknowledgement needs a commit.  An
      acknowledgement must name the coordinates committed, whether or not it was given before; an
      attempt before the acknowledgement is the consumer's next one, and may not be one too many. */
  predicate Admits(life: seq<Record>, r: Record) {
    match r
    case Remove(_) => true
    case Commit(_, envelope, committedAt) =>
      life != [] ==> life[0].Commit? && life[0].envelope == envelope && life[0].committedAt == committedAt
    case Ack(_, _, _, domain, scopeId, sequence) =>
      && life != [] && life[0].Commit?
      && domain == life[0].envelope.domain && scopeId == life[0].envelope.scopeId
      && sequence == life[0].envelope.sequence
    case Attempt(_, consumerId, _) =>
      life != [] && (Acknowledged(life, consumerId) || AttemptCount(life, consumerId) < MAX_SAFE_INTEGER)
  }

  lemma AcknowledgedIs(life: seq<Record>, consumerId: string)
    ensures Acknowledged(life, consumerId) <==> DeliveryOf(life, consumerId).status == Delivered
  {
    var k := FirstAck(life, consumerId);
    if k < |life| {
      assert IsAck(life[k], consumerId);
    }
  }

  lemma AttemptAccepted(life: seq<Record>, e: Entry, r: Record)
    requires Tells(life, e) && NormalEntry(e) && r.Attempt? && ValidRecord(r)
    ensures AttemptEntry(e, r.consumerId, r.attemptedAt).Ok? <==> Admits(life, r)
  {
    AcknowledgedIs(life, r.consumerId);
    var k := FirstAck(life, r.consumerId);
    assert DeliveryTo(e, r.consumerId) == DeliveryOf(life, r.consumerId);
    if k == |life| {
      assert life[..k] == life;
    }
  }

  lemma AckAccepted(life: seq<Record>, e: Entry, r: Record)
    requires Tells(life, e) && NormalEntry(e) && r.Ack? && ValidRecord(r)
    ensures AckEntry(e, r.consumerId, r.deliveredAt, r.domain, r.scopeId, r.sequence).Ok? <==> Admits(life, r)
  {
  }

  /** After an accepted journal exactly the valid records are accepted that its records of the same
      event admit. */
  lemma AcceptedIff(journal: seq<Record>, r: Record)
    requires Project(journal).Ok?
    ensures Project(journal + [r]).Ok? <==> ValidRecord(r) && Admits(Life(journal, r.eventId), r)
  {
    ProjectSnoc(journal, r);
    ReplayTellsLives(journal, r.eventId);
    ProjectIsNormal(journal);
    var s, life := Project(journal).value, Life(journal, r.eventId);
    if Present(s, r.eventId) && ValidRecord(r) {
      var e := s[IndexOf(s, r.eventId)];
      match r {
        case Attempt(_, _, _) => AttemptAccepted(life, e, r);
        case Ack(_, _, _, _, _, _) => AckAccepted(life, e, r);
        case _ =>
      }
    }
  }

  ghost predicate AdmittedAt(journal: seq<Record>, k: nat)
    requires k < |journal|
  {
    ValidRecord(journal[k]) && Admits(Life(journal[..k], journal[k].eventId), journal[k])
  }

  /** A journal projects exactly if each of its records is valid and admitted by those before it. */
  lemma {:induction false} ProjectsIff(journal: seq<Record>)
    ensures Project(journal).Ok? <==> forall k :: 0 <= k < |journal| ==> AdmittedAt(journal, k)
  {
    if journal != [] {
      var n := |journal| - 1;
      var before := journal[..n];
      ProjectsIff(before);
      assert journal == before + [journal[n]];
      ProjectSnoc(before, journal[n]);
      if Project(before).Ok? {
        AcceptedIff(before, journal[n]);
        assert AdmittedAt(journal, n) <==> Project(journal).Ok?;
      }
      forall k | 0 <= k < n ensures AdmittedAt(journal, k) <==> AdmittedAt(before, k) {
        assert before[..k] == journal[..k] && before[k] == journal[k];
      }
    }
  }

  /** An acknowledgement that comes again is accepted and changes nothing. */
  lemma AcknowledgedAgain(journal: seq<Record>, r: Record)
    requires Project(journal).Ok? && r.Ack? && ValidRecord(r) && Admits(Life(journal, r.eventId), r)
    requires Acknowledged(Life(journal, r.eventId), r.consumerId)
    ensures Project(journal + [r]) == Project(journal)
  {
    ProjectSnoc(journal, r);
    ReplayTellsLives(journal, r.eventId);
    ProjectIsNormal(journal);
    var s := Project(journal).value;
    assert NormalEntry(s[IndexOf(s, r.eventId)]);
    AckChangesNothing(Life(journal, r.eventId), s[IndexOf(s, r.eventId)], r);
    PutBack(s, IndexOf(s, r.eventId));
  }

  lemma AckChangesNothing(life: seq<Record>, e: Entry, r: Record)
    requires Tells(life, e) && NormalEntry(e) && r.Ack? && Admits(life, r) && Acknowledged(life, r.consumerId)
    ensures AckEntry(e, r.consumerId, r.deliveredAt, r.domain, r.scopeId, r.sequence) == Ok(e)
  {
    AcknowledgedIs(life, r.consumerId);
    assert DeliveryTo(e, r.consumerId) == DeliveryOf(life, r.consumerId);
  }

  lemma PutBack(s: seq<Entry>, i: nat)
    requires i < |s|
    ensures s[i := s[i]] == s
  {
  }

  /** Once delivered to a consumer, only a REMOVE of the event changes the delivery. */
  lemma DeliveredIsFinal(journal: seq<Record>, r: Record, eventId: string, c: string)
    requires Project(journal + [r]).Ok?
    requires DeliveryOf(Life(journal, eventId), c).status == Delivered
    requires !(r.Remove? && r.eventId == eventId)
    ensures var s, s' := Project(journal).value, Project(journal + [r]).value;
            && Project(journal).Ok? && Present(s, eventId) && Present(s', eventId)
            && DeliveryTo(s'[IndexOf(s', eventId)], c) == DeliveryTo(s[IndexOf(s, eventId)], c)
  {
    ProjectSnoc(journal, r);
    ReplayTellsLives(journal, eventId);
    ReplayTellsLives(journal + [r], eventId);
    assert (journal + [r])[..|journal|] == journal;
    DeliveryOfSnoc(Life(journal, eventId), r, c);
  }

  // --- rewriting the journal from the outbox ---

  lemma ProjectionIsRecorded(journal: seq<Record>)
    requires Project(journal).Ok?
    ensures forall i :: 0 <= i < |Project(journal).value| ==> Recorded(Project(journal).value[i])
  {
    var s := Project(journal).value;
    ProjectIsNormal(journal);
    forall i | 0 <= i < |s| ensures Recorded(s[i]) {
      ReplayTellsLives(journal, s[i].eventId);
      UniqueIndex(s, i, s[i].eventId);
      forall c | c in s[i].deliveries ensures DeliveryTo(s[i], c) == s[i].deliveries[c] {
      }
    }
  }

  function Only(e: Entry, consumers: set<string>): Entry {
    e.(deliveries := map c | c in e.deliveries && c in consumers :: e.deliveries[c])
  }

  lemma LastOf(base: seq<Entry>, e: Entry)
    requires DistinctIds(base + [e])
    ensures IndexOf(base + [e], e.eventId) == |base|
  {
    UniqueIndex(base + [e], |base|, e.eventId);
  }

  /** Delivery `d` of `e` is one a journal can record, and `e` can follow `base`. */
  ghost predicate Writable(base: seq<Entry>, e: Entry, c: string, d: Delivery) {
    && DistinctIds(base + [e]) && ValidEntry(e) && Canonical(c) && c !in e.deliveries
    && Settled(d) && (d.attempts > 0 || d.deliveredAt != Blank)
    && (d.deliveredAt != Blank ==>
          (d.domain, d.scopeId, d.sequence) == (e.envelope.domain, e.envelope.scopeId, e.envelope.sequence))
  }

  /** What a delivery record makes of the entry it names. */
  function Touch(e: Entry, r: Record): Result<Entry>
    requires r.Attempt? || r.Ack?
  {
    if r.Attempt? then AttemptEntry(e, r.consumerId, r.attemptedAt)
    else AckEntry(e, r.consumerId, r.deliveredAt, r.domain, r.scopeId, r.sequence)
  }

  lemma TouchLast(records: seq<Record>, base: seq<Entry>, last: Entry, r: Record)
    requires r.Attempt? || r.Ack?
    requires DistinctIds(base + [last]) && r.eventId == last.eventId && ValidRecord(r)
    requires Project(records) == Ok(base + [last]) && Touch(last, r).Ok?
    ensures Project(records + [r]) == Ok(base + [Touch(last, r).value])
  {
    ProjectSnoc(records, r);
    LastOf(base, last);
    var s, after := base + [last], Touch(last, r).value;
    assert s[|base|] == last;
    assert s[|base| := after] == base + [after];
  }

  /** One more attempt record on the entry being rewritten. */
  lemma AttemptStep(records: seq<Record>, base: seq<Entry>, e: Entry, c: string, d: Delivery, k: nat)
    requires Writable(base, e, c, d) && k < d.attempts
    requires Project(records) == Ok(base + [Attempted(e, c, d, k)])
    ensures Project(records + [Attempt(e.eventId, c, d.lastAttemptAt)]) == Ok(base + [Attempted(e, c, d, k + 1)])
  {
    var last := Attempted(e, c, d, k);
    DistinctSameIds(base, e, last);
    AttemptGrows(e, c, d, k);
    TouchLast(records, base, last, Attempt(e.eventId, c, d.lastAttemptAt));
  }

  lemma AttemptGrows(e: Entry, c: string, d: Delivery, k: nat)
    requires c !in e.deliveries && d.lastAttemptAt.At? && k < d.attempts <= MAX_SAFE_INTEGER
    ensures AttemptEntry(Attempted(e, c, d, k), c, d.lastAttemptAt) == Ok(Attempted(e, c, d, k + 1))
  {
    assert e.deliveries[c := Settle(d, k)][c := Settle(d, k + 1)] == e.deliveries[c := Settle(d, k + 1)];
  }

  lemma DistinctSameIds(base: seq<Entry>, e: Entry, f: Entry)
    requires DistinctIds(base + [e]) && f.eventId == e.eventId
    ensures DistinctIds(base + [f])
  {
    var s, t := base + [e], base + [f];
    assert forall i :: 0 <= i < |t| ==> t[i].eventId == s[i].eventId;
  }

  /** `k` attempts and no acknowledgement. */
  function Settle(d: Delivery, k: nat): Delivery {
    Delivery(Pending, k, d.lastAttemptAt, Blank, "", "", 0)
  }

  function Attempted(e: Entry, c: string, d: Delivery, k: nat): Entry {
    if k == 0 then e else e.(deliveries := e.deliveries[c := Settle(d, k)])
  }

  lemma AckStep(records: seq<Record>, base: seq<Entry>, e: Entry, c: string, d: Delivery)
    requires Writable(base, e, c, d) && d.deliveredAt != Blank
    requires Project(records) == Ok(base + [Attempted(e, c, d, d.attempts)])
    ensures Project(records + [Ack(e.eventId, c, d.deliveredAt, d.domain, d.scopeId, d.sequence)])
         == Ok(base + [e.(deliveries := e.deliveries[c := d])])
  {
    var last := Attempted(e, c, d, d.attempts);
    DistinctSameIds(base, e, last);
    AckCompletes(e, c, d);
    TouchLast(records, base, last, Ack(e.eventId, c, d.deliveredAt, d.domain, d.scopeId, d.sequence));
  }

  lemma AckCompletes(e: Entry, c: string, d: Delivery)
    requires c !in e.deliveries && Settled(d) && d.deliveredAt != Blank
    requires (d.domain, d.scopeId, d.sequence) == (e.envelope.domain, e.envelope.scopeId, e.envelope.sequence)
    ensures AckEntry(Attempted(e, c, d, d.attempts), c, d.deliveredAt, d.domain, d.scopeId, d.sequence)
         == Ok(e.(deliveries := e.deliveries[c := d]))
  {
    assert e.deliveries[c := Settle(d, d.attempts)][c := d] == e.deliveries[c := d];
  }

  lemma LastIsNew(base: seq<Entry>, e: Entry)
    requires DistinctIds(base + [e])
    ensures IndexOf(base, e.eventId) == |base|
  {
    var t := base + [e];
    assert t[|base|] == e && forall i :: 0 <= i < |base| ==> t[i] == base[i];
  }

  lemma CommitStep(records: seq<Record>, base: seq<Entry>, e: Entry)
    requires DistinctIds(base + [e]) && ValidEntry(e)
    requires Project(records) == Ok(base)
    ensures Project(records + [Commit(e.eventId, e.envelope, e.committedAt)]) == Ok(base + [Only(e, {})])
  {
    ProjectSnoc(records, Commit(e.eventId, e.envelope, e.committedAt));
    LastIsNew(base, e);
    assert Only(e, {}).deliveries == map[];
  }

  /** Nothing in it removes an event. */
  ghost predicate RemovesNothing(records: seq<Record>) {
    forall r :: r in records ==> !r.Remove?
  }

  /** The attempts of one delivery, all stamped with the last. */
  method AttemptRecords(records: seq<Record>, ghost base: seq<Entry>, ghost e: Entry, eventId: string, c: string,
                        d: Delivery)
    returns (out: seq<Record>)
    requires eventId == e.eventId
    ensures Writable(base, e, c, d) && Project(records) == Ok(base + [e]) ==>
      Project(out) == Ok(base + [Attempted(e, c, d, d.attempts)])
    ensures RemovesNothing(records) ==> RemovesNothing(out)
  {
    ghost var ready := Writable(base, e, c, d) && Project(records) == Ok(base + [e]);
    out := records;
    var index := 0;
    while index < d.attempts
      invariant 0 <= index && (ready ==> index <= d.attempts)
      invariant ready ==> Project(out) == Ok(base + [Attempted(e, c, d, index)])
      invariant RemovesNothing(records) ==> RemovesNothing(out)
    {
      if ready {
        AttemptStep(out, base, e, c, d, index);
      }
      out := out + [Attempt(eventId, c, d.lastAttemptAt)];
      index := index + 1;
    }
  }

  /** The records of one delivery. */
  method DeliveryRecords(records: seq<Record>, ghost base: seq<Entry>, ghost e: Entry, eventId: string, c: string,
                         d: Delivery)
    returns (out: seq<Record>)
    requires eventId == e.eventId
    ensures Writable(base, e, c, d) && Project(records) == Ok(base + [e]) ==>
      Project(out) == Ok(base + [e.(deliveries := e.deliveries[c := d])])
    ensures RemovesNothing(records) ==> RemovesNothing(out)
  {
    out := AttemptRecords(records, base, e, eventId, c, d);
    ghost var ready := Writable(base, e, c, d) && Project(records) == Ok(base + [e]);
    if d.deliveredAt != Blank {
      if ready {
        AckStep(out, base, e, c, d);
      }
      out := out + [Ack(eventId, c, d.deliveredAt, d.domain, d.scopeId, d.sequence)];
    } else if ready {
      assert Settle(d, d.attempts) == d;
    }
  }

  ghost predicate EntryReady(records: seq<Record>, base: seq<Entry>, e: Entry) {
    DistinctIds(base + [e]) && NormalEntry(e) && Recorded(e) && Project(records) == Ok(base)
  }

  /** The records of one entry, whatever the order of its consumers. */
  method EntryRecords(records: seq<Record>, ghost base: seq<Entry>, e: Entry) returns (out: seq<Record>)
    ensures EntryReady(records, base, e) ==> Project(out) == Ok(base + [e])
    ensures RemovesNothing(records) ==> RemovesNothing(out)
  {
    ghost var ready := EntryReady(records, base, e);
    if ready {
      CommitStep(records, base, e);
    }
    out := records + [Commit(e.eventId, e.envelope, e.committedAt)];
    var rest := e.deliveries.Keys;
    while rest != {}
      invariant rest <= e.deliveries.Keys
      invariant ready ==> Project(out) == Ok(base + [Only(e, e.deliveries.Keys - rest)])
      invariant RemovesNothing(records) ==> RemovesNothing(out)
      decreases rest
    {
      var c :| c in rest;
      ghost var done := e.deliveries.Keys - rest;
      ghost var partial := Only(e, done);
      if ready {
        DistinctSameIds(base, e, partial);
      }
      out := DeliveryRecords(out, base, partial, e.eventId, c, e.deliveries[c]);
      assert partial.deliveries[c := e.deliveries[c]] == Only(e, done + {c}).deliveries;
      assert done + {c} == e.deliveries.Keys - (rest - {c});
      rest := rest - {c};
    }
    assert Only(e, e.deliveries.Keys - {}).deliveries == e.deliveries;
  }

  ghost predicate AllRecorded(s: seq<Entry>) {
    forall i :: 0 <= i < |s| ==> Recorded(s[i])
  }

  lemma EntryIsNext(s: seq<Entry>, k: nat)
    requires Normal(s) && k < |s|
    ensures s[..k + 1] == s[..k] + [s[k]] && DistinctIds(s[..k] + [s[k]]) && NormalEntry(s[k])
  {
  }

  /** The journal written from an outbox projects back to exactly that outbox, provided its
      deliveries are ones a journal can record; every projection's are.  It removes nothing. */
  method RecordsFromOutbox(source: seq<Entry>) returns (records: Result<seq<Record>>)
    ensures records.Ok? == Normalize(source).Ok?
    ensures records.Ok? && AllRecorded(Normalize(source).value) ==>
      Project(records.value) == Normalize(source)
    ensures records.Ok? ==> RemovesNothing(records.value)
  {
    var normalized := Normalize(source);
    if normalized.Rejected? {
      return Rejected;
    }
    var outbox := normalized.value;
    NormalizeIsNormal(source);
    ghost var recorded := AllRecorded(outbox);
    var out := [];
    var k := 0;
    while k < |outbox|
      invariant 0 <= k <= |outbox|
      invariant recorded ==> Project(out) == Ok(outbox[..k])
      invariant RemovesNothing(out)
    {
      EntryIsNext(outbox, k);
      out := EntryRecords(out, outbox[..k], outbox[k]);
      k := k + 1;
    }
    assert outbox[..k] == outbox;
    records := Ok(out);
  }
}
