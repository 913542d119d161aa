/** Sequence floors, sequence allocation, and runs of commits, deliveries, removals and compactions. */
module OutboxSequence {
  import opened Text
  import opened Outcome
  import opened Outbox
  import opened OutboxOperations

  type Checkpoint = map<string, int>

  const NUL := "\0"

  function SequenceKey(domain: string, scopeId: string): Result<string> {
    if Trim(domain) == "" || Trim(scopeId) == "" then Rejected
    else Ok(Trim(domain) + NUL + Trim(scopeId))
  }

  function Floor(checkpoint: Checkpoint, key: string): int {
    if key in checkpoint then checkpoint[key] else 0
  }

  function Greater(x: int, y: int): int {
    if x < y then y else x
  }

  predicate InScope(e: Envelope, domain: string, scopeId: string) {
    e.domain == domain && e.scopeId == scopeId
  }

  function Highest(envelopes: seq<Envelope>, domain: string, scopeId: string, floor: int): int {
    if envelopes == [] then floor
    else
      var before, last := Highest(envelopes[..|envelopes| - 1], domain, scopeId, floor), envelopes[|envelopes| - 1];
      if InScope(last, domain, scopeId) then Greater(before, last.sequence) else before
  }

  /** One more than the floor and every sequence of the scope. */
  method AllocateSequence(checkpoint: Checkpoint, envelopes: seq<Envelope>, domain: string, scopeId: string)
    returns (result: Result<int>)
    ensures result == Allocation(checkpoint, envelopes, domain, scopeId)
  {
    var key := SequenceKey(domain, scopeId);
    if key.Rejected? {
      return Rejected;
    }
    var maximum := Floor(checkpoint, key.value);
    var k := 0;
    while k < |envelopes|
      invariant 0 <= k <= |envelopes|
      invariant maximum == Highest(envelopes[..k], domain, scopeId, Floor(checkpoint, key.value))
    {
      assert envelopes[..k + 1][..k] == envelopes[..k];
      if InScope(envelopes[k], domain, scopeId) {
        maximum := Greater(maximum, envelopes[k].sequence);
      }
      k := k + 1;
    }
    assert envelopes[..k] == envelopes;
    result := Ok(maximum + 1);
  }

  function Allocation(checkpoint: Checkpoint, envelopes: seq<Envelope>, domain: string, scopeId: string): Result<int> {
    var key :- SequenceKey(domain, scopeId);
    Ok(Highest(envelopes, domain, scopeId, Floor(checkpoint, key)) + 1)
  }

  /** The floors raised to cover the envelopes, before they are checked. */
  function Raised(checkpoint: Checkpoint, envelopes: seq<Envelope>): Result<Checkpoint> {
    if envelopes == [] then Ok(checkpoint)
    else
      var before :- Raised(checkpoint, envelopes[..|envelopes| - 1]);
      var last := envelopes[|envelopes| - 1];
      var key :- SequenceKey(last.domain, last.scopeId);
      Ok(before[key := Greater(Floor(before, key), last.sequence)])
  }

  predicate ValidFloors(checkpoint: Checkpoint) {
    forall key :: key in checkpoint ==> Trim(key) != "" && checkpoint[key] >= 1
  }

  function Advanced(checkpoint: Checkpoint, envelopes: seq<Envelope>): Result<Checkpoint> {
    var raised :- Raised(checkpoint, envelopes);
    if ValidFloors(raised) then Ok(raised) else Rejected
  }

  method AdvanceCheckpoint(checkpoint: Checkpoint, envelopes: seq<Envelope>) returns (result: Result<Checkpoint>)
    ensures result == Advanced(checkpoint, envelopes)
  {
    var floors := checkpoint;
    var k := 0;
    while k < |envelopes|
      invariant 0 <= k <= |envelopes|
      invariant Raised(checkpoint, envelopes[..k]) == Ok(floors)
    {
      assert envelopes[..k + 1][..k] == envelopes[..k];
      var key := SequenceKey(envelopes[k].domain, envelopes[k].scopeId);
      if key.Rejected? {
        RaisedSticks(checkpoint, envelopes, k + 1);
        return Rejected;
      }
      floors := floors[key.value := Greater(Floor(floors, key.value), envelopes[k].sequence)];
      k := k + 1;
    }
    assert envelopes[..k] == envelopes;
    result := if ValidFloors(floors) then Ok(floors) else Rejected;
  }

  lemma {:induction false} RaisedSticks(checkpoint: Checkpoint, envelopes: seq<Envelope>, k: nat)
    requires k <= |envelopes| && Raised(checkpoint, envelopes[..k]).Rejected?
    ensures Raised(checkpoint, envelopes).Rejected?
    decreases |envelopes| - k
  {
    if k < |envelopes| {
      assert envelopes[..k + 1][..k] == envelopes[..k];
      RaisedSticks(checkpoint, envelopes, k + 1);
    } else {
      assert envelopes[..k] == envelopes;
    }
  }

  /** Allocation answers the least number above the floor and above everything in scope. */
  lemma {:induction false} HighestIs(envelopes: seq<Envelope>, domain: string, scopeId: string, floor: int)
    ensures var h := Highest(envelopes, domain, scopeId, floor);
            && h >= floor
            && (forall i :: 0 <= i < |envelopes| && InScope(envelopes[i], domain, scopeId) ==>
                 envelopes[i].sequence <= h)
            && (h == floor ||
                exists i :: 0 <= i < |envelopes| && InScope(envelopes[i], domain, scopeId)
                    && envelopes[i].sequence == h)
  {
    if envelopes != [] {
      HighestIs(envelopes[..|envelopes| - 1], domain, scopeId, floor);
      var last := envelopes[|envelopes| - 1];
      assert forall i :: 0 <= i < |envelopes| - 1 ==> envelopes[..|envelopes| - 1][i] == envelopes[i];
      var h' := Highest(envelopes[..|envelopes| - 1], domain, scopeId, floor);
      if h' != floor {
        var i :| 0 <= i < |envelopes| - 1 && InScope(envelopes[..|envelopes| - 1][i], domain, scopeId)
                 && envelopes[..|envelopes| - 1][i].sequence == h';
        assert InScope(envelopes[i], domain, scopeId) && envelopes[i].sequence == h';
      }
      assert InScope(last, domain, scopeId) ==> InScope(envelopes[|envelopes| - 1], domain, scopeId);
    }
  }

  // --- keys ---

  /** Two scopes share a key exactly when a NUL moves from one's scope into the other's domain. */
  lemma KeysCollideIff(d1: string, s1: string, d2: string, s2: string)
    requires Canonical(d1) && Canonical(s1) && Canonical(d2) && Canonical(s2)
    ensures SequenceKey(d1, s1).Ok? && SequenceKey(d2, s2).Ok?
    ensures SequenceKey(d1, s1) == SequenceKey(d2, s2) <==>
      || (d1 == d2 && s1 == s2)
      || (exists w :: d2 == d1 + NUL + w && s1 == w + NUL + s2)
      || (exists w :: d1 == d2 + NUL + w && s2 == w + NUL + s1)
  {
    TrimFixesTrimmed(d1);
    TrimFixesTrimmed(s1);
    TrimFixesTrimmed(d2);
    TrimFixesTrimmed(s2);
    var k1, k2 := d1 + NUL + s1, d2 + NUL + s2;
    if k1 == k2 {
      if |d1| == |d2| {
        SplitAtLength(d1, s1, d2, s2);
      } else if |d1| < |d2| {
        var w := LongerDomain(d1, s1, d2, s2);
      } else {
        var w := LongerDomain(d2, s2, d1, s1);
      }
    }
    forall w | d2 == d1 + NUL + w && s1 == w + NUL + s2 ensures k1 == k2 {
      assert d1 + NUL + (w + NUL + s2) == d1 + NUL + w + NUL + s2;
    }
    forall w | d1 == d2 + NUL + w && s2 == w + NUL + s1 ensures k1 == k2 {
      assert d2 + NUL + (w + NUL + s1) == d2 + NUL + w + NUL + s1;
    }
  }

  lemma SplitAtLength(d1: string, s1: string, d2: string, s2: string)
    requires d1 + NUL + s1 == d2 + NUL + s2 && |d1| == |d2|
    ensures d1 == d2 && s1 == s2
  {
    var k1, k2 := d1 + NUL + s1, d2 + NUL + s2;
    assert d1 == k1[..|d1|] && d2 == k2[..|d2|];
    assert s1 == k1[|d1| + 1..] && s2 == k2[|d2| + 1..];
  }

  lemma LongerDomain(d1: string, s1: string, d2: string, s2: string) returns (w: string)
    requires d1 + NUL + s1 == d2 + NUL + s2 && |d1| < |d2|
    ensures d2 == d1 + NUL + w && s1 == w + NUL + s2
  {
    var k1, k2 := d1 + NUL + s1, d2 + NUL + s2;
    w := d2[|d1| + 1..];
    assert k2[..|d2|] == d2 && k1[..|d1| + 1] == d1 + NUL;
    assert d2 == k1[..|d2|][..|d1| + 1] + w;
    assert k1[..|d2|][..|d1| + 1] == k1[..|d1| + 1];
    assert k1[|d1| + 1..] == s1 && k2[|d1| + 1..] == w + NUL + s2;
  }

  // --- runs ---

  /** The persisted journal and checkpoint, with the log of everything ever committed. */
  datatype Store = Store(journal: seq<Record>, checkpoint: Checkpoint, issued: seq<Envelope>)

  const EMPTY := Store([], map[], [])

  function Envelopes(s: seq<Entry>): seq<Envelope> {
    seq(|s|, i requires 0 <= i < |s| => s[i].envelope)
  }

  datatype Action =
    | CommitEvent(eventId: string, domain: string, scopeId: string, payload: string, at: Stamp, kept: seq<Envelope>)
    | Deliver(record: Record)
    | RemoveEvents(removals: seq<Record>)
    | CompactStore(cutoff: int, covered: seq<Envelope>, journal: seq<Record>)

  /** A commit allocates its sequence from the outbox and from earlier envelopes the session keeps;
      a delivery appends its record; the deletion of turns appends REMOVE records, and leaves the
      checkpoint alone; a compaction first advances the checkpoint over the dropped envelopes, and
      possibly more of the outbox, then rewrites the journal to the kept entries, or stops in
      between and keeps it. */
  ghost predicate Step(st: Store, action: Action, st': Store) {
    Project(st.journal).Ok? &&
    match action
    case CommitEvent(_, _, _, _, _, _) => CommitStep(st, Project(st.journal).value, action, st')
    case Deliver(record) =>
      && (record.Attempt? || record.Ack?)
      && Project(st.journal + [record]).Ok?
      && st' == st.(journal := st.journal + [record])
    case RemoveEvents(removals) =>
      && (forall r :: r in removals ==> r.Remove?)
      && Project(st.journal + removals).Ok?
      && st' == st.(journal := st.journal + removals)
    case CompactStore(cutoff, covered, journal) =>
      CompactStep(st, Project(st.journal).value, cutoff, covered, journal, st')
  }

  ghost predicate CommitStep(st: Store, s: seq<Entry>, action: Action, st': Store)
    requires action.CommitEvent?
  {
    var sequence := Allocation(st.checkpoint, Envelopes(s) + action.kept, action.domain, action.scopeId);
    && sequence.Ok?
    && var envelope := Envelope(action.eventId, action.domain, action.scopeId, sequence.value, true, action.payload);
       var record := Commit(action.eventId, envelope, action.at);
    && (forall e :: e in action.kept ==> e in st.issued)
    && (forall e :: e in st.issued ==> e.eventId != action.eventId)
    && Project(st.journal + [record]).Ok?
    && st' == Store(st.journal + [record], st.checkpoint, st.issued + [envelope])
  }

  ghost predicate CompactStep(st: Store, s: seq<Entry>, cutoff: int, covered: seq<Envelope>, journal: seq<Record>,
                              st': Store)
  {
    && (forall e :: e in Dropped(s, cutoff) ==> e.envelope in covered)
    && (forall e :: e in covered ==> e in Envelopes(s))
    && Advanced(st.checkpoint, covered).Ok?
    && (journal == st.journal || Project(journal) == Ok(Kept(s, cutoff)))
    && st' == Store(journal, Advanced(st.checkpoint, covered).value, st.issued)
  }

  ghost predicate Run(states: seq<Store>, actions: seq<Action>) {
    && |states| == |actions| + 1 && states[0] == EMPTY
    && forall i :: 0 <= i < |actions| ==> Step(states[i], actions[i], states[i + 1])
  }

  function CountInScope(envelopes: seq<Envelope>, domain: string, scopeId: string): nat {
    if envelopes == [] then 0
    else
      var before := CountInScope(envelopes[..|envelopes| - 1], domain, scopeId);
      if InScope(envelopes[|envelopes| - 1], domain, scopeId) then before + 1 else before
  }

  /** The n-th envelope of every scope carries sequence n. */
  ghost predicate Dense(issued: seq<Envelope>) {
    forall i :: 0 <= i < |issued| ==>
      issued[i].sequence == CountInScope(issued[..i], issued[i].domain, issued[i].scopeId) + 1
  }

  function KeyOf(e: Envelope): string {
    e.domain + NUL + e.scopeId
  }

  /** No two scopes in use share a checkpoint key. */
  ghost predicate NoCollision(issued: seq<Envelope>) {
    forall e, f :: e in issued && f in issued && KeyOf(e) == KeyOf(f) ==> e.domain == f.domain && e.scopeId == f.scopeId
  }

  /** What is held was committed, and every floor is the sequence of something committed. */
  ghost predicate Balanced(issued: seq<Envelope>, held: seq<Envelope>, checkpoint: Checkpoint) {
    && (forall e :: e in issued ==> ValidEnvelope(e) && e.sequence >= 1)
    && (forall e :: e in held ==> e in issued)
    && (forall key :: key in checkpoint ==>
          exists e :: e in issued && KeyOf(e) == key && e.sequence == checkpoint[key])
  }

  ghost predicate Accounted(st: Store) {
    && Project(st.journal).Ok?
    && Balanced(st.issued, Envelopes(Project(st.journal).value), st.checkpoint)
  }

  lemma ScopeKey(domain: string, scopeId: string)
    requires Canonical(domain) && Canonical(scopeId)
    ensures SequenceKey(domain, scopeId) == Ok(domain + NUL + scopeId)
  {
    TrimFixesTrimmed(domain);
    TrimFixesTrimmed(scopeId);
  }

  lemma KeyIsKeyOf(e: Envelope)
    requires ValidEnvelope(e)
    ensures SequenceKey(e.domain, e.scopeId) == Ok(KeyOf(e))
  {
    ScopeKey(e.domain, e.scopeId);
  }

  /** A key's floor after raising: at least what it was, and the sequence of some envelope if it moved. */
  ghost predicate RaisedTo(checkpoint: Checkpoint, envelopes: seq<Envelope>, after: Checkpoint, key: string) {
    && Floor(after, key) >= Floor(checkpoint, key)
    && (key in after ==>
          || (key in checkpoint && after[key] == checkpoint[key])
          || (exists e :: e in envelopes && KeyOf(e) == key && after[key] == e.sequence))
  }

  lemma {:induction false} RaisedCovers(checkpoint: Checkpoint, envelopes: seq<Envelope>)
    requires forall e :: e in envelopes ==> ValidEnvelope(e)
    ensures Raised(checkpoint, envelopes).Ok?
    ensures forall key :: RaisedTo(checkpoint, envelopes, Raised(checkpoint, envelopes).value, key)
    ensures forall e :: e in envelopes ==> Floor(Raised(checkpoint, envelopes).value, KeyOf(e)) >= e.sequence
  {
    if envelopes != [] {
      var before, last := envelopes[..|envelopes| - 1], envelopes[|envelopes| - 1];
      assert envelopes == before + [last];
      RaisedCovers(checkpoint, before);
      RaiseOnce(checkpoint, before, last);
    }
  }

  lemma RaiseOnce(checkpoint: Checkpoint, before: seq<Envelope>, last: Envelope)
    requires Raised(checkpoint, before).Ok? && ValidEnvelope(last)
    requires forall key :: RaisedTo(checkpoint, before, Raised(checkpoint, before).value, key)
    requires forall e :: e in before ==> Floor(Raised(checkpoint, before).value, KeyOf(e)) >= e.sequence
    ensures Raised(checkpoint, before + [last]).Ok?
    ensures var after := Raised(checkpoint, before + [last]).value;
            && (forall key :: RaisedTo(checkpoint, before + [last], after, key))
            && (forall e :: e in before + [last] ==> Floor(after, KeyOf(e)) >= e.sequence)
  {
    var envelopes := before + [last];
    assert envelopes[..|before|] == before && envelopes[|before|] == last;
    KeyIsKeyOf(last);
    var mid, after := Raised(checkpoint, before).value, Raised(checkpoint, envelopes).value;
    assert after == mid[KeyOf(last) := Greater(Floor(mid, KeyOf(last)), last.sequence)];
    assert last in envelopes;
    forall key ensures RaisedTo(checkpoint, envelopes, after, key) {
      assert RaisedTo(checkpoint, before, mid, key);
      if key in mid && !(key in checkpoint && mid[key] == checkpoint[key]) {
        var e :| e in before && KeyOf(e) == key && mid[key] == e.sequence;
        assert e in envelopes;
      }
    }
    forall e | e in envelopes ensures Floor(after, KeyOf(e)) >= e.sequence {
      assert Floor(after, KeyOf(e)) >= Floor(mid, KeyOf(e));
    }
  }

  /** A scope has a key exactly if neither part is blank. */
  lemma SequenceKeyIff(domain: string, scopeId: string)
    ensures SequenceKey(domain, scopeId).Ok? <==> HasText(domain) && HasText(scopeId)
  {
    HasTextIff(domain);
    HasTextIff(scopeId);
  }

  /** An envelope under a key. */
  predicate Under(e: Envelope, key: string) {
    SequenceKey(e.domain, e.scopeId) == Ok(key)
  }

  /** A floor that covers the envelopes under its key, and is no higher than it must be. */
  ghost predicate Covers(checkpoint: Checkpoint, envelopes: seq<Envelope>, after: Checkpoint, key: string) {
    && (key in after <==> key in checkpoint || exists i :: 0 <= i < |envelopes| && Under(envelopes[i], key))
    && (key in after ==>
          && after[key] >= Floor(checkpoint, key)
          && (forall i :: 0 <= i < |envelopes| && Under(envelopes[i], key) ==> envelopes[i].sequence <= after[key])
          && (after[key] == Floor(checkpoint, key)
              || exists i :: 0 <= i < |envelopes| && Under(envelopes[i], key) && envelopes[i].sequence == after[key]))
  }

  ghost predicate CoversAll(checkpoint: Checkpoint, envelopes: seq<Envelope>, after: Checkpoint) {
    forall key :: Covers(checkpoint, envelopes, after, key)
  }

  predicate AllKeyed(envelopes: seq<Envelope>) {
    forall i :: 0 <= i < |envelopes| ==> SequenceKey(envelopes[i].domain, envelopes[i].scopeId).Ok?
  }

  lemma {:induction false} RaisedIff(checkpoint: Checkpoint, envelopes: seq<Envelope>)
    ensures Raised(checkpoint, envelopes).Ok? <==> AllKeyed(envelopes)
    ensures Raised(checkpoint, envelopes).Ok? ==>
              CoversAll(checkpoint, envelopes, Raised(checkpoint, envelopes).value)
  {
    if envelopes != [] {
      var n := |envelopes| - 1;
      var before, last := envelopes[..n], envelopes[n];
      RaisedIff(checkpoint, before);
      AllKeyedSnoc(before, last);
      assert envelopes == before + [last];
      if Raised(checkpoint, envelopes).Ok? {
        CoversAllOneMore(checkpoint, before, last, Raised(checkpoint, before).value);
      }
    }
  }

  lemma AllKeyedSnoc(before: seq<Envelope>, last: Envelope)
    ensures AllKeyed(before + [last]) <==> AllKeyed(before) && SequenceKey(last.domain, last.scopeId).Ok?
  {
    var envelopes := before + [last];
    assert envelopes[|before|] == last && forall i :: 0 <= i < |before| ==> envelopes[i] == before[i];
  }

  lemma CoversAllOneMore(checkpoint: Checkpoint, before: seq<Envelope>, last: Envelope, mid: Checkpoint)
    requires CoversAll(checkpoint, before, mid) && SequenceKey(last.domain, last.scopeId).Ok?
    ensures var own := SequenceKey(last.domain, last.scopeId).value;
            CoversAll(checkpoint, before + [last], mid[own := Greater(Floor(mid, own), last.sequence)])
  {
    var own := SequenceKey(last.domain, last.scopeId).value;
    var envelopes, after := before + [last], mid[own := Greater(Floor(mid, own), last.sequence)];
    forall key ensures Covers(checkpoint, envelopes, after, key) {
      CoversOneMore(checkpoint, before, last, mid, key);
    }
  }

  lemma CoversOneMore(checkpoint: Checkpoint, before: seq<Envelope>, last: Envelope, mid: Checkpoint, key: string)
    requires Covers(checkpoint, before, mid, key) && SequenceKey(last.domain, last.scopeId).Ok?
    ensures var own := SequenceKey(last.domain, last.scopeId).value;
            Covers(checkpoint, before + [last], mid[own := Greater(Floor(mid, own), last.sequence)], key)
  {
    var envelopes := before + [last];
    assert envelopes[|before|] == last && forall i :: 0 <= i < |before| ==> envelopes[i] == before[i];
    forall i | 0 <= i < |before| ensures Under(envelopes[i], key) <==> Under(before[i], key) {
    }
    if key in mid && mid[key] != Floor(checkpoint, key) {
      var i :| 0 <= i < |before| && Under(before[i], key) && before[i].sequence == mid[key];
      assert Under(envelopes[i], key);
    }
    if exists i :: 0 <= i < |before| && Under(before[i], key) {
      var i :| 0 <= i < |before| && Under(before[i], key);
      assert Under(envelopes[i], key);
    }
    assert Under(envelopes[|before|], key) <==> SequenceKey(last.domain, last.scopeId).value == key;
  }

  /** The floors are advanced exactly if every scope has a key, and every key that has a floor then
      holds a text and a positive floor.  Each is the least that covers its envelopes. */
  lemma AdvancedIff(checkpoint: Checkpoint, envelopes: seq<Envelope>) returns (after: Checkpoint)
    ensures var scoped :=
              forall i :: 0 <= i < |envelopes| ==> HasText(envelopes[i].domain) && HasText(envelopes[i].scopeId);
            && (scoped ==> CoversAll(checkpoint, envelopes, after))
            && Advanced(checkpoint, envelopes) ==
                 if scoped && forall key :: key in after ==> HasText(key) && after[key] >= 1
                 then Ok(after) else Rejected
  {
    RaisedIff(checkpoint, envelopes);
    forall i | 0 <= i < |envelopes|
      ensures SequenceKey(envelopes[i].domain, envelopes[i].scopeId).Ok? <==>
                HasText(envelopes[i].domain) && HasText(envelopes[i].scopeId)
    {
      SequenceKeyIff(envelopes[i].domain, envelopes[i].scopeId);
    }
    after := if Raised(checkpoint, envelopes).Ok? then Raised(checkpoint, envelopes).value else checkpoint;
    forall key | key in after ensures Trim(key) != "" <==> HasText(key) {
      HasTextIff(key);
    }
  }

  lemma DeliverKeepsEnvelopes(s: seq<Entry>, r: Record)
    requires Normal(s) && Apply(s, r).Ok? && (r.Attempt? || r.Ack?)
    ensures Envelopes(Apply(s, r).value) == Envelopes(s)
  {
  }

  lemma {:induction false} KeptEnvelopes(s: seq<Entry>, cutoff: int, e: Envelope)
    ensures e in Envelopes(Kept(s, cutoff)) ==> e in Envelopes(s)
    ensures e in Envelopes(s) ==>
        e in Envelopes(Kept(s, cutoff)) || exists x :: x in Dropped(s, cutoff) && x.envelope == e
  {
    CompactionParts(s, cutoff);
    var kept := Kept(s, cutoff);
    if e in Envelopes(kept) {
      var i :| 0 <= i < |kept| && kept[i].envelope == e;
      assert kept[i] in kept;
      var j :| 0 <= j < |s| && s[j] == kept[i];
      assert Envelopes(s)[j] == e;
    }
    if e in Envelopes(s) {
      var i :| 0 <= i < |s| && s[i].envelope == e;
      if Retained(s[i], cutoff) {
        assert s[i] in kept;
        var j :| 0 <= j < |kept| && kept[j] == s[i];
        assert Envelopes(kept)[j] == e;
      } else {
        assert s[i] in Dropped(s, cutoff);
      }
    }
  }

  /** A fresh commit is appended to what the outbox holds. */
  lemma CommitHolds(journal: seq<Record>, eventId: string, envelope: Envelope, at: Stamp)
    requires Project(journal).Ok? && Project(journal + [Commit(eventId, envelope, at)]).Ok?
    requires forall i :: 0 <= i < |Project(journal).value| ==> Project(journal).value[i].eventId != eventId
    ensures ValidEnvelope(envelope)
    ensures Envelopes(Project(journal + [Commit(eventId, envelope, at)]).value)
         == Envelopes(Project(journal).value) + [envelope]
  {
    ProjectSnoc(journal, Commit(eventId, envelope, at));
  }

  lemma FloorIsNatural(issued: seq<Envelope>, held: seq<Envelope>, checkpoint: Checkpoint, key: string)
    requires Balanced(issued, held, checkpoint)
    ensures Floor(checkpoint, key) >= 0
  {
    if key in checkpoint {
      var e :| e in issued && KeyOf(e) == key && e.sequence == checkpoint[key];
    }
  }

  lemma BalancedSnoc(issued: seq<Envelope>, held: seq<Envelope>, checkpoint: Checkpoint, e: Envelope)
    requires Balanced(issued, held, checkpoint) && ValidEnvelope(e) && e.sequence >= 1
    ensures Balanced(issued + [e], held + [e], checkpoint)
  {
    forall key | key in checkpoint
      ensures exists x :: x in issued + [e] && KeyOf(x) == key && x.sequence == checkpoint[key]
    {
      var x :| x in issued && KeyOf(x) == key && x.sequence == checkpoint[key];
      assert x in issued + [e];
    }
  }

  lemma CommitAccounted(st: Store, action: Action, st': Store)
    requires Accounted(st) && Step(st, action, st') && action.CommitEvent?
    ensures Accounted(st')
  {
    var s := Project(st.journal).value;
    var held, envelope := Envelopes(s), st'.issued[|st.issued|];
    HeldAreValid(st.journal);
    forall i | 0 <= i < |s| ensures s[i].eventId != action.eventId {
      assert held[i] in st.issued;
    }
    CommitHolds(st.journal, action.eventId, envelope, action.at);
    var key := SequenceKey(action.domain, action.scopeId).value;
    HighestIs(held + action.kept, action.domain, action.scopeId, Floor(st.checkpoint, key));
    FloorIsNatural(st.issued, held, st.checkpoint, key);
    BalancedSnoc(st.issued, held, st.checkpoint, envelope);
  }

  lemma HeldAreValid(journal: seq<Record>)
    requires Project(journal).Ok?
    ensures var s := Project(journal).value;
            forall i :: 0 <= i < |s| ==> ValidEnvelope(s[i].envelope) && s[i].envelope.eventId == s[i].eventId
  {
    ProjectIsNormal(journal);
    var s := Project(journal).value;
    forall i | 0 <= i < |s| ensures ValidEnvelope(s[i].envelope) && s[i].envelope.eventId == s[i].eventId {
      assert NormalEntry(s[i]);
    }
  }

  lemma FloorsAreIssued(st: Store, covered: seq<Envelope>, key: string)
    requires Accounted(st)
    requires forall e :: e in covered ==> ValidEnvelope(e) && e in st.issued
    requires Raised(st.checkpoint, covered).Ok? && key in Raised(st.checkpoint, covered).value
    ensures exists e :: e in st.issued && KeyOf(e) == key && e.sequence == Raised(st.checkpoint, covered).value[key]
  {
    RaisedCovers(st.checkpoint, covered);
    assert RaisedTo(st.checkpoint, covered, Raised(st.checkpoint, covered).value, key);
  }

  lemma CompactAccounted(st: Store, action: Action, st': Store)
    requires Accounted(st) && Step(st, action, st') && action.CompactStore?
    ensures Accounted(st')
  {
    var s := Project(st.journal).value;
    var s' := Project(st'.journal).value;
    var cutoff, covered := action.cutoff, action.covered;
    assert forall e :: e in covered ==> ValidEnvelope(e) && e in st.issued && e.sequence >= 1;
    forall e | e in Envelopes(s') ensures e in st'.issued {
      KeptEnvelopes(s, cutoff, e);
    }
    forall key | key in st'.checkpoint
      ensures exists e :: e in st'.issued && KeyOf(e) == key && e.sequence == st'.checkpoint[key]
    {
      FloorsAreIssued(st, covered, key);
    }
  }

  lemma EnvelopeHeld(s: seq<Entry>, e: Envelope)
    ensures e in Envelopes(s) <==> exists x :: x in s && x.envelope == e
  {
    if e in Envelopes(s) {
      var i :| 0 <= i < |s| && Envelopes(s)[i] == e;
      assert s[i] in s;
    }
    if x :| x in s && x.envelope == e {
      var i :| 0 <= i < |s| && s[i] == x;
      assert Envelopes(s)[i] == e;
    }
  }

  lemma DeletedEntries(s: seq<Entry>, eventId: string, x: Entry)
    requires DistinctIds(s)
    ensures x in Deleted(s, eventId) <==> x in s && x.eventId != eventId
  {
    var i, t := IndexOf(s, eventId), Deleted(s, eventId);
    if x in s && x.eventId != eventId {
      var k :| 0 <= k < |s| && s[k] == x;
      assert i < |s| ==> t[if k < i then k else k - 1] == x;
    }
  }

  /** The entry of one event goes, the others stay. */
  lemma DeletedEnvelopes(s: seq<Entry>, eventId: string, e: Envelope)
    requires Normal(s)
    ensures e in Envelopes(Deleted(s, eventId)) <==> e in Envelopes(s) && e.eventId != eventId
  {
    EnvelopeHeld(s, e);
    EnvelopeHeld(Deleted(s, eventId), e);
    forall x | x in s ensures x in Deleted(s, eventId) <==> x.eventId != eventId {
      DeletedEntries(s, eventId, x);
    }
    forall x ensures x in Deleted(s, eventId) ==> x in s {
      DeletedEntries(s, eventId, x);
    }
    assert forall x :: x in s ==> NormalEntry(x);
  }

  function IdsOf(records: seq<Record>): set<string> {
    set r | r in records :: r.eventId
  }

  /** After REMOVE records the outbox holds exactly the events they do not name. */
  lemma {:induction false} RemovedEnvelopes(journal: seq<Record>, removals: seq<Record>, e: Envelope)
    requires Project(journal).Ok? && Project(journal + removals).Ok? && forall r :: r in removals ==> r.Remove?
    ensures e in Envelopes(Project(journal + removals).value) <==>
      e in Envelopes(Project(journal).value) && e.eventId !in IdsOf(removals)
  {
    if removals == [] {
      assert journal + removals == journal;
    } else {
      var before, last := removals[..|removals| - 1], removals[|removals| - 1];
      assert removals == before + [last] && last in removals;
      assert journal + removals == (journal + before) + [last];
      ProjectSnoc(journal + before, last);
      RemovedEnvelopes(journal, before, e);
      ProjectIsNormal(journal + before);
      DeletedEnvelopes(Project(journal + before).value, last.eventId, e);
      assert IdsOf(removals) == IdsOf(before) + {last.eventId};
    }
  }

  lemma RemovalAccounted(st: Store, action: Action, st': Store)
    requires Accounted(st) && Step(st, action, st') && action.RemoveEvents?
    ensures Accounted(st')
  {
    forall e | e in Envelopes(Project(st'.journal).value) ensures e in st'.issued {
      RemovedEnvelopes(st.journal, action.removals, e);
    }
  }

  lemma StepAccounted(st: Store, action: Action, st': Store)
    requires Accounted(st) && Step(st, action, st')
    ensures Accounted(st') && st.issued <= st'.issued
  {
    match action {
      case CommitEvent(_, _, _, _, _, _) => CommitAccounted(st, action, st');
      case Deliver(record) =>
        ProjectSnoc(st.journal, record);
        ProjectIsNormal(st.journal);
        DeliverKeepsEnvelopes(Project(st.journal).value, record);
      case RemoveEvents(removals) => RemovalAccounted(st, action, st');
      case CompactStore(_, _, _) => CompactAccounted(st, action, st');
    }
  }

  lemma CountAppend(before: seq<Envelope>, last: Envelope, domain: string, scopeId: string)
    ensures CountInScope(before + [last], domain, scopeId) ==
      CountInScope(before, domain, scopeId) + if InScope(last, domain, scopeId) then 1 else 0
  {
    assert (before + [last])[..|before|] == before;
  }

  lemma DenseInit(before: seq<Envelope>, last: Envelope)
    requires Dense(before + [last])
    ensures Dense(before) && last.sequence == CountInScope(before, last.domain, last.scopeId) + 1
  {
    var all := before + [last];
    assert all[..|before|] == before && all[|before|] == last;
    forall i | 0 <= i < |before|
      ensures before[i].sequence == CountInScope(before[..i], before[i].domain, before[i].scopeId) + 1
    {
      assert all[..i] == before[..i] && all[i] == before[i];
    }
  }

  /** Sequences of a scope run from 1 to the number of its envelopes. */
  ghost predicate Bounds(envelopes: seq<Envelope>, domain: string, scopeId: string) {
    var count := CountInScope(envelopes, domain, scopeId);
    && (forall e :: e in envelopes && InScope(e, domain, scopeId) ==> 1 <= e.sequence <= count)
    && (count > 0 ==> exists e :: e in envelopes && InScope(e, domain, scopeId) && e.sequence == count)
  }

  lemma BoundsAppend(before: seq<Envelope>, last: Envelope, domain: string, scopeId: string)
    requires Bounds(before, domain, scopeId) && last.sequence == CountInScope(before, last.domain, last.scopeId) + 1
    ensures Bounds(before + [last], domain, scopeId)
  {
    var all := before + [last];
    CountAppend(before, last, domain, scopeId);
    assert last in all && forall e :: e in before ==> e in all;
  }

  lemma {:induction false} CountBounds(envelopes: seq<Envelope>, domain: string, scopeId: string)
    requires Dense(envelopes)
    ensures Bounds(envelopes, domain, scopeId)
  {
    if envelopes != [] {
      var before, last := envelopes[..|envelopes| - 1], envelopes[|envelopes| - 1];
      assert envelopes == before + [last];
      DenseInit(before, last);
      CountBounds(before, domain, scopeId);
      BoundsAppend(before, last, domain, scopeId);
    }
  }

  /** Only this scope's envelopes carry its key. */
  ghost predicate OwnsKey(issued: seq<Envelope>, domain: string, scopeId: string) {
    forall e :: e in issued && KeyOf(e) == domain + NUL + scopeId ==> InScope(e, domain, scopeId)
  }

  lemma FloorAtMostCount(issued: seq<Envelope>, held: seq<Envelope>, checkpoint: Checkpoint, domain: string,
                         scopeId: string)
    requires Balanced(issued, held, checkpoint) && Dense(issued)
    requires OwnsKey(issued, domain, scopeId)
    ensures 0 <= Floor(checkpoint, domain + NUL + scopeId) <= CountInScope(issued, domain, scopeId)
  {
    var key := domain + NUL + scopeId;
    CountBounds(issued, domain, scopeId);
    if key in checkpoint {
      var e :| e in issued && KeyOf(e) == key && e.sequence == checkpoint[key];
      assert InScope(e, domain, scopeId);
    }
  }

  /** Every number up to the count was given in the scope. */
  lemma {:induction false} EveryNumberGiven(issued: seq<Envelope>, domain: string, scopeId: string, n: int)
    returns (e: Envelope)
    requires Dense(issued) && 1 <= n <= CountInScope(issued, domain, scopeId)
    ensures e in issued && InScope(e, domain, scopeId) && e.sequence == n
  {
    var before, last := issued[..|issued| - 1], issued[|issued| - 1];
    assert issued == before + [last];
    DenseInit(before, last);
    if n <= CountInScope(before, domain, scopeId) {
      e := EveryNumberGiven(before, domain, scopeId, n);
    } else {
      e := last;
    }
  }

  /** The scope's last envelope is held, kept by the session, or at its floor. */
  ghost predicate TopCovered(st: Store, kept: seq<Envelope>, domain: string, scopeId: string)
    requires Project(st.journal).Ok?
  {
    var count := CountInScope(st.issued, domain, scopeId);
    || Floor(st.checkpoint, domain + NUL + scopeId) >= count
    || exists e :: e in Envelopes(Project(st.journal).value) + kept && InScope(e, domain, scopeId)
         && e.sequence == count
  }

  lemma HighestCounts(st: Store, kept: seq<Envelope>, domain: string, scopeId: string)
    requires Accounted(st) && Dense(st.issued) && OwnsKey(st.issued, domain, scopeId)
    requires forall e :: e in kept ==> e in st.issued
    ensures var count := CountInScope(st.issued, domain, scopeId);
            var known := Envelopes(Project(st.journal).value) + kept;
            var h := Highest(known, domain, scopeId, Floor(st.checkpoint, domain + NUL + scopeId));
            0 <= h <= count && (h == count <==> TopCovered(st, kept, domain, scopeId))
  {
    var held := Envelopes(Project(st.journal).value);
    var known, floor, n :=
        held + kept, Floor(st.checkpoint, domain + NUL + scopeId), CountInScope(st.issued, domain, scopeId);
    FloorAtMostCount(st.issued, held, st.checkpoint, domain, scopeId);
    CountBounds(st.issued, domain, scopeId);
    HighestIs(known, domain, scopeId, floor);
    var h := Highest(known, domain, scopeId, floor);
    if h != floor {
      var i :| 0 <= i < |known| && InScope(known[i], domain, scopeId) && known[i].sequence == h;
      assert known[i] in known && known[i] in st.issued;
    }
  }

  /** The sequence a commit is given is the number of its scope's commits so far, plus one, exactly
      if the last of them is held, kept or at its floor; otherwise it repeats one. */
  lemma AllocationIsFreshIff(st: Store, kept: seq<Envelope>, domain: string, scopeId: string)
    requires Accounted(st) && Dense(st.issued)
    requires Canonical(domain) && Canonical(scopeId)
    requires OwnsKey(st.issued, domain, scopeId) && forall e :: e in kept ==> e in st.issued
    ensures var allocation := Allocation(st.checkpoint, Envelopes(Project(st.journal).value) + kept, domain, scopeId);
            && allocation.Ok?
            && (allocation.value == CountInScope(st.issued, domain, scopeId) + 1 <==>
                 TopCovered(st, kept, domain, scopeId))
            && (!TopCovered(st, kept, domain, scopeId) ==>
                  exists e :: e in st.issued && InScope(e, domain, scopeId) && e.sequence == allocation.value)
  {
    ScopeKey(domain, scopeId);
    HighestCounts(st, kept, domain, scopeId);
    if !TopCovered(st, kept, domain, scopeId) {
      var next := Allocation(st.checkpoint, Envelopes(Project(st.journal).value) + kept, domain, scopeId).value;
      var e := EveryNumberGiven(st.issued, domain, scopeId, next);
    }
  }

  /** Domains without a NUL keep all keys apart. */
  lemma PlainDomainsDoNotCollide(issued: seq<Envelope>)
    requires forall e :: e in issued ==> Canonical(e.domain) && Canonical(e.scopeId) && '\0' !in e.domain
    ensures NoCollision(issued)
  {
    forall e, f | e in issued && f in issued && KeyOf(e) == KeyOf(f)
      ensures e.domain == f.domain && e.scopeId == f.scopeId
    {
      ScopeKey(e.domain, e.scopeId);
      ScopeKey(f.domain, f.scopeId);
      KeysCollideIff(e.domain, e.scopeId, f.domain, f.scopeId);
      forall w ensures f.domain != e.domain + NUL + w && e.domain != f.domain + NUL + w {
        assert (e.domain + NUL + w)[|e.domain|] == '\0' && (f.domain + NUL + w)[|f.domain|] == '\0';
      }
    }
  }

  /** Each commit of the run finds the last envelope of its scope covered. */
  ghost predicate CommitsCovered(states: seq<Store>, actions: seq<Action>)
    requires |states| == |actions| + 1 && forall i :: 0 <= i < |actions| ==> Project(states[i].journal).Ok?
  {
    forall i :: 0 <= i < |actions| && actions[i].CommitEvent? ==>
      TopCovered(states[i], actions[i].kept, actions[i].domain, actions[i].scopeId)
  }

  lemma {:induction false} IssuedGrows(states: seq<Store>, actions: seq<Action>, k: nat)
    requires Run(states, actions) && k <= |actions|
    ensures Project(states[k].journal).Ok? && states[k].issued <= states[|actions|].issued
    decreases |actions| - k
  {
    RunAccounted(states[..k + 1], actions[..k]);
    if k < |actions| {
      assert Step(states[k], actions[k], states[k + 1]);
      StepAccounted(states[k], actions[k], states[k + 1]);
      IssuedGrows(states, actions, k + 1);
    }
  }

  lemma AllProject(states: seq<Store>, actions: seq<Action>)
    requires Run(states, actions)
    ensures forall i :: 0 <= i < |actions| ==> Project(states[i].journal).Ok?
  {
    forall i | 0 <= i < |actions| ensures Project(states[i].journal).Ok? {
      IssuedGrows(states, actions, i);
    }
  }

  /** One step keeps the sequences dense exactly if a commit finds its scope covered. */
  lemma StepDenseIff(st: Store, action: Action, st': Store)
    requires Accounted(st) && Accounted(st') && NoCollision(st'.issued) && Step(st, action, st')
    ensures Dense(st'.issued) <==>
              Dense(st.issued)
              && (action.CommitEvent? ==> TopCovered(st, action.kept, action.domain, action.scopeId))
  {
    if action.CommitEvent? {
      CommitDenseIff(st, action, st');
    }
  }

  lemma CommitsCoveredSnoc(states: seq<Store>, actions: seq<Action>)
    requires |states| == |actions| + 1 && forall i :: 0 <= i < |actions| ==> Project(states[i].journal).Ok?
    requires actions != []
    ensures var n := |actions| - 1;
            CommitsCovered(states, actions) <==>
              (CommitsCovered(states[..n + 1], actions[..n])
               && (actions[n].CommitEvent? ==>
                     TopCovered(states[n], actions[n].kept, actions[n].domain, actions[n].scopeId)))
  {
    var n := |actions| - 1;
    assert forall i :: 0 <= i < n ==> states[..n + 1][i] == states[i] && actions[..n][i] == actions[i];
  }

  /** Along a run whose scopes have distinct keys, the n-th sequence of every scope is n exactly if
      every commit found the last envelope of its scope held, kept or at its floor. */
  lemma {:induction false} RunsAreDenseIff(states: seq<Store>, actions: seq<Action>)
    requires Run(states, actions) && NoCollision(states[|actions|].issued)
    ensures forall i :: 0 <= i < |actions| ==> Project(states[i].journal).Ok?
    ensures Dense(states[|actions|].issued) <==> CommitsCovered(states, actions)
  {
    AllProject(states, actions);
    if actions != [] {
      var n := |actions| - 1;
      var st, action, st' := states[n], actions[n], states[n + 1];
      assert Step(st, action, st');
      RunAccounted(states[..n + 1], actions[..n]);
      StepAccounted(st, action, st');
      RunsAreDenseIff(states[..n + 1], actions[..n]);
      CommitsCoveredSnoc(states, actions);
      StepDenseIff(st, action, st');
    }
  }

  // --- removals ---

  /** Everything ever committed lies at or below its floor or below something held of its scope. */
  ghost predicate Covered(issued: seq<Envelope>, held: seq<Envelope>, checkpoint: Checkpoint) {
    forall e :: e in issued ==> CoveredOne(held, checkpoint, e)
  }

  ghost predicate CoveredOne(held: seq<Envelope>, checkpoint: Checkpoint, e: Envelope) {
    || Floor(checkpoint, KeyOf(e)) >= e.sequence
    || exists f :: f in held && InScope(f, e.domain, e.scopeId) && f.sequence >= e.sequence
  }

  /** A removed envelope at or below its floor, or below something of its scope that stays. */
  ghost predicate Spared(held: seq<Envelope>, checkpoint: Checkpoint, ids: set<string>, e: Envelope) {
    || Floor(checkpoint, KeyOf(e)) >= e.sequence
    || exists f :: f in held && f.eventId !in ids && InScope(f, e.domain, e.scopeId) && f.sequence >= e.sequence
  }

  /** A removal that takes no scope's last held event above its floor. */
  ghost predicate SafeRemoval(st: Store, ids: set<string>)
    requires Project(st.journal).Ok?
  {
    var held := Envelopes(Project(st.journal).value);
    forall e :: e in held && e.eventId in ids ==> Spared(held, st.checkpoint, ids, e)
  }

  ghost predicate Left(held: seq<Envelope>, ids: set<string>, held': seq<Envelope>) {
    forall e :: e in held' <==> e in held && e.eventId !in ids
  }

  lemma SparedIsCovered(held: seq<Envelope>, held': seq<Envelope>, checkpoint: Checkpoint, ids: set<string>,
                        e: Envelope)
    requires Left(held, ids, held')
    ensures Spared(held, checkpoint, ids, e) <==> CoveredOne(held', checkpoint, e)
  {
  }

  lemma CoveredStays(held: seq<Envelope>, held': seq<Envelope>, checkpoint: Checkpoint, ids: set<string>, e: Envelope)
    requires Left(held, ids, held') && CoveredOne(held, checkpoint, e)
    requires forall x :: x in held && x.eventId in ids ==> CoveredOne(held', checkpoint, x)
    ensures CoveredOne(held', checkpoint, e)
  {
    if Floor(checkpoint, KeyOf(e)) < e.sequence {
      var f :| f in held && InScope(f, e.domain, e.scopeId) && f.sequence >= e.sequence;
      if f.eventId in ids {
        assert CoveredOne(held', checkpoint, f) && KeyOf(f) == KeyOf(e);
      } else {
        assert f in held';
      }
    }
  }

  /** A deletion of turns keeps everything covered exactly if it is safe in this sense. */
  lemma RemovalKeepsCoveredIff(st: Store, action: Action, st': Store)
    requires Accounted(st) && Step(st, action, st') && action.RemoveEvents?
    requires Covered(st.issued, Envelopes(Project(st.journal).value), st.checkpoint)
    ensures Project(st'.journal).Ok?
    ensures Covered(st'.issued, Envelopes(Project(st'.journal).value), st'.checkpoint) <==>
              SafeRemoval(st, IdsOf(action.removals))
  {
    var held, held' := Envelopes(Project(st.journal).value), Envelopes(Project(st'.journal).value);
    var ids := IdsOf(action.removals);
    forall e ensures e in held' <==> e in held && e.eventId !in ids {
      RemovedEnvelopes(st.journal, action.removals, e);
    }
    forall e ensures Spared(held, st.checkpoint, ids, e) <==> CoveredOne(held', st.checkpoint, e) {
      SparedIsCovered(held, held', st.checkpoint, ids, e);
    }
    if SafeRemoval(st, ids) {
      forall e | e in st.issued ensures CoveredOne(held', st.checkpoint, e) {
        CoveredStays(held, held', st.checkpoint, ids, e);
      }
    }
  }

  /** Deliveries and compactions keep everything covered, and so do commits. */
  lemma OthersKeepCovered(st: Store, action: Action, st': Store)
    requires Accounted(st) && Step(st, action, st') && !action.RemoveEvents?
    requires Covered(st.issued, Envelopes(Project(st.journal).value), st.checkpoint)
    ensures Project(st'.journal).Ok? && Covered(st'.issued, Envelopes(Project(st'.journal).value), st'.checkpoint)
  {
    StepAccounted(st, action, st');
    var s, s' := Project(st.journal).value, Project(st'.journal).value;
    match action {
      case CommitEvent(_, _, _, _, _, _) =>
        CommitKeepsCovered(st, action, st');
      case Deliver(record) =>
        ProjectSnoc(st.journal, record);
        ProjectIsNormal(st.journal);
        DeliverKeepsEnvelopes(s, record);
      case CompactStore(cutoff, covered, _) =>
        forall e | e in st'.issued ensures CoveredOne(Envelopes(s'), st'.checkpoint, e) {
          assert CoveredOne(Envelopes(s), st.checkpoint, e);
          CompactCovers(st, action, st', e);
        }
    }
  }

  lemma CommitKeepsCovered(st: Store, action: Action, st': Store)
    requires Accounted(st) && Step(st, action, st') && action.CommitEvent?
    requires Covered(st.issued, Envelopes(Project(st.journal).value), st.checkpoint)
    ensures Project(st'.journal).Ok? && Covered(st'.issued, Envelopes(Project(st'.journal).value), st'.checkpoint)
  {
    var s, envelope := Project(st.journal).value, st'.issued[|st.issued|];
    var held, held' := Envelopes(s), Envelopes(Project(st'.journal).value);
    HeldAreValid(st.journal);
    forall i | 0 <= i < |s| ensures s[i].eventId != action.eventId {
      assert held[i] in st.issued;
    }
    CommitHolds(st.journal, action.eventId, envelope, action.at);
    assert held' == held + [envelope] && envelope in held';
    forall e | e in st'.issued ensures CoveredOne(held', st'.checkpoint, e) {
      assert e in st.issued ==> CoveredOne(held, st.checkpoint, e);
      assert e !in st.issued ==> e == envelope;
    }
  }

  /** What a compaction drops, its advanced checkpoint covers. */
  lemma CompactCovers(st: Store, action: Action, st': Store, e: Envelope)
    requires Accounted(st) && Step(st, action, st') && action.CompactStore? && Project(st'.journal).Ok?
    requires CoveredOne(Envelopes(Project(st.journal).value), st.checkpoint, e)
    ensures CoveredOne(Envelopes(Project(st'.journal).value), st'.checkpoint, e)
  {
    var s := Project(st.journal).value;
    CoveredAreIssued(st, action, st');
    RaisedCovers(st.checkpoint, action.covered);
    assert RaisedTo(st.checkpoint, action.covered, st'.checkpoint, KeyOf(e));
    if Floor(st.checkpoint, KeyOf(e)) < e.sequence {
      var f :| f in Envelopes(s) && InScope(f, e.domain, e.scopeId) && f.sequence >= e.sequence;
      KeptEnvelopes(s, action.cutoff, f);
    }
  }

  lemma CoveredAreIssued(st: Store, action: Action, st': Store)
    requires Accounted(st) && Step(st, action, st') && action.CompactStore?
    ensures forall x :: x in action.covered ==> ValidEnvelope(x) && x.sequence >= 1
  {
  }

  /** A covered scope's last envelope is covered. */
  lemma CoveredTops(st: Store, kept: seq<Envelope>, domain: string, scopeId: string)
    requires Accounted(st) && Dense(st.issued)
    requires Covered(st.issued, Envelopes(Project(st.journal).value), st.checkpoint)
    requires OwnsKey(st.issued, domain, scopeId)
    ensures TopCovered(st, kept, domain, scopeId)
  {
    CountBounds(st.issued, domain, scopeId);
    FloorAtMostCount(st.issued, Envelopes(Project(st.journal).value), st.checkpoint, domain, scopeId);
    var held, count := Envelopes(Project(st.journal).value), CountInScope(st.issued, domain, scopeId);
    if count > 0 {
      var e :| e in st.issued && InScope(e, domain, scopeId) && e.sequence == count;
      assert CoveredOne(held, st.checkpoint, e);
      if Floor(st.checkpoint, KeyOf(e)) < e.sequence {
        var f :| f in held && InScope(f, domain, scopeId) && f.sequence >= count;
        assert f in st.issued && f in held + kept;
      }
    }
  }

  /** In particular, along a run with distinct keys whose removals are all safe. */
  lemma {:induction false} SafeRunsAreDense(states: seq<Store>, actions: seq<Action>)
    requires Run(states, actions) && NoCollision(states[|actions|].issued)
    requires forall i :: 0 <= i < |actions| && actions[i].RemoveEvents? ==>
      Project(states[i].journal).Ok? && SafeRemoval(states[i], IdsOf(actions[i].removals))
    ensures var st := states[|actions|];
            Accounted(st) && Dense(st.issued) && Covered(st.issued, Envelopes(Project(st.journal).value), st.checkpoint)
  {
    if actions != [] {
      var n := |actions| - 1;
      var st, action, st' := states[n], actions[n], states[n + 1];
      assert Step(st, action, st');
      RunAccounted(states[..n + 1], actions[..n]);
      StepAccounted(st, action, st');
      SafeRunsAreDense(states[..n + 1], actions[..n]);
      if action.RemoveEvents? {
        RemovalKeepsCoveredIff(st, action, st');
      } else {
        OthersKeepCovered(st, action, st');
        if action.CommitEvent? {
          CommitOwnsKey(st, action, st');
          CoveredTops(st, action.kept, action.domain, action.scopeId);
          CommitDenseIff(st, action, st');
        }
      }
    }
  }

  lemma {:induction false} RunAccounted(states: seq<Store>, actions: seq<Action>)
    requires Run(states, actions)
    ensures Accounted(states[|actions|])
  {
    if actions != [] {
      var n := |actions| - 1;
      assert Step(states[n], actions[n], states[n + 1]);
      RunAccounted(states[..n + 1], actions[..n]);
      StepAccounted(states[n], actions[n], states[n + 1]);
    }
  }

  /** A committed scope is canonical and owns its key. */
  lemma CommitOwnsKey(st: Store, action: Action, st': Store)
    requires Accounted(st) && Accounted(st') && NoCollision(st'.issued)
    requires Step(st, action, st') && action.CommitEvent?
    ensures Canonical(action.domain) && Canonical(action.scopeId) && OwnsKey(st.issued, action.domain, action.scopeId)
  {
    var envelope := st'.issued[|st.issued|];
    assert st'.issued == st.issued + [envelope];
    assert envelope in st'.issued && forall e :: e in st.issued ==> e in st'.issued;
  }

  lemma CommitDenseIff(st: Store, action: Action, st': Store)
    requires Accounted(st) && Accounted(st') && NoCollision(st'.issued)
    requires Step(st, action, st') && action.CommitEvent?
    ensures Dense(st'.issued) <==>
      Dense(st.issued) && TopCovered(st, action.kept, action.domain, action.scopeId)
  {
    var envelope := st'.issued[|st.issued|];
    assert st'.issued == st.issued + [envelope];
    CommitOwnsKey(st, action, st');
    if Dense(st'.issued) {
      DenseInit(st.issued, envelope);
    }
    if Dense(st.issued) {
      AllocationIsFreshIff(st, action.kept, action.domain, action.scopeId);
      if TopCovered(st, action.kept, action.domain, action.scopeId) {
        DenseSnoc(st.issued, envelope);
      }
    }
  }

  lemma DenseSnoc(issued: seq<Envelope>, e: Envelope)
    requires Dense(issued) && e.sequence == CountInScope(issued, e.domain, e.scopeId) + 1
    ensures Dense(issued + [e])
  {
    var longer := issued + [e];
    forall i | 0 <= i < |longer|
      ensures longer[i].sequence == CountInScope(longer[..i], longer[i].domain, longer[i].scopeId) + 1
    {
      assert longer[..i] == issued[..i];
    }
  }

  /** No sequence of a scope is ever given twice. */
  lemma {:induction false} NeverReused(issued: seq<Envelope>, i: nat, j: nat)
    requires Dense(issued) && i < j < |issued|
    requires issued[i].domain == issued[j].domain && issued[i].scopeId == issued[j].scopeId
    ensures issued[i].sequence < issued[j].sequence
  {
    CountGrows(issued, i, j, issued[i].domain, issued[i].scopeId);
  }

  lemma {:induction false} CountGrows(envelopes: seq<Envelope>, i: nat, j: nat, domain: string, scopeId: string)
    requires i < j <= |envelopes| && InScope(envelopes[i], domain, scopeId)
    ensures CountInScope(envelopes[..i], domain, scopeId) < CountInScope(envelopes[..j], domain, scopeId)
  {
    assert envelopes[..j][..j - 1] == envelopes[..j - 1];
    if i < j - 1 {
      CountGrows(envelopes, i, j - 1, domain, scopeId);
    }
  }

  // --- what a collision does ---

  /** The run of `CollidingScopesSkip`: commit in the first scope, deliver, compact it away, and
      commit in the second scope. */
  datatype Clash = Clash(d1: string, s1: string, d2: string, s2: string) {
    ghost predicate Valid() {
      && Canonical(d1) && Canonical(s1) && Canonical(d2) && Canonical(s2)
      && (d1, s1) != (d2, s2) && d1 + NUL + s1 == d2 + NUL + s2
    }

    function First(): Envelope { Envelope("e", d1, s1, 1, true, "") }
    function Second(): Envelope { Envelope("f", d2, s2, 2, true, "") }
    function FirstRecord(): Record { Commit("e", First(), At(0)) }
    function SecondRecord(): Record { Commit("f", Second(), At(9)) }
    function Receipt(): Record { Ack("e", "k", At(1), d1, s1, 1) }
    function Fresh(): Entry { Entry("e", First(), At(0), map[]) }
    function Done(): Entry { Fresh().(deliveries := map["k" := Delivery(Delivered, 0, Blank, At(1), d1, s1, 1)]) }
    function Committed(): Store { Store([FirstRecord()], map[], [First()]) }
    function Delivered_(): Store { Store([FirstRecord(), Receipt()], map[], [First()]) }
    function Compacted(): Store { Store([], map[d1 + NUL + s1 := 1], [First()]) }
    function Skipped(): Store { Store([SecondRecord()], map[d1 + NUL + s1 := 1], [First(), Second()]) }
  }

  lemma ProjectOne(record: Record)
    ensures Project([record]) == Apply([], record)
  {
    assert [record][..0] == [];
  }

  /** The first event of a run. */
  lemma FirstCommits(domain: string, scopeId: string)
    requires Canonical(domain) && Canonical(scopeId)
    ensures var envelope := Envelope("e", domain, scopeId, 1, true, "");
            && Project([Commit("e", envelope, At(0))]) == Ok([Entry("e", envelope, At(0), map[])])
            && Step(EMPTY, CommitEvent("e", domain, scopeId, "", At(0), []),
                    Store([Commit("e", envelope, At(0))], map[], [envelope]))
  {
    var envelope := Envelope("e", domain, scopeId, 1, true, "");
    KeyIsKeyOf(envelope);
    ProjectOne(Commit("e", envelope, At(0)));
    assert [] + [Commit("e", envelope, At(0))] == [Commit("e", envelope, At(0))];
    assert [] + [envelope] == [envelope];
    var none: seq<Entry> := [];
    assert Envelopes(none) == [] && Envelopes(none) + [] == [];
    assert none + [Entry("e", envelope, At(0), map[])] == [Entry("e", envelope, At(0), map[])];
  }

  lemma ClashCommits(c: Clash)
    requires c.Valid()
    ensures Project(c.Committed().journal) == Ok([c.Fresh()])
    ensures Step(EMPTY, CommitEvent("e", c.d1, c.s1, "", At(0), []), c.Committed())
  {
    FirstCommits(c.d1, c.s1);
  }

  lemma ClashDelivers(c: Clash)
    requires c.Valid()
    ensures Project(c.Delivered_().journal) == Ok([c.Done()])
    ensures Step(c.Committed(), Deliver(c.Receipt()), c.Delivered_())
  {
    ClashCommits(c);
    var journal := c.Committed().journal;
    assert journal + [c.Receipt()] == c.Delivered_().journal;
    ProjectSnoc(journal, c.Receipt());
    var s := [c.Fresh()];
    assert s[0].eventId == "e" && IndexOf(s, "e") == 0;
    assert AckEntry(c.Fresh(), "k", At(1), c.d1, c.s1, 1) == Ok(c.Done());
    assert s[0 := c.Done()] == [c.Done()];
  }

  lemma KeptOne(e: Entry, cutoff: int)
    requires !Retained(e, cutoff)
    ensures Kept([e], cutoff) == [] && Dropped([e], cutoff) == [e] && Envelopes([e]) == [e.envelope]
  {
    assert [e][..0] == [];
    assert Dropped([], cutoff) == [];
  }

  lemma RaisedOne(checkpoint: Checkpoint, e: Envelope)
    requires ValidEnvelope(e)
    ensures Raised(checkpoint, [e]) == Ok(checkpoint[KeyOf(e) := Greater(Floor(checkpoint, KeyOf(e)), e.sequence)])
  {
    KeyIsKeyOf(e);
    assert [e][..0] == [];
  }

  lemma AdvancedOne(checkpoint: Checkpoint, e: Envelope)
    requires checkpoint == map[] && ValidEnvelope(e) && e.sequence >= 1
    ensures Advanced(checkpoint, [e]) == Ok(checkpoint[KeyOf(e) := e.sequence])
  {
    RaisedOne(checkpoint, e);
    KeyIsText(e.domain, e.scopeId);
  }

  lemma ClashCompacts(c: Clash)
    requires c.Valid()
    ensures Step(c.Delivered_(), CompactStore(5, [c.First()], []), c.Compacted())
  {
    ClashDelivers(c);
    assert "k" in c.Done().deliveries && Reclaimable(c.Done().deliveries["k"], 5);
    assert !Retained(c.Done(), 5);
    KeptOne(c.Done(), 5);
    AdvancedOne(map[], c.First());
  }

  lemma KeyIsText(domain: string, scopeId: string)
    requires Canonical(domain) && Canonical(scopeId)
    ensures Trim(domain + NUL + scopeId) == domain + NUL + scopeId != ""
  {
    var key := domain + NUL + scopeId;
    assert key[0] == domain[0] && key[|key| - 1] == scopeId[|scopeId| - 1];
    TrimFixesTrimmed(key);
  }

  lemma ClashSkips(c: Clash)
    requires c.Valid()
    ensures Step(c.Compacted(), CommitEvent("f", c.d2, c.s2, "", At(9), []), c.Skipped())
  {
    KeyIsKeyOf(c.Second());
    ProjectOne(c.SecondRecord());
    var none: seq<Entry> := [];
    assert Envelopes(none) == [];
    assert [] + [c.SecondRecord()] == [c.SecondRecord()];
    assert [c.First()] + [c.Second()] == c.Skipped().issued;
  }

  lemma RunSnoc(states: seq<Store>, actions: seq<Action>, action: Action, st: Store)
    returns (states': seq<Store>, actions': seq<Action>)
    requires Run(states, actions) && Step(states[|actions|], action, st)
    ensures Run(states', actions') && states'[|actions'|] == st
  {
    states', actions' := states + [st], actions + [action];
    assert states'[..|states|] == states && actions'[..|actions|] == actions;
    assert forall i :: 0 <= i < |states| ==> states'[i] == states[i];
    assert forall i :: 0 <= i < |actions| ==> actions'[i] == actions[i];
    assert states'[|states|] == st && actions'[|actions|] == action;
  }

  /** Whenever two scopes share a key, some run skips a sequence: compacting the one makes the
      other begin at 2.  So runs are dense for all scopes in use exactly when their keys differ. */
  lemma CollidingScopesSkip(d1: string, s1: string, d2: string, s2: string)
    returns (states: seq<Store>, actions: seq<Action>)
    requires Canonical(d1) && Canonical(s1) && Canonical(d2) && Canonical(s2)
    requires (d1, s1) != (d2, s2) && SequenceKey(d1, s1) == SequenceKey(d2, s2)
    ensures Run(states, actions) && !Dense(states[|actions|].issued)
    ensures forall e :: e in states[|actions|].issued ==> InScope(e, d1, s1) || InScope(e, d2, s2)
  {
    var c := Clash(d1, s1, d2, s2);
    ScopeKey(d1, s1);
    ScopeKey(d2, s2);
    states, actions := ClashRun(c);
    ClashIsNotDense(c);
  }

  lemma ClashRun(c: Clash) returns (states: seq<Store>, actions: seq<Action>)
    requires c.Valid()
    ensures Run(states, actions) && states[|actions|] == c.Skipped()
  {
    states, actions := [EMPTY], [];
    assert Run(states, actions);
    ClashCommits(c);
    states, actions := RunSnoc(states, actions, CommitEvent("e", c.d1, c.s1, "", At(0), []), c.Committed());
    ClashDelivers(c);
    states, actions := RunSnoc(states, actions, Deliver(c.Receipt()), c.Delivered_());
    ClashCompacts(c);
    states, actions := RunSnoc(states, actions, CompactStore(5, [c.First()], []), c.Compacted());
    ClashSkips(c);
    states, actions := RunSnoc(states, actions, CommitEvent("f", c.d2, c.s2, "", At(9), []), c.Skipped());
  }

  lemma ClashIsNotDense(c: Clash)
    requires c.Valid()
    ensures !Dense(c.Skipped().issued)
  {
    var issued := c.Skipped().issued;
    assert issued[..1] == [c.First()] && [c.First()][..0] == [];
    assert CountInScope([c.First()], c.d2, c.s2) == 0;
    assert issued[1].sequence != CountInScope(issued[..1], issued[1].domain, issued[1].scopeId) + 1;
  }

  // --- what an unsafe removal does ---

  /** Whatever the scope, some run gives a number of it twice: its only event is committed, removed
      with its turn, and the next one is numbered 1 again. */
  lemma RemovalCanReuse(domain: string, scopeId: string) returns (states: seq<Store>, actions: seq<Action>)
    requires Canonical(domain) && Canonical(scopeId)
    ensures Run(states, actions)
    ensures var issued := states[|actions|].issued;
            && |issued| == 2 && InScope(issued[0], domain, scopeId) && InScope(issued[1], domain, scopeId)
            && issued[0].sequence == issued[1].sequence
  {
    var e, f := Envelope("e", domain, scopeId, 1, true, ""), Envelope("f", domain, scopeId, 1, true, "");
    var c, d := Commit("e", e, At(0)), Commit("f", f, At(0));
    states, actions := [EMPTY], [];
    assert Run(states, actions);
    FirstCommits(domain, scopeId);
    states, actions :=
        RunSnoc(states, actions, CommitEvent("e", domain, scopeId, "", At(0), []), Store([c], map[], [e]));
    RemovesOnly(c);
    states, actions := RunSnoc(states, actions, RemoveEvents([Remove("e")]), Store([c, Remove("e")], map[], [e]));
    CommitsAgain(c, e, d, f);
    states, actions := RunSnoc(states, actions, CommitEvent("f", domain, scopeId, "", At(0), []),
                               Store([c, Remove("e"), d], map[], [e, f]));
  }

  /** The only event of the outbox is removed. */
  lemma RemovesOnly(c: Record)
    requires c.Commit? && c.eventId == "e" && Project([c]) == Ok([Entry("e", c.envelope, c.committedAt, map[])])
    ensures Project([c, Remove("e")]) == Ok([])
    ensures Step(Store([c], map[], [c.envelope]), RemoveEvents([Remove("e")]),
                 Store([c, Remove("e")], map[], [c.envelope]))
  {
    assert [c] + [Remove("e")] == [c, Remove("e")];
    ProjectSnoc([c], Remove("e"));
    var s := [Entry("e", c.envelope, c.committedAt, map[])];
    assert s[0].eventId == "e" && IndexOf(s, "e") == 0 && Deleted(s, "e") == [];
  }

  /** Then the next one is given its number. */
  lemma CommitsAgain(c: Record, e: Envelope, d: Record, f: Envelope)
    requires Project([c, Remove("e")]) == Ok([]) && e.eventId == "e"
    requires f == Envelope("f", e.domain, e.scopeId, 1, true, "") && d == Commit("f", f, At(0)) && ValidEnvelope(f)
    ensures Step(Store([c, Remove("e")], map[], [e]), CommitEvent("f", e.domain, e.scopeId, "", At(0), []),
                 Store([c, Remove("e"), d], map[], [e, f]))
  {
    KeyIsKeyOf(f);
    assert [c, Remove("e")] + [d] == [c, Remove("e"), d] && [e] + [f] == [e, f];
    ProjectSnoc([c, Remove("e")], d);
    var none: seq<Entry> := [];
    assert Envelopes(none) == [] && Envelopes(none) + [] == [];
  }
}
