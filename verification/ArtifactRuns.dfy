/** Runs of artifact commits: each base revision is taken once, and the log in any order rebuilds
    every artifact. */
module ArtifactRuns {
  import opened Outcome
  import opened PluginArtifact
  import opened Sorting

  /** A commit request; the revision in its payload is not looked at. */
  datatype Request = Request(eventId: string, payload: Payload, sound: bool)

  datatype Verdict = Committed(event: Event) | Declined(code: Code, currentRevision: int) | Failed

  /** What the log makes of an artifact. */
  function Live(log: seq<Event>, key: string): Current {
    Fold(OfKey(Sort(log), key))
  }

  function EventOf(request: Request, sequence: int, revision: int): Event {
    Event(request.eventId, sequence, revision, request.payload.(revision := revision), request.sound)
  }

  /** The commit of an artifact, under the session's lock: decided against the projection of the
      log, given the next sequence, and validated before it is appended. */
  function Commit(log: seq<Event>, request: Request, sequence: int): Verdict {
    var key := KeyOf(request.payload);
    if key.Rejected? || !AllReadable(log) then Failed
    else
      match Decide(Live(log, key.value), request.payload.operation, request.payload.base)
      case Refused(code, currentRevision) => Declined(code, currentRevision)
      case Thrown => Failed
      case Allowed(revision) =>
        var event := EventOf(request, sequence, revision);
        if ValidEvent(event) then Committed(event) else Failed
  }

  method CommitArtifact(log: seq<Event>, request: Request, sequence: int) returns (verdict: Verdict)
    ensures verdict == Commit(log, request, sequence)
  {
    var artifacts := ProjectPluginArtifacts(log);
    var key := KeyOf(request.payload);
    if artifacts.Rejected? || key.Rejected? {
      return Failed;
    }
    var current := At(artifacts.value, key.value);
    match Decide(current, request.payload.operation, request.payload.base) {
      case Refused(code, currentRevision) => verdict := Declined(code, currentRevision);
      case Thrown => verdict := Failed;
      case Allowed(revision) =>
        var event := EventOf(request, sequence, revision);
        verdict := if ValidEvent(event) then Committed(event) else Failed;
    }
  }

  function After(log: seq<Event>, verdict: Verdict): seq<Event> {
    if verdict.Committed? then log + [verdict.event] else log
  }

  // --- what every log of a run looks like ---

  /** The events of one artifact: in sequence, and each one based on the one before it. */
  ghost predicate OneByOne(events: seq<Event>) {
    && Strict(events, SequenceOf())
    && forall k {:trigger FollowsOn(events[k], k)} :: 0 <= k < |events| ==> FollowsOn(events[k], k)
  }

  ghost predicate FollowsOn(e: Event, k: nat) {
    ValidEvent(e) && IsOperation(e.payload.operation) && e.payload.revision == k + 1
    && e.payload.base == if k == 0 then NoBase else Base(k)
  }

  ghost predicate Orderly(log: seq<Event>) {
    AllReadable(log) && forall key :: OneByOne(OfKey(log, key))
  }

  /** An event that follows on is applied. */
  lemma Applies(current: Current, e: Event, k: nat)
    requires FollowsOn(e, k) && RevisionOf(current) == k && (k == 0 <==> current.Absent?)
    ensures Reduce(current, e) == Present(ArtifactOf(e)) && RevisionOf(Reduce(current, e)) == k + 1
  {
    OperationsAreTrimmed(e.payload.operation);
  }

  /** Such events fold to the last of them. */
  lemma {:induction false} FoldOneByOne(events: seq<Event>)
    requires OneByOne(events)
    ensures Fold(events) == if events == [] then Absent else Present(ArtifactOf(events[|events| - 1]))
    ensures RevisionOf(Fold(events)) == |events|
  {
    if events != [] {
      var n := |events| - 1;
      assert FollowsOn(events[n], n);
      InitOneByOne(events);
      FoldOneByOne(events[..n]);
      Applies(Fold(events[..n]), events[n], n);
    }
  }

  lemma InitOneByOne(events: seq<Event>)
    requires OneByOne(events) && events != []
    ensures OneByOne(events[..|events| - 1])
  {
    var init := events[..|events| - 1];
    forall k | 0 <= k < |init| ensures FollowsOn(init[k], k) {
      assert FollowsOn(events[k], k);
    }
  }

  /** Sequences are distinct within each artifact. */
  ghost predicate DistinctWithin(log: seq<Event>) {
    forall key :: PairwiseDistinct(OfKey(log, key), SequenceOf())
  }

  /** The order of the log does not matter to the projection. */
  lemma OrderDoesNotMatter(log: seq<Event>, shuffled: seq<Event>, key: string)
    requires DistinctWithin(log) && multiset(shuffled) == multiset(log)
    ensures Live(shuffled, key) == Live(log, key)
  {
    SortSorts(log, SequenceOf());
    SortSorts(shuffled, SequenceOf());
    assert PairwiseDistinct(OfKey(log, key), SequenceOf());
    SortedFilterIsUnique(log, Sort(log), shuffled, Sort(shuffled), ForKey(key), SequenceOf());
  }

  /** In an orderly log the projection is the last event of the artifact, and its revision counts
      the events accepted for it. */
  lemma LiveIsLast(log: seq<Event>, key: string)
    requires Orderly(log)
    ensures var mine := OfKey(log, key);
            && Live(log, key) == (if mine == [] then Absent else Present(ArtifactOf(mine[|mine| - 1])))
            && RevisionOf(Live(log, key)) == |mine|
  {
    assert OneByOne(OfKey(log, key));
    SortSorts(log, SequenceOf());
    SortedFilterStays(log, Sort(log), ForKey(key), SequenceOf());
    FoldOneByOne(OfKey(log, key));
  }

  /** The i-th event of the log is the last of its artifact. */
  ghost predicate LastOfKey(log: seq<Event>, key: string, i: nat) {
    i < |log| && HasKey(log[i], key) && forall j :: i < j < |log| ==> !HasKey(log[j], key)
  }

  /** The artifact shows the event, field by field. */
  predicate Shows(a: Artifact, e: Event) {
    && a.pluginId == e.payload.pluginId && a.artifactType == e.payload.artifactType
    && a.artifactId == e.payload.artifactId && a.operation == e.payload.operation && a.data == e.payload.data
    && a.revision == e.payload.revision == e.revision && a.eventId == e.eventId
  }

  lemma {:induction false} LastInFilter(log: seq<Event>, key: string, i: nat)
    requires LastOfKey(log, key, i)
    ensures OfKey(log, key) != [] && OfKey(log, key)[|OfKey(log, key)| - 1] == log[i]
  {
    var n := |log| - 1;
    if i < n {
      LastInFilter(log[..n], key, i);
      assert !HasKey(log[n], key);
    }
  }

  /** The live artifact is there exactly if the log has an event of it, and then shows the last one. */
  lemma LiveShows(log: seq<Event>, key: string)
    requires Orderly(log)
    ensures Live(log, key).Present? <==> exists i :: 0 <= i < |log| && HasKey(log[i], key)
    ensures forall i: nat :: LastOfKey(log, key, i) ==>
              Live(log, key).Present? && Shows(Live(log, key).artifact, log[i])
  {
    LiveIsLast(log, key);
    if OfKey(log, key) != [] {
      var i := FilterFrom(log, ForKey(key), 0);
    }
    forall i | 0 <= i < |log| && HasKey(log[i], key) ensures OfKey(log, key) != [] {
      PlaceInFilter(log, ForKey(key), i);
    }
    forall i: nat | LastOfKey(log, key, i)
      ensures Live(log, key).Present? && Shows(Live(log, key).artifact, log[i])
    {
      LastInFilter(log, key, i);
      assert OneByOne(OfKey(log, key));
      assert FollowsOn(log[i], |OfKey(log, key)| - 1);
    }
  }

  /** Any order of an orderly log rebuilds the live artifacts. */
  lemma AnyOrderRebuilds(log: seq<Event>, shuffled: seq<Event>, key: string)
    requires Orderly(log) && multiset(shuffled) == multiset(log)
    ensures var mine := OfKey(log, key);
            Live(shuffled, key) == if mine == [] then Absent else Present(ArtifactOf(mine[|mine| - 1]))
  {
    forall k ensures PairwiseDistinct(OfKey(log, k), SequenceOf()) {
      assert OneByOne(OfKey(log, k));
    }
    OrderDoesNotMatter(log, shuffled, key);
    LiveIsLast(log, key);
  }

  // --- runs ---

  /** Sequences are allocated above those of the artifact. */
  ghost predicate Above(log: seq<Event>, request: Request, sequence: int) {
    forall key :: KeyOf(request.payload) == Ok(key) ==> Bounded(OfKey(log, key), SequenceOf(), sequence - 1)
  }

  lemma CommitKeepsOrderly(log: seq<Event>, request: Request, sequence: int)
    requires Orderly(log) && Above(log, request, sequence)
    ensures Orderly(After(log, Commit(log, request, sequence)))
  {
    var verdict := Commit(log, request, sequence);
    if verdict.Committed? {
      var key := CommittedMeans(log, request, sequence);
      LiveIsLast(log, key);
      NextFollowsOn(Live(log, key), verdict.event);
      AppendKeepsOrderly(log, verdict.event, key);
    }
  }

  /** What a commit checked. */
  lemma CommittedMeans(log: seq<Event>, request: Request, sequence: int) returns (key: string)
    requires Commit(log, request, sequence).Committed?
    ensures var e := Commit(log, request, sequence).event;
            && e.sequence == sequence && e.payload.base == request.payload.base
            && KeyOf(request.payload) == Ok(key) && HasKey(e, key) && ValidEvent(e)
            && Decide(Live(log, key), e.payload.operation, e.payload.base) == Allowed(e.payload.revision)
  {
    key := KeyOf(request.payload).value;
  }

  lemma NextFollowsOn(current: Current, e: Event)
    requires ValidEvent(e) && Decide(current, e.payload.operation, e.payload.base) == Allowed(e.payload.revision)
    requires RevisionOf(current) >= 0 && (current.Present? ==> RevisionOf(current) >= 1)
    ensures FollowsOn(e, RevisionOf(current))
  {
    OperationsAreTrimmed(e.payload.operation);
  }

  lemma AppendKeepsOrderly(log: seq<Event>, e: Event, key: string)
    requires Orderly(log) && HasKey(e, key) && FollowsOn(e, |OfKey(log, key)|)
    requires Bounded(OfKey(log, key), SequenceOf(), e.sequence - 1)
    ensures Orderly(log + [e])
  {
    ReadableOneMore(log, e);
    forall other ensures OneByOne(OfKey(log + [e], other)) {
      assert OneByOne(OfKey(log, other));
      FilterAppend(log, e, ForKey(other));
      if HasKey(e, other) {
        OneByOneGrows(OfKey(log, other), e);
      }
    }
  }

  lemma EachGrows<T>(s: seq<T>, e: T, fits: (T, nat) -> bool)
    requires fits(e, |s|) && forall k {:trigger fits(s[k], k)} :: 0 <= k < |s| ==> fits(s[k], k)
    ensures forall k {:trigger fits((s + [e])[k], k)} :: 0 <= k < |s| + 1 ==> fits((s + [e])[k], k)
  {
  }

  lemma OneByOneGrows(events: seq<Event>, e: Event)
    requires OneByOne(events) && FollowsOn(e, |events|) && Bounded(events, SequenceOf(), e.sequence - 1)
    ensures OneByOne(events + [e])
  {
    EachGrows(events, e, (x, k) => FollowsOn(x, k));
    assert Strict(events + [e], SequenceOf());
  }

  ghost predicate Run(logs: seq<seq<Event>>, requests: seq<Request>, sequences: seq<int>) {
    && |logs| == |requests| + 1 && |sequences| == |requests| && logs[0] == []
    && forall i {:trigger Ran(logs, requests, sequences, i)} :: 0 <= i < |requests| ==>
         Ran(logs, requests, sequences, i)
  }

  ghost predicate Ran(logs: seq<seq<Event>>, requests: seq<Request>, sequences: seq<int>, i: nat)
    requires |logs| == |requests| + 1 && |sequences| == |requests| && i < |requests|
  {
    Above(logs[i], requests[i], sequences[i])
        && logs[i + 1] == After(logs[i], Commit(logs[i], requests[i], sequences[i]))
  }

  /** Every log of every run is orderly. */
  lemma {:induction false} RunsAreOrderly(logs: seq<seq<Event>>, requests: seq<Request>, sequences: seq<int>, i: nat)
    requires Run(logs, requests, sequences) && i < |logs|
    ensures Orderly(logs[i])
  {
    if i > 0 {
      RunsAreOrderly(logs, requests, sequences, i - 1);
      assert Ran(logs, requests, sequences, i - 1);
      CommitKeepsOrderly(logs[i - 1], requests[i - 1], sequences[i - 1]);
    }
  }

  lemma {:induction false} LogsGrow(logs: seq<seq<Event>>, requests: seq<Request>, sequences: seq<int>, i: nat, j: nat)
    requires Run(logs, requests, sequences) && i <= j < |logs|
    ensures logs[i] <= logs[j]
  {
    if i < j {
      LogsGrow(logs, requests, sequences, i, j - 1);
      assert Ran(logs, requests, sequences, j - 1);
    }
  }

  /** In an orderly log no two events of an artifact share a base revision. */
  lemma BasesDiffer(log: seq<Event>, key: string, i: nat, j: nat)
    requires Orderly(log) && i < j < |log| && HasKey(log[i], key) && HasKey(log[j], key)
    ensures log[i].payload.base != log[j].payload.base
  {
    PlaceInFilter(log, ForKey(key), i);
    PlaceInFilter(log, ForKey(key), j);
    PlaceInFilter(log[..j], ForKey(key), i);
    assert log[..j][..i] == log[..i];
    assert OneByOne(OfKey(log, key));
    assert FollowsOn(log[i], |OfKey(log[..i], key)|) && FollowsOn(log[j], |OfKey(log[..j], key)|);
  }

  /** A log cannot go on with a second event on the same base. */
  lemma NoSecondWinner(a: seq<Event>, first: Event, b: seq<Event>, second: Event, key: string)
    requires a + [first] <= b && Orderly(b + [second]) && HasKey(first, key) && HasKey(second, key)
    ensures first.payload.base != second.payload.base
  {
    assert (a + [first])[|a|] == first;
    assert (b + [second])[|a|] == first && (b + [second])[|b|] == second;
    BasesDiffer(b + [second], key, |a|, |b|);
  }

  /** An accepted request of a run puts its event at the end of the log. */
  lemma Joined(logs: seq<seq<Event>>, requests: seq<Request>, sequences: seq<int>, i: nat)
    returns (e: Event, key: string)
    requires Run(logs, requests, sequences) && i < |requests|
    requires Commit(logs[i], requests[i], sequences[i]).Committed?
    ensures logs[i + 1] == logs[i] + [e] && KeyOf(requests[i].payload) == Ok(key) && HasKey(e, key)
    ensures e.payload.base == requests[i].payload.base
  {
    assert Ran(logs, requests, sequences, i);
    key := CommittedMeans(logs[i], requests[i], sequences[i]);
    e := Commit(logs[i], requests[i], sequences[i]).event;
  }

  /** Logs of a run, earlier and later. */
  lemma LaterLog(logs: seq<seq<Event>>, requests: seq<Request>, sequences: seq<int>, i: nat, j: nat)
    returns (a: seq<Event>, b: seq<Event>)
    requires Run(logs, requests, sequences) && i < j < |requests|
    ensures a == logs[i + 1] <= logs[j] && b == logs[j + 1] && Orderly(b)
  {
    a, b := logs[i + 1], logs[j + 1];
    LogsGrow(logs, requests, sequences, i + 1, j);
    RunsAreOrderly(logs, requests, sequences, j + 1);
  }

  /** Of all requests of a run on one artifact and base revision, at most one is accepted: any two
      accepted ones are based on different revisions. */
  lemma OneWinnerPerBase(logs: seq<seq<Event>>, requests: seq<Request>, sequences: seq<int>, i: nat, j: nat)
    requires Run(logs, requests, sequences) && i < j < |requests|
    requires KeyOf(requests[i].payload) == KeyOf(requests[j].payload)
    requires Commit(logs[i], requests[i], sequences[i]).Committed?
    requires Commit(logs[j], requests[j], sequences[j]).Committed?
    ensures requests[i].payload.base != requests[j].payload.base
  {
    var a, b := LaterLog(logs, requests, sequences, i, j);
    var first, key := Joined(logs, requests, sequences, i);
    var second, _ := Joined(logs, requests, sequences, j);
    NoSecondWinner(logs[i], first, logs[j], second, key);
  }

  /** Which sound requests on valid names an artifact at this revision accepts. */
  lemma DecidesIff(current: Current, request: Request, sequence: int)
    requires TokensAreValid(request.payload) && request.sound && (current.Present? ==> RevisionOf(current) >= 1)
    ensures var decision := Decide(current, request.payload.operation, request.payload.base);
            (decision.Allowed? && ValidEvent(EventOf(request, sequence, decision.revision))) <==>
              || (request.payload.operation == CREATED && request.payload.base == NoBase && current.Absent?)
              || (request.payload.operation == REPLACED && request.payload.base == Base(RevisionOf(current))
                  && current.Present?)
  {
    if IsOperation(request.payload.operation) {
      OperationsAreTrimmed(request.payload.operation);
    }
  }

  /** Which sound requests on valid names are accepted. */
  lemma AcceptedIff(log: seq<Event>, request: Request, sequence: int)
    requires Orderly(log) && TokensAreValid(request.payload) && request.sound
    ensures KeyOf(request.payload).Ok?
    ensures var taken := |OfKey(log, KeyOf(request.payload).value)|;
            Commit(log, request, sequence).Committed? <==>
              || (request.payload.operation == CREATED && request.payload.base == NoBase && taken == 0)
              || (request.payload.operation == REPLACED && request.payload.base == Base(taken) && taken >= 1)
  {
    LiveIsLast(log, KeyOf(request.payload).value);
    DecidesIff(Live(log, KeyOf(request.payload).value), request, sequence);
  }

  /** What a commit answers, said of the number of events the artifact has in the log. */
  ghost predicate Answers(verdict: Verdict, request: Request, sequence: int, taken: nat) {
    var operation, base := request.payload.operation, request.payload.base;
    if operation == CREATED && taken >= 1 then verdict == Declined(AlreadyExists, taken)
    else if operation == REPLACED && taken == 0 then verdict == Declined(NotFound, 0)
    else if operation == REPLACED && base != Base(taken) then verdict == Declined(RevisionConflict, taken)
    else if IsOperation(operation) && base == (if taken == 0 then NoBase else Base(taken))
        && TokensAreValid(request.payload) && request.sound
    then verdict.Committed? && IsNext(verdict.event, request, sequence, taken)
    else verdict == Failed
  }

  /** The request's event, the artifact's next. */
  ghost predicate IsNext(e: Event, request: Request, sequence: int, taken: nat) {
    var p, q := e.payload, request.payload;
    && e.eventId == request.eventId && e.sequence == sequence && e.revision == p.revision == taken + 1
    && p.pluginId == q.pluginId && p.artifactType == q.artifactType && p.artifactId == q.artifactId
    && p.operation == q.operation && p.base == q.base && p.data == q.data
  }

  /** Every commit on an orderly log, refused and failed ones too. */
  lemma CommitAnswers(log: seq<Event>, request: Request, sequence: int)
    requires Orderly(log)
    ensures var key := KeyOf(request.payload);
            if key.Rejected? then Commit(log, request, sequence) == Failed
            else Answers(Commit(log, request, sequence), request, sequence, |OfKey(log, key.value)|)
  {
    if KeyOf(request.payload).Ok? {
      LiveIsLast(log, KeyOf(request.payload).value);
      if IsOperation(request.payload.operation) {
        OperationsAreTrimmed(request.payload.operation);
      }
    }
  }

  /** An event that goes on from an artifact: it creates the first revision or replaces the current one. */
  predicate Continues(current: Current, e: Event) {
    var p := e.payload;
    && TokensAreValid(p) && e.sound && e.revision == p.revision
    && if current.Absent? then p.operation == CREATED && p.base == NoBase && p.revision == 1
       else p.operation == REPLACED && p.base == Base(current.artifact.revision)
            && p.revision == current.artifact.revision + 1
  }

  /** In a log of any shape, an event is shown if it goes on from what its predecessors made of the
      artifact, and is passed over if it does not. */
  lemma FoldsOn(events: seq<Event>, e: Event)
    ensures var before, after := Fold(events), Fold(events + [e]);
            if Continues(before, e) then after.Present? && Shows(after.artifact, e) else after == before
  {
    FoldIsPositive(events);
    assert (events + [e])[..|events|] == events;
    if IsOperation(e.payload.operation) {
      OperationsAreTrimmed(e.payload.operation);
    }
  }
}
