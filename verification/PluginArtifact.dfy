/** Artifacts of plugins: commits checked against the current revision, and the projection that
    rebuilds every artifact from its events. */
module PluginArtifact {
  import opened Text
  import opened Outcome
  import opened Sorting

  const CREATED := "created"
  const REPLACED := "replaced"

  /** The revision a commit was based on; `created` has none. */
  datatype Base = NoBase | Base(revision: int)

  /** The operation is raw text: validation trims it, the decision does not. */
  datatype Payload = Payload(pluginId: string, artifactType: string, artifactId: string,
                             operation: string, base: Base, revision: int, data: string)

  /** An envelope.  `sound` stands for the checks of header, ownership, turn scope and data. */
  datatype Event = Event(eventId: string, sequence: int, revision: int, payload: Payload, sound: bool)

  datatype Artifact = Artifact(pluginId: string, artifactType: string, artifactId: string,
                               revision: int, operation: string, data: string, eventId: string)

  /** An artifact, or null. */
  datatype Current = Absent | Present(artifact: Artifact)

  // --- keys ---

  predicate IsLetter(c: char) {
    'a' <= c <= 'z' || 'A' <= c <= 'Z'
  }

  predicate IsTokenChar(c: char) {
    IsLetter(c) || '0' <= c <= '9' || c == '_' || c == '.' || c == '-'
  }

  /** `tokenPattern`. */
  predicate IsToken(s: string) {
    1 <= |s| <= 160 && IsLetter(s[0]) && forall i :: 0 <= i < |s| ==> IsTokenChar(s[i])
  }

  /** `pluginArtifactKey`. */
  function KeyOf(p: Payload): Result<string> {
    var plugin, kind, id := Trim(p.pluginId), Trim(p.artifactType), Trim(p.artifactId);
    if plugin == "" || kind == "" || id == "" then Rejected else Ok(plugin + ":" + (kind + ":" + id))
  }

  predicate TokensAreValid(p: Payload) {
    IsToken(Trim(p.pluginId)) && IsToken(Trim(p.artifactType)) && IsToken(Trim(p.artifactId))
  }

  function FirstColon(s: string): nat {
    if s == "" || s[0] == ':' then 0 else 1 + FirstColon(s[1..])
  }

  lemma {:induction false} FirstColonIs(a: string, x: string)
    requires ':' !in a
    ensures FirstColon(a + (":" + x)) == |a|
  {
    if a == "" {
      assert a + (":" + x) == ":" + x;
    } else {
      FirstColonIs(a[1..], x);
      assert (a + (":" + x))[1..] == a[1..] + (":" + x) && a[0] in a;
    }
  }

  /** Text up to its first colon is determined. */
  lemma ColonSplits(a: string, b: string, x: string, y: string)
    requires ':' !in a && ':' !in b && a + ":" + x == b + ":" + y
    ensures a == b && x == y
  {
    assert a + ":" + x == a + (":" + x) && b + ":" + y == b + (":" + y);
    FirstColonIs(a, x);
    FirstColonIs(b, y);
    var s := a + ":" + x;
    assert s[..|a|] == a && s[..|b|] == b && s[|a| + 1..] == x && s[|b| + 1..] == y;
  }

  /** Among valid events, one key is one artifact. */
  lemma KeysTellArtifactsApart(p: Payload, q: Payload)
    requires TokensAreValid(p) && TokensAreValid(q) && KeyOf(p) == KeyOf(q)
    ensures Trim(p.pluginId) == Trim(q.pluginId) && Trim(p.artifactType) == Trim(q.artifactType)
    ensures Trim(p.artifactId) == Trim(q.artifactId)
  {
    SameParts(Trim(p.pluginId), Trim(p.artifactType), Trim(p.artifactId),
              Trim(q.pluginId), Trim(q.artifactType), Trim(q.artifactId));
  }

  lemma SameParts(a: string, b: string, c: string, x: string, y: string, z: string)
    requires IsToken(a) && IsToken(b) && IsToken(x) && IsToken(y) && a + ":" + (b + ":" + c) == x + ":" + (y + ":" + z)
    ensures a == x && b == y && c == z
  {
    ColonSplits(a, x, b + ":" + c, y + ":" + z);
    ColonSplits(b, y, c, z);
  }

  // --- decisions ---

  datatype Code = RevisionConflict | AlreadyExists | NotFound

  datatype Decision = Allowed(revision: int) | Refused(code: Code, currentRevision: int) | Thrown

  function RevisionOf(current: Current): int {
    if current.Absent? then 0 else current.artifact.revision
  }

  /** `decidePluginArtifactCommit`. */
  function Decide(current: Current, operation: string, base: Base): Decision {
    if current.Present? && current.artifact.revision < 1 then Thrown
    else if operation == CREATED then
      if current.Present? then Refused(AlreadyExists, RevisionOf(current)) else Allowed(1)
    else if operation != REPLACED then Thrown
    else if current.Absent? then Refused(NotFound, 0)
    else if base != Base(RevisionOf(current)) then Refused(RevisionConflict, RevisionOf(current))
    else Allowed(RevisionOf(current) + 1)
  }

  /** `collectRevisionErrors` finds nothing. */
  predicate RevisionsFit(e: Event) {
    var p, operation := e.payload, Trim(e.payload.operation);
    && p.revision >= 1 && e.revision == p.revision && (p.base.Base? ==> p.base.revision >= 0)
    && (operation == CREATED ==> p.base.NoBase? && p.revision == 1)
    && (operation == REPLACED ==> p.base.Base? && p.base.revision >= 1 && p.revision == p.base.revision + 1)
  }

  predicate IsOperation(operation: string) {
    operation == CREATED || operation == REPLACED
  }

  lemma OperationsAreTrimmed(operation: string)
    requires IsOperation(operation)
    ensures Trim(operation) == operation
  {
    TrimFixesTrimmed(operation);
  }

  /** `validatePluginArtifactEnvelope`. */
  predicate ValidEvent(e: Event) {
    TokensAreValid(e.payload) && IsOperation(Trim(e.payload.operation)) && RevisionsFit(e) && e.sound
  }

  /** The operation of a valid event needs no trimming; of any other it is not looked at. */
  predicate Plain(e: Event) {
    ValidEvent(e) ==> IsOperation(e.payload.operation)
  }

  function ArtifactOf(e: Event): Artifact {
    var p := e.payload;
    Artifact(p.pluginId, p.artifactType, p.artifactId, p.revision, p.operation, p.data, e.eventId)
  }

  /** `reducePluginArtifact`: the artifact afterwards, if it does not throw. */
  function Reduce(current: Current, e: Event): Current {
    if ValidEvent(e) && Decide(current, e.payload.operation, e.payload.base).Allowed? then Present(ArtifactOf(e))
    else current
  }

  // --- projection ---

  type Artifacts = map<string, Artifact>

  function At(artifacts: Artifacts, key: string): Current {
    if key in artifacts then Present(artifacts[key]) else Absent
  }

  function With(artifacts: Artifacts, key: string, current: Current): Artifacts {
    if current.Present? then artifacts[key := current.artifact] else artifacts
  }

  /** The projection does not throw on this event. */
  predicate Readable(e: Event) {
    KeyOf(e.payload).Ok? && Plain(e)
  }

  predicate HasKey(e: Event, key: string) {
    KeyOf(e.payload) == Ok(key)
  }

  predicate AllReadable(events: seq<Event>) {
    forall i {:trigger Readable(events[i])} :: 0 <= i < |events| ==> Readable(events[i])
  }

  function ForKey(key: string): Event -> bool {
    (e: Event) => HasKey(e, key)
  }

  function OfKey(events: seq<Event>, key: string): seq<Event> {
    Filter(events, ForKey(key))
  }

  function SequenceOf(): Event -> int {
    (e: Event) => e.sequence
  }

  /** One artifact through its events, in the order given. */
  function Fold(events: seq<Event>): Current {
    if events == [] then Absent else Reduce(Fold(events[..|events| - 1]), events[|events| - 1])
  }

  /** `sort` by sequence, and by position where sequences are equal. */
  function Sort(events: seq<Event>): seq<Event> {
    SortBy(events, SequenceOf())
  }

  /** The artifacts are those of the events, each folded on its own. */
  ghost predicate Projects(artifacts: Artifacts, events: seq<Event>) {
    forall key :: At(artifacts, key) == Fold(OfKey(events, key))
  }

  /** `projectPluginArtifacts`: each artifact is its own events, in sequence, folded. */
  method ProjectPluginArtifacts(events: seq<Event>) returns (result: Result<Artifacts>)
    ensures result.Ok? <==> AllReadable(events)
    ensures result.Ok? ==> Projects(result.value, Sort(events))
  {
    SortSorts(events, SequenceOf());
    SameReadable(events, Sort(events));
    result := ProjectOrdered(Sort(events));
  }

  method ProjectOrdered(ordered: seq<Event>) returns (result: Result<Artifacts>)
    ensures result.Ok? <==> AllReadable(ordered)
    ensures result.Ok? ==> Projects(result.value, ordered)
  {
    var artifacts: Artifacts := map[];
    for i := 0 to |ordered|
      invariant AllReadable(ordered[..i]) && Projects(artifacts, ordered[..i])
    {
      var e := ordered[i];
      var key := KeyOf(e.payload);
      if key.Rejected? {
        assert !Readable(e);
        return Rejected;
      }
      FoldIsPositive(OfKey(ordered[..i], key.value));
      ThrowsIff(At(artifacts, key.value), e);
      if ValidEvent(e) && Decide(At(artifacts, key.value), e.payload.operation, e.payload.base).Thrown? {
        assert !Readable(e);
        return Rejected;
      }
      ProjectsOneMore(artifacts, ordered[..i], e, key.value);
      ReadableOneMore(ordered[..i], e);
      TakeOneMore(ordered, i);
      artifacts := With(artifacts, key.value, Reduce(At(artifacts, key.value), e));
    }
    assert ordered[..|ordered|] == ordered;
    result := Ok(artifacts);
  }

  /** A projected artifact has a positive revision. */
  lemma {:induction false} FoldIsPositive(events: seq<Event>)
    ensures Fold(events).Present? ==> RevisionOf(Fold(events)) >= 1
  {
    if events != [] {
      FoldIsPositive(events[..|events| - 1]);
    }
  }

  /** On such an artifact a valid event is refused or applied, unless its operation was trimmed. */
  lemma ThrowsIff(current: Current, e: Event)
    requires current.Present? ==> RevisionOf(current) >= 1
    ensures ValidEvent(e) && Decide(current, e.payload.operation, e.payload.base).Thrown? <==> !Plain(e)
  {
  }

  lemma ReadableOneMore(events: seq<Event>, e: Event)
    requires AllReadable(events) && Readable(e)
    ensures AllReadable(events + [e])
  {
    forall i | 0 <= i < |events| + 1 ensures Readable((events + [e])[i]) {
      assert i < |events| ==> Readable(events[i]);
    }
  }

  lemma TakeOneMore<T>(s: seq<T>, i: nat)
    requires i < |s|
    ensures s[..i + 1] == s[..i] + [s[i]]
  {
  }

  lemma ProjectsOneMore(artifacts: Artifacts, events: seq<Event>, e: Event, key: string)
    requires Projects(artifacts, events) && HasKey(e, key)
    ensures Projects(With(artifacts, key, Reduce(At(artifacts, key), e)), events + [e])
  {
    var after := With(artifacts, key, Reduce(At(artifacts, key), e));
    forall other ensures At(after, other) == Fold(OfKey(events + [e], other)) {
      FoldOneMore(events, e, other);
      assert At(artifacts, other) == Fold(OfKey(events, other));
    }
  }

  lemma FoldOneMore(events: seq<Event>, e: Event, key: string)
    ensures Fold(OfKey(events + [e], key)) ==
      if HasKey(e, key) then Reduce(Fold(OfKey(events, key)), e) else Fold(OfKey(events, key))
  {
    FilterAppend(events, e, ForKey(key));
    var mine := OfKey(events, key);
    assert (mine + [e])[..|mine|] == mine;
  }

  lemma SameReadable(a: seq<Event>, b: seq<Event>)
    requires multiset(a) == multiset(b)
    ensures AllReadable(a) <==> AllReadable(b)
  {
    forall x ensures x in a <==> x in b {
      assert x in a <==> x in multiset(a);
      assert x in b <==> x in multiset(b);
    }
    if AllReadable(a) {
      forall i | 0 <= i < |b| ensures Readable(b[i]) {
        assert b[i] in a;
        var j :| 0 <= j < |a| && a[j] == b[i];
        assert Readable(a[j]);
      }
    }
    if AllReadable(b) {
      forall i | 0 <= i < |a| ensures Readable(a[i]) {
        assert a[i] in b;
        var j :| 0 <= j < |b| && b[j] == a[i];
        assert Readable(b[j]);
      }
    }
  }
}
