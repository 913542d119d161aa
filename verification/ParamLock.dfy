/** The lock-file protocol around a save: link, rename and unlink as atomic steps of any number
    of writers, any of which may crash. */
module ParamLock {
  import opened Outcome
  import opened ParamDocument

  type WriterId = nat

  /** A lock record: a fresh random token. */
  type Token = nat

  datatype Request = Request(revision: int, overrides: Overrides, actor: string)

  datatype Failure = Busy | LockVanished | LockCorrupted | SaveRejected

  /** Where a writer stands, with the locals it carries. */
  datatype Pc =
    | Start                                        // about to write its candidate file
    | Publish                                      // about to link the candidate to the lock path
    | ReadOwner                                    // the lock exists: about to read its record
    | StatOwner(text: Token)                       // about to read the age of the lock
    | Claim(text: Token)                           // judged stale: about to rename the lock aside
    | Inspect(text: Token, claimed: Token)         // about to read the file it renamed
    | Erase(text: Token, claimed: Token)           // the records agree: about to unlink it
    | Restore(claimed: Token)                      // they differ: about to link it back
    | Discard(claimed: Token, restored: bool)      // about to unlink its own name for it
    | Abandon(failure: Failure)                    // about to unlink its candidate and fail
    | Acquired                                     // about to unlink its candidate
    | Load                                         // about to read the document
    | Commit(next: Document)                       // temporary written: about to rename it over
    | ReleaseRead(failed: bool)                    // about to read the lock back
    | ReleaseUnlink(failed: bool)                  // it was its own: about to unlink it
    | Finished
    | Failed(failure: Failure)
    | Crashed(held: set<Token>)                    // gone, leaving the files it had renamed aside

  /** The content of the lock path, or the record a writer has drawn. */
  datatype Slot = Empty | Holds(token: Token)

  datatype Writer = Writer(pc: Pc, record: Slot, request: Request)

  /** The file system and the writers.  `committed` logs every document ever in place, `judged` the
      records each writer found stale, `issued` the tokens drawn so far. */
  datatype World = World(lock: Slot, document: Document, writers: map<WriterId, Writer>,
                         committed: seq<Document>, judged: set<(WriterId, Token)>, issued: set<Token>)

  predicate InsidePc(pc: Pc) {
    pc.Acquired? || pc.Load? || pc.Commit? || pc.ReleaseRead? || pc.ReleaseUnlink?
  }

  /** Between publishing its record and unlinking it. */
  predicate Inside(w: World, id: WriterId) {
    id in w.writers && InsidePc(w.writers[id].pc)
  }

  /** What is left behind by a writer that stops here. */
  function HeldBy(pc: Pc): set<Token> {
    match pc
    case Inspect(_, claimed) => {claimed}
    case Erase(_, claimed) => {claimed}
    case Restore(claimed) => {claimed}
    case Discard(claimed, restored) => if restored then {} else {claimed}
    case Crashed(held) => held
    case _ => {}
  }

  /** How the clock and the fresh token of a step turn out. */
  datatype Chance = Chance(young: bool, token: Token)

  /** What one system call does to the writer itself, the lock path and the document. */
  datatype Effect = Effect(me: Writer, lock: Slot, document: Document)

  function SystemCall(catalog: Catalog, me: Writer, lock: Slot, document: Document, chance: Chance): Effect {
    match me.pc
    case Start => Effect(me.(pc := Publish, record := Holds(chance.token)), lock, document)
    case Publish =>
      if lock.Empty? then Effect(me.(pc := Acquired), me.record, document)
      else Effect(me.(pc := ReadOwner), lock, document)
    case ReadOwner =>
      Effect(me.(pc := if lock.Empty? then Abandon(LockVanished) else StatOwner(lock.token)), lock, document)
    case StatOwner(text) =>
      Effect(me.(pc := if lock.Empty? then Abandon(LockVanished)
                       else if chance.young then Abandon(Busy) else Claim(text)), lock, document)
    case Claim(text) =>
      if lock.Empty? then Effect(me.(pc := Publish), lock, document)
      else Effect(me.(pc := Inspect(text, lock.token)), Empty, document)
    case Inspect(text, claimed) =>
      Effect(me.(pc := if text == claimed then Erase(text, claimed) else Restore(claimed)), lock, document)
    case Erase(_, _) => Effect(me.(pc := Publish), lock, document)
    case Restore(claimed) =>
      if lock.Empty? then Effect(me.(pc := Discard(claimed, true)), Holds(claimed), document)
      else Effect(me.(pc := Discard(claimed, false)), lock, document)
    case Discard(claimed, restored) =>
      Effect(me.(pc := Abandon(if restored then Busy else LockCorrupted)), lock, document)
    case Abandon(failure) => Effect(me.(pc := Failed(failure)), lock, document)
    case Acquired => Effect(me.(pc := Load), lock, document)
    case Load =>
      var saving := Save(catalog, document, me.request.revision, me.request.overrides, me.request.actor);
      Effect(me.(pc := if saving.Rejected? then ReleaseRead(true)
                       else if saving.value.Unchanged? then ReleaseRead(false)
                       else Commit(saving.value.next)), lock, document)
    case Commit(next) => Effect(me.(pc := ReleaseRead(false)), lock, next)
    case ReleaseRead(failed) =>
      Effect(me.(pc := if lock.Empty? then Failed(LockVanished)
                       else if lock != me.record then Failed(LockCorrupted)
                       else ReleaseUnlink(failed)), lock, document)
    case ReleaseUnlink(failed) =>
      Effect(me.(pc := if lock.Empty? then Failed(LockVanished) else if failed then Failed(SaveRejected) else Finished),
             Empty, document)
    case Finished => Effect(me, lock, document)
    case Failed(_) => Effect(me, lock, document)
    case Crashed(_) => Effect(me, lock, document)
  }

  /** The world after one system call of one writer. */
  function Act(catalog: Catalog, w: World, id: WriterId, chance: Chance): World
    requires id in w.writers
  {
    var me := w.writers[id];
    var effect := SystemCall(catalog, me, w.lock, w.document, chance);
    World(effect.lock, effect.document, w.writers[id := effect.me],
          if me.pc.Commit? then w.committed + [effect.document] else w.committed,
          if me.pc.StatOwner? && effect.me.pc.Claim? then w.judged + {(id, me.pc.text)} else w.judged,
          if me.pc.Start? then w.issued + {chance.token} else w.issued)
  }

  function Crash(w: World, id: WriterId): World
    requires id in w.writers
  {
    w.(writers := w.writers[id := w.writers[id].(pc := Crashed(HeldBy(w.writers[id].pc)))])
  }

  datatype Event = Syscall(id: WriterId, chance: Chance) | Stop(id: WriterId)

  /** One event of a run; a drawn token has never been drawn before. */
  ghost predicate Step(catalog: Catalog, w: World, event: Event, w': World) {
    event.id in w.writers &&
    match event
    case Syscall(id, chance) =>
      (w.writers[id].pc.Start? ==> chance.token !in w.issued) && w' == Act(catalog, w, id, chance)
    case Stop(id) => w' == Crash(w, id)
  }

  ghost predicate Initial(w: World) {
    && w.lock == Empty && w.document == DEFAULT_DOCUMENT && w.committed == [DEFAULT_DOCUMENT]
    && w.judged == {} && w.issued == {}
    && forall id :: id in w.writers ==> w.writers[id].pc.Start? && w.writers[id].record == Empty
  }

  ghost predicate Run(catalog: Catalog, worlds: seq<World>, events: seq<Event>) {
    && |worlds| == |events| + 1 && Initial(worlds[0])
    && forall i :: 0 <= i < |events| ==> Step(catalog, worlds[i], events[i], worlds[i + 1])
  }

  // --- who owns what ---

  /** Writers hold distinct records, all drawn before. */
  ghost predicate DistinctRecords(w: World) {
    && (forall i :: i in w.writers && w.writers[i].record.Holds? ==> w.writers[i].record.token in w.issued)
    && (forall i, j :: i in w.writers && j in w.writers && i != j && w.writers[i].record.Holds? ==>
          w.writers[i].record != w.writers[j].record)
    && (forall i :: i in w.writers && !w.writers[i].pc.Start? && !w.writers[i].pc.Crashed? ==>
         w.writers[i].record.Holds?)
  }

  /** Whoever is inside owns the lock file. */
  ghost predicate InsidersOwnLock(w: World) {
    forall i :: Inside(w, i) ==> w.lock == w.writers[i].record
  }

  /** At most one writer is inside. */
  ghost predicate MutualExclusion(w: World) {
    forall i, j :: Inside(w, i) && Inside(w, j) ==> i == j
  }

  lemma OwnersExclude(w: World)
    requires DistinctRecords(w) && InsidersOwnLock(w)
    ensures MutualExclusion(w)
  {
  }

  /** No reclaimer renames aside the lock of a writer that is inside. */
  ghost predicate ClaimsNoInsider(w: World, event: Event) {
    event.Syscall? && event.id in w.writers && w.writers[event.id].pc.Claim? ==>
      forall j :: Inside(w, j) ==> w.lock != w.writers[j].record
  }

  /** The step of a writer in place of the one before. */
  lemma StepEffect(catalog: Catalog, w: World, event: Event, w': World)
    requires Step(catalog, w, event, w')
    ensures w'.writers.Keys == w.writers.Keys
    ensures forall j :: j in w.writers && j != event.id ==> w'.writers[j] == w.writers[j]
    ensures var me, me' := w.writers[event.id], w'.writers[event.id];
            && (event.Stop? ==> me' == me.(pc := Crashed(HeldBy(me.pc))) && w'.lock == w.lock && w'.issued == w.issued)
            && (event.Syscall? ==>
                  Effect(me', w'.lock, w'.document) == SystemCall(catalog, me, w.lock, w.document, event.chance))
  {
  }

  lemma StepKeepsRecords(catalog: Catalog, w: World, event: Event, w': World)
    requires DistinctRecords(w) && Step(catalog, w, event, w')
    ensures DistinctRecords(w')
  {
    StepEffect(catalog, w, event, w');
    var me, me' := w.writers[event.id], w'.writers[event.id];
    assert me'.record == me.record || (me.pc.Start? && me'.record.Holds? && me'.record.token !in w.issued);
    assert me'.record.Holds? ==> me'.record.token in w'.issued;
    assert w.issued <= w'.issued;
  }

  /** What a system call can do to the lock path. */
  lemma LockMoves(catalog: Catalog, me: Writer, lock: Slot, document: Document, chance: Chance)
    ensures var e := SystemCall(catalog, me, lock, document, chance);
            && (e.lock != lock ==>
                  || (me.pc.Publish? && lock.Empty? && e.lock == me.record)
                  || (me.pc.Claim? && lock.Holds? && e.lock.Empty?)
                  || (me.pc.Restore? && lock.Empty?)
                  || (me.pc.ReleaseUnlink? && e.lock.Empty?))
            && (InsidePc(e.me.pc) ==>
                  && e.me.record == me.record
                  && (InsidePc(me.pc) || (me.pc.Publish? && lock.Empty? && e.lock == me.record)))
            && (me.pc.ReleaseUnlink? ==> !InsidePc(e.me.pc))
  {
  }

  lemma StepKeepsOwnership(catalog: Catalog, w: World, event: Event, w': World)
    requires DistinctRecords(w) && InsidersOwnLock(w)
    requires Step(catalog, w, event, w') && ClaimsNoInsider(w, event)
    ensures InsidersOwnLock(w')
  {
    StepEffect(catalog, w, event, w');
    var id := event.id;
    if event.Syscall? {
      LockMoves(catalog, w.writers[id], w.lock, w.document, event.chance);
    }
    forall i | Inside(w', i) ensures w'.lock == w'.writers[i].record {
      if i != id {
        assert Inside(w, i);
        assert Inside(w, id) ==> w.lock == w.writers[id].record;
      } else {
        assert Inside(w, i) || w.writers[i].pc.Publish?;
      }
    }
  }

  // --- the documents ---

  /** Every document in the log follows the one before it, from the default document on, and its
      audit history accounts for its values. */
  ghost predicate Chain(catalog: Catalog, committed: seq<Document>) {
    && committed != [] && committed[0] == DEFAULT_DOCUMENT
    && (forall i :: 0 <= i < |committed| ==> Audited(catalog, committed[i]) && committed[i].revision == i)
    && (forall i :: 0 <= i < |committed| - 1 ==> Follows(committed[i], committed[i + 1]))
  }

  ghost predicate InPlace(catalog: Catalog, w: World) {
    Chain(catalog, w.committed) && w.document == w.committed[|w.committed| - 1]
  }

  /** The document a writer is about to commit is what its request makes of this one. */
  predicate UpToDate(catalog: Catalog, document: Document, writer: Writer)
    requires writer.pc.Commit?
  {
    var request := writer.request;
    Save(catalog, document, request.revision, request.overrides, request.actor) == Ok(Replaced(writer.pc.next))
  }

  /** A document about to be committed was computed from the one in place. */
  ghost predicate NothingStale(catalog: Catalog, w: World) {
    forall i :: i in w.writers && w.writers[i].pc.Commit? ==> UpToDate(catalog, w.document, w.writers[i])
  }

  lemma StepKeepsFresh(catalog: Catalog, w: World, event: Event, w': World)
    requires MutualExclusion(w) && NothingStale(catalog, w) && Step(catalog, w, event, w')
    ensures NothingStale(catalog, w')
  {
    StepEffect(catalog, w, event, w');
    forall i | i in w'.writers && w'.writers[i].pc.Commit? ensures UpToDate(catalog, w'.document, w'.writers[i]) {
      if i == event.id {
        StepLoads(catalog, w, event, w');
      } else {
        assert Inside(w, i) && UpToDate(catalog, w.document, w.writers[i]);
        assert w.writers[event.id].pc.Commit? ==> Inside(w, event.id);
      }
    }
  }

  /** A writer comes to its commit by saving against the document in place. */
  lemma StepLoads(catalog: Catalog, w: World, event: Event, w': World)
    requires Step(catalog, w, event, w') && w'.writers[event.id].pc.Commit?
    ensures UpToDate(catalog, w'.document, w'.writers[event.id])
  {
  }

  /** The log and the document after a step. */
  lemma StepCommits(catalog: Catalog, w: World, event: Event, w': World)
    requires Step(catalog, w, event, w')
    ensures if event.Syscall? && w.writers[event.id].pc.Commit?
            then w'.committed == w.committed + [w.writers[event.id].pc.next]
                && w'.document == w.writers[event.id].pc.next
            else w'.committed == w.committed && w'.document == w.document
  {
  }

  lemma StepKeepsChain(catalog: Catalog, w: World, event: Event, w': World)
    requires catalog.Valid()
    requires NothingStale(catalog, w) && InPlace(catalog, w) && Step(catalog, w, event, w')
    ensures InPlace(catalog, w') && w.committed <= w'.committed
  {
    StepCommits(catalog, w, event, w');
    var me := w.writers[event.id];
    if event.Syscall? && me.pc.Commit? {
      LastIsAudited(catalog, w);
      SaveChains(catalog, w.document, me.request.revision, me.request.overrides, me.request.actor);
      ChainSnoc(catalog, w.committed, me.pc.next);
    }
  }

  lemma LastIsAudited(catalog: Catalog, w: World)
    requires InPlace(catalog, w)
    ensures Audited(catalog, w.document)
  {
  }

  lemma ChainSnoc(catalog: Catalog, committed: seq<Document>, next: Document)
    requires Chain(catalog, committed) && Follows(committed[|committed| - 1], next) && Audited(catalog, next)
    ensures Chain(catalog, committed + [next])
  {
    var longer := committed + [next];
    assert forall i :: 0 <= i < |committed| ==> longer[i] == committed[i];
    assert longer[|committed|] == next;
  }

  // --- whole runs ---

  ghost predicate Good(catalog: Catalog, w: World) {
    && DistinctRecords(w) && InsidersOwnLock(w) && NothingStale(catalog, w) && InPlace(catalog, w)
  }

  /** In every run in which no reclaimer moves aside the lock of a writer that is inside, at most
      one writer is inside at any time, and the committed documents form one audited chain. */
  lemma {:induction false} SafeRuns(catalog: Catalog, worlds: seq<World>, events: seq<Event>)
    requires catalog.Valid() && Run(catalog, worlds, events)
    requires forall i :: 0 <= i < |events| ==> ClaimsNoInsider(worlds[i], events[i])
    ensures Good(catalog, worlds[|events|]) && MutualExclusion(worlds[|events|])
  {
    if events == [] {
      DefaultIsAudited(catalog);
    } else {
      var n := |events| - 1;
      var w, w' := worlds[n], worlds[n + 1];
      SafeRuns(catalog, worlds[..n + 1], events[..n]);
      assert Step(catalog, w, events[n], w') && ClaimsNoInsider(w, events[n]);
      StepKeepsRecords(catalog, w, events[n], w');
      StepKeepsOwnership(catalog, w, events[n], w');
      StepKeepsFresh(catalog, w, events[n], w');
      StepKeepsChain(catalog, w, events[n], w');
    }
    OwnersExclude(worlds[|events|]);
  }

  /** When no lock is ever judged stale, no reclaimer moves anything aside. */
  lemma {:induction false} NoStaleNoClaim(catalog: Catalog, worlds: seq<World>, events: seq<Event>, k: nat)
    requires Run(catalog, worlds, events) && k <= |events|
    requires worlds[|events|].judged == {}
    ensures worlds[k].judged == {} && forall i :: i in worlds[k].writers ==> !worlds[k].writers[i].pc.Claim?
    decreases k
  {
    JudgedGrows(catalog, worlds, events, k);
    if k > 0 {
      NoStaleNoClaim(catalog, worlds, events, k - 1);
      assert Step(catalog, worlds[k - 1], events[k - 1], worlds[k]);
      StepEffect(catalog, worlds[k - 1], events[k - 1], worlds[k]);
    }
  }

  lemma {:induction false} JudgedGrows(catalog: Catalog, worlds: seq<World>, events: seq<Event>, k: nat)
    requires Run(catalog, worlds, events) && k <= |events|
    ensures worlds[k].judged <= worlds[|events|].judged
    decreases |events| - k
  {
    if k < |events| {
      assert Step(catalog, worlds[k], events[k], worlds[k + 1]);
      JudgedGrows(catalog, worlds, events, k + 1);
    }
  }

  /** So without a stale judgement every run is safe. */
  lemma FreshRunsAreSafe(catalog: Catalog, worlds: seq<World>, events: seq<Event>)
    requires catalog.Valid() && Run(catalog, worlds, events)
    requires worlds[|events|].judged == {}
    ensures MutualExclusion(worlds[|events|])
    ensures InPlace(catalog, worlds[|events|])
  {
    forall i | 0 <= i < |events| ensures ClaimsNoInsider(worlds[i], events[i]) {
      NoStaleNoClaim(catalog, worlds, events, i);
    }
    SafeRuns(catalog, worlds, events);
  }

  // --- reclaiming ---

  /** The records present as the lock file or under a reclaimer's own name for it. */
  ghost predicate Present(w: World, t: Token) {
    w.lock == Holds(t) || exists i :: i in w.writers && t in HeldBy(w.writers[i].pc)
  }

  /** A reclaimer past the age check works on the record it judged. */
  ghost predicate ReclaimersJudged(w: World) {
    forall i :: i in w.writers ==> JudgedAt(w.judged, i, w.writers[i].pc)
  }

  predicate JudgedAt(judged: set<(WriterId, Token)>, id: WriterId, pc: Pc) {
    && (pc.Claim? || pc.Inspect? || pc.Erase? ==> (id, pc.text) in judged)
    && (pc.Erase? ==> pc.text == pc.claimed)
  }

  lemma StepKeepsJudged(catalog: Catalog, w: World, event: Event, w': World)
    requires ReclaimersJudged(w) && Step(catalog, w, event, w')
    ensures ReclaimersJudged(w')
  {
    StepEffect(catalog, w, event, w');
    assert w.judged <= w'.judged;
  }

  lemma {:induction false} RunsKeepJudged(catalog: Catalog, worlds: seq<World>, events: seq<Event>)
    requires Run(catalog, worlds, events)
    ensures ReclaimersJudged(worlds[|events|])
  {
    if events != [] {
      var n := |events| - 1;
      RunsKeepJudged(catalog, worlds[..n + 1], events[..n]);
      assert Step(catalog, worlds[n], events[n], worlds[n + 1]);
      StepKeepsJudged(catalog, worlds[n], events[n], worlds[n + 1]);
    }
  }

  /** In every run without a claim on an insider so far, whoever is inside owns the lock file. */
  lemma {:induction false} OwnedRuns(catalog: Catalog, worlds: seq<World>, events: seq<Event>)
    requires Run(catalog, worlds, events)
    requires forall i :: 0 <= i < |events| ==> ClaimsNoInsider(worlds[i], events[i])
    ensures DistinctRecords(worlds[|events|]) && InsidersOwnLock(worlds[|events|])
  {
    if events != [] {
      var n := |events| - 1;
      OwnedRuns(catalog, worlds[..n + 1], events[..n]);
      assert Step(catalog, worlds[n], events[n], worlds[n + 1]) && ClaimsNoInsider(worlds[n], events[n]);
      StepKeepsRecords(catalog, worlds[n], events[n], worlds[n + 1]);
      StepKeepsOwnership(catalog, worlds[n], events[n], worlds[n + 1]);
    }
  }

  /** Before the k-th event some reclaimer moved aside the lock of a writer that was inside. */
  ghost predicate InsiderClaimed(worlds: seq<World>, events: seq<Event>, k: nat)
    requires k <= |events| && |worlds| == |events| + 1
  {
    exists i :: 0 <= i < k && !ClaimsNoInsider(worlds[i], events[i])
  }

  /** The lock file a release erases is another writer's. */
  predicate ErasesForeign(w: World, id: WriterId, w': World)
    requires id in w.writers
  {
    w.lock.Holds? && w'.lock.Empty? && w.lock != w.writers[id].record
  }

  /** A release reads the lock back and then unlinks by path: it erases another writer's record
      exactly if one lies there by then, which takes an earlier claim on an insider. */
  lemma ReleaseErasesForeignIff(catalog: Catalog, worlds: seq<World>, events: seq<Event>, k: nat)
    requires Run(catalog, worlds, events) && k < |events| && events[k].Syscall? && events[k].id in worlds[k].writers
    requires worlds[k].writers[events[k].id].pc.ReleaseUnlink?
    ensures ErasesForeign(worlds[k], events[k].id, worlds[k + 1]) <==>
              worlds[k].lock.Holds? && worlds[k].lock != worlds[k].writers[events[k].id].record
    ensures ErasesForeign(worlds[k], events[k].id, worlds[k + 1]) ==> InsiderClaimed(worlds, events, k)
  {
    assert Step(catalog, worlds[k], events[k], worlds[k + 1]);
    if !InsiderClaimed(worlds, events, k) {
      OwnedRuns(catalog, worlds[..k + 1], events[..k]);
      assert Inside(worlds[k], events[k].id);
    }
  }

  /** In every run, with any amount of reclaiming, a record disappears only when its writer releases
      the lock, when another writer's release erases it, which takes an earlier claim on an insider,
      when a reclaimer erases the very record it judged stale, or when a reclaimer that renamed
      another record aside finds the path taken, and then fails with an error. */
  lemma RecordsVanishOnlyThus(catalog: Catalog, worlds: seq<World>, events: seq<Event>, k: nat, t: Token)
    requires Run(catalog, worlds, events) && k < |events|
    requires Present(worlds[k], t) && !Present(worlds[k + 1], t)
    ensures events[k].Syscall?
    ensures var id := events[k].id;
            var me, pc' := worlds[k].writers[id], worlds[k + 1].writers[id].pc;
            || (me.pc.ReleaseUnlink? && worlds[k].lock == Holds(t) == me.record)
            || (me.pc.ReleaseUnlink? && worlds[k].lock == Holds(t) != me.record && InsiderClaimed(worlds, events, k))
            || (me.pc == Erase(t, t) && (id, t) in worlds[k].judged)
            || (me.pc == Discard(t, false) && pc' == Abandon(LockCorrupted))
  {
    var w, event, w' := worlds[k], events[k], worlds[k + 1];
    assert Step(catalog, w, event, w');
    StepEffect(catalog, w, event, w');
    RunsKeepJudged(catalog, worlds[..k + 1], events[..k]);
    VanishLocally(catalog, w, event, w', t);
    if w.writers[event.id].pc.ReleaseUnlink? {
      ReleaseErasesForeignIff(catalog, worlds, events, k);
    }
  }

  lemma VanishLocally(catalog: Catalog, w: World, event: Event, w': World, t: Token)
    requires Step(catalog, w, event, w') && Present(w, t) && !Present(w', t)
    ensures event.Syscall?
    ensures var pc := w.writers[event.id].pc;
            || (pc.ReleaseUnlink? && w.lock == Holds(t))
            || (pc.Erase? && pc.claimed == t)
            || pc == Discard(t, false)
  {
    StepEffect(catalog, w, event, w');
    var me, me' := w.writers[event.id], w'.writers[event.id];
    if w.lock != Holds(t) {
      var i :| i in w.writers && t in HeldBy(w.writers[i].pc);
      assert t !in HeldBy(w'.writers[i].pc);
      assert i == event.id;
    } else {
      assert event.id in w'.writers && t !in HeldBy(me'.pc);
    }
  }

  // --- what a claim too many does ---

  /** Once a reclaimer has moved an insider's lock aside, the next writer to publish is a second one. */
  lemma ClaimOfInsiderBreaks(catalog: Catalog, w: World, reclaimer: WriterId, insider: WriterId, other: WriterId,
                             chance: Chance)
    returns (w': World)
    requires Inside(w, insider) && w.lock.Holds? && w.lock == w.writers[insider].record
    requires reclaimer in w.writers && w.writers[reclaimer].pc.Claim?
    requires other in w.writers && w.writers[other].pc.Publish?
    ensures var mid := Act(catalog, w, reclaimer, chance);
            Step(catalog, w, Syscall(reclaimer, chance), mid) && Step(catalog, mid, Syscall(other, chance), w')
    ensures !MutualExclusion(w')
  {
    w' := Act(catalog, Act(catalog, w, reclaimer, chance), other, chance);
    assert Inside(w', insider) && Inside(w', other);
  }

  /** The run with one more system call. */
  lemma RunOn(catalog: Catalog, worlds: seq<World>, events: seq<Event>, id: WriterId, chance: Chance)
    returns (worlds': seq<World>, events': seq<Event>)
    requires Run(catalog, worlds, events) && id in worlds[|events|].writers
    requires worlds[|events|].writers[id].pc.Start? ==> chance.token !in worlds[|events|].issued
    ensures Run(catalog, worlds', events')
    ensures worlds'[|events'|] == Act(catalog, worlds[|events|], id, chance) && worlds'[0] == worlds[0]
    ensures |events'| == |events| + 1 && worlds'[|events|] == worlds[|events|]
  {
    var next := Act(catalog, worlds[|events|], id, chance);
    worlds', events' := worlds + [next], events + [Syscall(id, chance)];
    assert forall i :: 0 <= i < |worlds| ==> worlds'[i] == worlds[i];
    assert forall i :: 0 <= i < |events| ==> events'[i] == events[i];
    assert Step(catalog, worlds[|events|], Syscall(id, chance), next);
  }

  /** Such a run exists: a writer judged stale while it works is joined by its reclaimer. */
  lemma ReclaimingCanBreakExclusion(catalog: Catalog, start: World, a: WriterId, b: WriterId)
    returns (worlds: seq<World>, events: seq<Event>)
    requires Initial(start) && a in start.writers && b in start.writers && a != b
    ensures Run(catalog, worlds, events) && worlds[0] == start
    ensures !MutualExclusion(worlds[|events|])
  {
    worlds, events := [start], [];
    worlds, events := RunOn(catalog, worlds, events, a, Chance(false, 1));
    worlds, events := RunOn(catalog, worlds, events, a, Chance(false, 0));
    worlds, events := RunOn(catalog, worlds, events, b, Chance(false, 2));
    worlds, events := RunOn(catalog, worlds, events, b, Chance(false, 0));
    worlds, events := RunOn(catalog, worlds, events, b, Chance(false, 0));
    worlds, events := RunOn(catalog, worlds, events, b, Chance(false, 0));
    worlds, events := RunOn(catalog, worlds, events, b, Chance(false, 0));
    worlds, events := RunOn(catalog, worlds, events, b, Chance(false, 0));
    worlds, events := RunOn(catalog, worlds, events, b, Chance(false, 0));
    worlds, events := RunOn(catalog, worlds, events, b, Chance(false, 0));
    assert Inside(worlds[|events|], a) && Inside(worlds[|events|], b);
  }

  /** The run has brought the first writer here, alone. */
  ghost predicate AloneAt(catalog: Catalog, start: World, a: WriterId, worlds: seq<World>, events: seq<Event>, pc: Pc) {
    && Run(catalog, worlds, events) && worlds[0] == start && a in start.writers
    && var w := worlds[|events|];
       && w.writers == start.writers[a := Writer(pc, Holds(1), start.writers[a].request)]
       && w.lock == Holds(1) && w.issued == {1}
  }

  predicate Accepted(catalog: Catalog, request: Request) {
    Save(catalog, DEFAULT_DOCUMENT, request.revision, request.overrides, request.actor).Ok?
  }

  /** A writer alone gets the lock. */
  lemma Acquires(catalog: Catalog, start: World, a: WriterId) returns (worlds: seq<World>, events: seq<Event>)
    requires Initial(start) && a in start.writers
    ensures AloneAt(catalog, start, a, worlds, events, Load) && worlds[|events|].document == DEFAULT_DOCUMENT
  {
    worlds, events := [start], [];
    worlds, events := RunOn(catalog, worlds, events, a, Chance(false, 1));
    worlds, events := RunOn(catalog, worlds, events, a, Chance(false, 0));
    worlds, events := RunOn(catalog, worlds, events, a, Chance(false, 0));
    assert worlds[|events|].writers == start.writers[a := Writer(Load, Holds(1), start.writers[a].request)];
  }

  /** It saves. */
  lemma Saves(catalog: Catalog, start: World, a: WriterId) returns (worlds: seq<World>, events: seq<Event>)
    requires Initial(start) && a in start.writers && Accepted(catalog, start.writers[a].request)
    ensures AloneAt(catalog, start, a, worlds, events, ReleaseRead(false))
  {
    worlds, events := Acquires(catalog, start, a);
    worlds, events := RunOn(catalog, worlds, events, a, Chance(false, 0));
    if worlds[|events|].writers[a].pc.Commit? {
      worlds, events := RunOn(catalog, worlds, events, a, Chance(false, 0));
    }
    assert worlds[|events|].writers
        == start.writers[a := Writer(ReleaseRead(false), Holds(1), start.writers[a].request)];
  }

  /** And reads its lock back. */
  lemma ReadsBack(catalog: Catalog, start: World, a: WriterId) returns (worlds: seq<World>, events: seq<Event>)
    requires Initial(start) && a in start.writers && Accepted(catalog, start.writers[a].request)
    ensures AloneAt(catalog, start, a, worlds, events, ReleaseUnlink(false))
  {
    worlds, events := Saves(catalog, start, a);
    worlds, events := RunOn(catalog, worlds, events, a, Chance(false, 0));
    assert worlds[|events|].writers
        == start.writers[a := Writer(ReleaseUnlink(false), Holds(1), start.writers[a].request)];
  }

  /** A second writer judges the lock stale, erases it and publishes its own. */
  lemma TakesOver(catalog: Catalog, start: World, a: WriterId, b: WriterId)
    returns (worlds: seq<World>, events: seq<Event>)
    requires Initial(start) && a in start.writers && b in start.writers && a != b
    requires Accepted(catalog, start.writers[a].request)
    ensures Run(catalog, worlds, events) && worlds[0] == start
    ensures var w := worlds[|events|];
            && Inside(w, b) && w.lock == Holds(2) == w.writers[b].record
            && a in w.writers && w.writers[a].record == Holds(1) && w.writers[a].pc == ReleaseUnlink(false)
  {
    worlds, events := ReadsBack(catalog, start, a);
    assert worlds[|events|].writers[b] == start.writers[b];
    worlds, events := RunOn(catalog, worlds, events, b, Chance(false, 2));
    worlds, events := RunOn(catalog, worlds, events, b, Chance(false, 0));
    worlds, events := RunOn(catalog, worlds, events, b, Chance(false, 0));
    worlds, events := RunOn(catalog, worlds, events, b, Chance(false, 0));
    worlds, events := RunOn(catalog, worlds, events, b, Chance(false, 0));
    worlds, events := RunOn(catalog, worlds, events, b, Chance(false, 0));
    worlds, events := RunOn(catalog, worlds, events, b, Chance(false, 0));
    worlds, events := RunOn(catalog, worlds, events, b, Chance(false, 0));
  }

  /** So a release can erase the lock of another writer that is inside, without an error. */
  lemma ReleaseCanEraseForeign(catalog: Catalog, start: World, a: WriterId, b: WriterId)
    returns (worlds: seq<World>, events: seq<Event>)
    requires Initial(start) && a in start.writers && b in start.writers && a != b
    requires Accepted(catalog, start.writers[a].request)
    ensures Run(catalog, worlds, events) && worlds[0] == start && |events| > 0
    ensures var w, w' := worlds[|events| - 1], worlds[|events|];
            && Inside(w, b) && w.lock == w.writers[b].record && a in w.writers && ErasesForeign(w, a, w')
            && Inside(w', b) && w'.writers[a].pc == Finished
  {
    worlds, events := TakesOver(catalog, start, a, b);
    worlds, events := RunOn(catalog, worlds, events, a, Chance(false, 0));
  }
}
