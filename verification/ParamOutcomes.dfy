/** How a writer of the parameter store ends, and why: read off the system calls it made in a run. */
module ParamOutcomes {
  import opened Outcome
  import opened ParamDocument
  import opened ParamLock

  /** Something one system call of a writer did or found. */
  datatype Fact =
    | Linked                            // its record became the lock file of a free path
    | Loaded(saving: Result<Saving>)    // the document in place, saved over, gives this
    | Logged(next: Document)            // this document was put in place
    | ReadBack                          // the lock file held its own record
    | Unowned                           // the lock file held another
    | Vanished                          // there was no lock file to read or unlink
    | FoundYoung                        // the lock was young
    | FoundStale(text: Token)           // it was not, after this record was read
    | Took(claimed: Token)              // this record was moved aside
    | PutBack(claimed: Token)           // and put back at the free path
    | FoundTaken(claimed: Token)        // or the path was taken

  function Saves(catalog: Catalog, document: Document, request: Request): Result<Saving> {
    Save(catalog, document, request.revision, request.overrides, request.actor)
  }

  ghost predicate FactAt(catalog: Catalog, w: World, id: WriterId, chance: Chance, w': World, fact: Fact) {
    id in w.writers &&
    var me := w.writers[id];
    match fact
    case Linked => me.pc.Publish? && w.lock.Empty? && w'.lock == me.record
    case Loaded(saving) => me.pc.Load? && saving == Saves(catalog, w.document, me.request)
    case Logged(next) => w'.document == next && w'.committed == w.committed + [next]
    case ReadBack => me.pc.ReleaseRead? && w.lock == me.record
    case Unowned => me.pc.ReleaseRead? && w.lock.Holds? && w.lock != me.record
    case Vanished => w.lock.Empty?
        && (me.pc.ReadOwner? || me.pc.StatOwner? || me.pc.ReleaseRead? || me.pc.ReleaseUnlink?)
    case FoundYoung => me.pc.StatOwner? && w.lock.Holds? && chance.young
    case FoundStale(text) => me.pc == StatOwner(text) && w.lock.Holds? && !chance.young
    case Took(claimed) => me.pc.Claim? && w.lock == Holds(claimed) && w'.lock.Empty?
    case PutBack(claimed) => me.pc == Restore(claimed) && w.lock.Empty? && w'.lock == Holds(claimed)
    case FoundTaken(claimed) => me.pc == Restore(claimed) && w.lock.Holds? && w'.lock == w.lock
  }

  /** The writer's k-th event of the run is a system call with this fact. */
  ghost predicate HappensAt(catalog: Catalog, worlds: seq<World>, events: seq<Event>, id: WriterId, fact: Fact, k: nat)
    requires |worlds| == |events| + 1
  {
    k < |events| && events[k].Syscall? && events[k].id == id
    && FactAt(catalog, worlds[k], id, events[k].chance, worlds[k + 1], fact)
  }

  ghost predicate Happened(catalog: Catalog, worlds: seq<World>, events: seq<Event>, id: WriterId, fact: Fact)
    requires |worlds| == |events| + 1
  {
    exists k :: HappensAt(catalog, worlds, events, id, fact, k)
  }

  /** The save a writer loaded for was rejected, or went through: nothing to change, or its document
      was put in place. */
  ghost predicate Settled(catalog: Catalog, worlds: seq<World>, events: seq<Event>, id: WriterId, failed: bool)
    requires |worlds| == |events| + 1
  {
    if failed then Happened(catalog, worlds, events, id, Loaded(Rejected))
    else
      || Happened(catalog, worlds, events, id, Loaded(Ok(Unchanged)))
      || exists next :: Happened(catalog, worlds, events, id, Loaded(Ok(Replaced(next))))
                        && Happened(catalog, worlds, events, id, Logged(next))
  }

  /** Why a writer failed. */
  ghost predicate Caused(catalog: Catalog, worlds: seq<World>, events: seq<Event>, id: WriterId, failure: Failure)
    requires |worlds| == |events| + 1
  {
    match failure
    case Busy =>
      || Happened(catalog, worlds, events, id, FoundYoung)
      || exists c :: Happened(catalog, worlds, events, id, Took(c)) && Happened(catalog, worlds, events, id, PutBack(c))
    case LockCorrupted =>
      || Happened(catalog, worlds, events, id, Unowned)
      || exists c :: Happened(catalog, worlds, events, id, Took(c))
           && Happened(catalog, worlds, events, id, FoundTaken(c))
    case LockVanished => Happened(catalog, worlds, events, id, Vanished)
    case SaveRejected =>
      Settled(catalog, worlds, events, id, true) && Happened(catalog, worlds, events, id, ReadBack)
  }

  /** Where a writer stands is explained by what its system calls found. */
  ghost predicate Explained(catalog: Catalog, worlds: seq<World>, events: seq<Event>, id: WriterId)
    requires |worlds| == |events| + 1 && id in worlds[|events|].writers
  {
    var linked := Happened(catalog, worlds, events, id, Linked);
    match worlds[|events|].writers[id].pc
    case Acquired => linked
    case Load => linked
    case Commit(next) => linked && Happened(catalog, worlds, events, id, Loaded(Ok(Replaced(next))))
    case ReleaseRead(failed) => linked && Settled(catalog, worlds, events, id, failed)
    case ReleaseUnlink(failed) =>
      linked && Settled(catalog, worlds, events, id, failed) && Happened(catalog, worlds, events, id, ReadBack)
    case Finished =>
      linked && Settled(catalog, worlds, events, id, false) && Happened(catalog, worlds, events, id, ReadBack)
    case Claim(text) => Happened(catalog, worlds, events, id, FoundStale(text))
    case Inspect(text, claimed) =>
      Happened(catalog, worlds, events, id, FoundStale(text)) && Happened(catalog, worlds, events, id, Took(claimed))
    case Erase(text, claimed) =>
      text == claimed
      && Happened(catalog, worlds, events, id, FoundStale(text)) && Happened(catalog, worlds, events, id, Took(text))
    case Restore(claimed) => Happened(catalog, worlds, events, id, Took(claimed))
    case Discard(claimed, restored) =>
      && Happened(catalog, worlds, events, id, Took(claimed))
      && Happened(catalog, worlds, events, id, if restored then PutBack(claimed) else FoundTaken(claimed))
    case Abandon(failure) => Caused(catalog, worlds, events, id, failure)
    case Failed(failure) => Caused(catalog, worlds, events, id, failure)
    case _ => true
  }

  /** What happened still has when the run goes on. */
  lemma HappenedBefore(catalog: Catalog, worlds: seq<World>, events: seq<Event>, n: nat, id: WriterId, fact: Fact)
    requires |worlds| == |events| + 1 && n <= |events|
    requires Happened(catalog, worlds[..n + 1], events[..n], id, fact)
    ensures Happened(catalog, worlds, events, id, fact)
  {
    var k: nat :| HappensAt(catalog, worlds[..n + 1], events[..n], id, fact, k);
    assert HappensAt(catalog, worlds, events, id, fact, k);
  }

  lemma SettledBefore(catalog: Catalog, worlds: seq<World>, events: seq<Event>, n: nat, id: WriterId, failed: bool)
    requires |worlds| == |events| + 1 && n <= |events| && Settled(catalog, worlds[..n + 1], events[..n], id, failed)
    ensures Settled(catalog, worlds, events, id, failed)
  {
    if failed {
      HappenedBefore(catalog, worlds, events, n, id, Loaded(Rejected));
    } else if Happened(catalog, worlds[..n + 1], events[..n], id, Loaded(Ok(Unchanged))) {
      HappenedBefore(catalog, worlds, events, n, id, Loaded(Ok(Unchanged)));
    } else {
      var next :| Happened(catalog, worlds[..n + 1], events[..n], id, Loaded(Ok(Replaced(next))))
                  && Happened(catalog, worlds[..n + 1], events[..n], id, Logged(next));
      HappenedBefore(catalog, worlds, events, n, id, Loaded(Ok(Replaced(next))));
      HappenedBefore(catalog, worlds, events, n, id, Logged(next));
    }
  }

  lemma CausedBefore(catalog: Catalog, worlds: seq<World>, events: seq<Event>, n: nat, id: WriterId, failure: Failure)
    requires |worlds| == |events| + 1 && n <= |events| && Caused(catalog, worlds[..n + 1], events[..n], id, failure)
    ensures Caused(catalog, worlds, events, id, failure)
  {
    forall fact | Happened(catalog, worlds[..n + 1], events[..n], id, fact)
      ensures Happened(catalog, worlds, events, id, fact)
    {
      HappenedBefore(catalog, worlds, events, n, id, fact);
    }
    if failure.SaveRejected? {
      SettledBefore(catalog, worlds, events, n, id, true);
    }
  }

  /** A writer that did not move is explained as before. */
  lemma StillExplained(catalog: Catalog, worlds: seq<World>, events: seq<Event>, n: nat, id: WriterId)
    requires |worlds| == |events| + 1 && n <= |events|
    requires id in worlds[n].writers && id in worlds[|events|].writers
    requires worlds[|events|].writers[id].pc == worlds[n].writers[id].pc
    requires Explained(catalog, worlds[..n + 1], events[..n], id)
    ensures Explained(catalog, worlds, events, id)
  {
    forall fact | Happened(catalog, worlds[..n + 1], events[..n], id, fact)
      ensures Happened(catalog, worlds, events, id, fact)
    {
      HappenedBefore(catalog, worlds, events, n, id, fact);
    }
    match worlds[|events|].writers[id].pc {
      case ReleaseRead(failed) => SettledBefore(catalog, worlds, events, n, id, failed);
      case ReleaseUnlink(failed) => SettledBefore(catalog, worlds, events, n, id, failed);
      case Finished => SettledBefore(catalog, worlds, events, n, id, false);
      case Abandon(failure) => CausedBefore(catalog, worlds, events, n, id, failure);
      case Failed(failure) => CausedBefore(catalog, worlds, events, n, id, failure);
      case _ =>
    }
  }

  /** What the last system call of the run found. */
  lemma JustHappened(catalog: Catalog, worlds: seq<World>, events: seq<Event>, id: WriterId, fact: Fact)
    requires |worlds| == |events| + 1 && events != []
    requires HappensAt(catalog, worlds, events, id, fact, |events| - 1)
    ensures Happened(catalog, worlds, events, id, fact)
  {
  }

  /** The last event is this writer's system call, and all was explained before it. */
  ghost predicate Moving(catalog: Catalog, worlds: seq<World>, events: seq<Event>, id: WriterId) {
    && |worlds| == |events| + 1 && events != []
    && var n := |events| - 1;
       && Step(catalog, worlds[n], events[n], worlds[n + 1]) && events[n].Syscall? && events[n].id == id
       && Explained(catalog, worlds[..n + 1], events[..n], id)
  }

  /** Acquiring: the record is linked, or the lock is found taken. */
  lemma AcquiringExplained(catalog: Catalog, worlds: seq<World>, events: seq<Event>, id: WriterId)
    requires Moving(catalog, worlds, events, id)
    requires var pc := worlds[|events| - 1].writers[id].pc;
             pc.Start? || pc.Publish? || pc.ReadOwner? || pc.StatOwner?
    ensures Explained(catalog, worlds, events, id)
  {
    var n := |events| - 1;
    var w, me := worlds[n], worlds[n].writers[id];
    match me.pc {
      case Publish => if w.lock.Empty? { JustHappened(catalog, worlds, events, id, Linked); }
      case ReadOwner => if w.lock.Empty? { JustHappened(catalog, worlds, events, id, Vanished); }
      case StatOwner(text) =>
        if w.lock.Empty? {
          JustHappened(catalog, worlds, events, id, Vanished);
        } else {
          JustHappened(catalog, worlds, events, id, if events[n].chance.young then FoundYoung else FoundStale(text));
        }
      case _ =>
    }
  }

  /** Reclaiming: what is moved aside is erased if it is the stale record, or else put back. */
  lemma ReclaimingExplained(catalog: Catalog, worlds: seq<World>, events: seq<Event>, id: WriterId)
    requires Moving(catalog, worlds, events, id)
    requires var pc := worlds[|events| - 1].writers[id].pc;
             pc.Claim? || pc.Inspect? || pc.Erase? || pc.Restore? || pc.Discard? || pc.Abandon?
    ensures Explained(catalog, worlds, events, id)
  {
    var n := |events| - 1;
    var w, pc := worlds[n], worlds[n].writers[id].pc;
    forall fact | Happened(catalog, worlds[..n + 1], events[..n], id, fact)
      ensures Happened(catalog, worlds, events, id, fact)
    {
      HappenedBefore(catalog, worlds, events, n, id, fact);
    }
    match pc {
      case Claim(text) => if w.lock.Holds? { JustHappened(catalog, worlds, events, id, Took(w.lock.token)); }
      case Restore(claimed) =>
        JustHappened(catalog, worlds, events, id, if w.lock.Empty? then PutBack(claimed) else FoundTaken(claimed));
      case Abandon(failure) => CausedBefore(catalog, worlds, events, n, id, failure);
      case _ =>
    }
  }

  /** Saving: the document in place decides. */
  lemma SavingExplained(catalog: Catalog, worlds: seq<World>, events: seq<Event>, id: WriterId)
    requires Moving(catalog, worlds, events, id)
    requires var pc := worlds[|events| - 1].writers[id].pc;
             pc.Acquired? || pc.Load? || pc.Commit?
    ensures Explained(catalog, worlds, events, id)
  {
    var n := |events| - 1;
    var w, me := worlds[n], worlds[n].writers[id];
    forall fact | Happened(catalog, worlds[..n + 1], events[..n], id, fact)
      ensures Happened(catalog, worlds, events, id, fact)
    {
      HappenedBefore(catalog, worlds, events, n, id, fact);
    }
    match me.pc {
      case Load => JustHappened(catalog, worlds, events, id, Loaded(Saves(catalog, w.document, me.request)));
      case Commit(next) => JustHappened(catalog, worlds, events, id, Logged(next));
      case _ =>
    }
  }

  /** Releasing: the lock file is unlinked only once it held the writer's own record. */
  lemma ReleasingExplained(catalog: Catalog, worlds: seq<World>, events: seq<Event>, id: WriterId)
    requires Moving(catalog, worlds, events, id) && DistinctRecords(worlds[|events| - 1])
    requires var pc := worlds[|events| - 1].writers[id].pc;
             pc.ReleaseRead? || pc.ReleaseUnlink?
    ensures Explained(catalog, worlds, events, id)
  {
    var n := |events| - 1;
    var w, me := worlds[n], worlds[n].writers[id];
    forall fact | Happened(catalog, worlds[..n + 1], events[..n], id, fact)
      ensures Happened(catalog, worlds, events, id, fact)
    {
      HappenedBefore(catalog, worlds, events, n, id, fact);
    }
    SettledBefore(catalog, worlds, events, n, id, me.pc.failed);
    if w.lock.Empty? {
      JustHappened(catalog, worlds, events, id, Vanished);
    } else if me.pc.ReleaseRead? {
      JustHappened(catalog, worlds, events, id, if w.lock == me.record then ReadBack else Unowned);
    }
  }

  lemma {:induction false} RecordsStayDistinct(catalog: Catalog, worlds: seq<World>, events: seq<Event>)
    requires Run(catalog, worlds, events)
    ensures DistinctRecords(worlds[|events|])
  {
    if events != [] {
      var n := |events| - 1;
      RecordsStayDistinct(catalog, worlds[..n + 1], events[..n]);
      assert Step(catalog, worlds[n], events[n], worlds[n + 1]);
      StepKeepsRecords(catalog, worlds[n], events[n], worlds[n + 1]);
    }
  }

  /** In every run, with any amount of reclaiming and crashing, where each writer stands, and above
      all how it ended, is explained by what its own system calls found. */
  lemma {:induction false} EndsAreExplained(catalog: Catalog, worlds: seq<World>, events: seq<Event>, id: WriterId)
    requires Run(catalog, worlds, events) && id in worlds[|events|].writers
    ensures Explained(catalog, worlds, events, id)
  {
    if events != [] {
      var n := |events| - 1;
      assert Step(catalog, worlds[n], events[n], worlds[n + 1]);
      StepEffect(catalog, worlds[n], events[n], worlds[n + 1]);
      EndsAreExplained(catalog, worlds[..n + 1], events[..n], id);
      RecordsStayDistinct(catalog, worlds[..n + 1], events[..n]);
      var pc := worlds[n].writers[id].pc;
      if events[n].id != id || (events[n].Syscall? && (pc.Finished? || pc.Failed? || pc.Crashed?)) {
        StillExplained(catalog, worlds, events, n, id);
      } else if events[n].Syscall? {
        if pc.Start? || pc.Publish? || pc.ReadOwner? || pc.StatOwner? {
          AcquiringExplained(catalog, worlds, events, id);
        } else if pc.Acquired? || pc.Load? || pc.Commit? {
          SavingExplained(catalog, worlds, events, id);
        } else if pc.ReleaseRead? || pc.ReleaseUnlink? {
          ReleasingExplained(catalog, worlds, events, id);
        } else {
          ReclaimingExplained(catalog, worlds, events, id);
        }
      }
    }
  }

  // --- a save decides once ---

  predicate PastLoad(pc: Pc) {
    pc.Commit? || pc.ReleaseRead? || pc.ReleaseUnlink? || pc.Finished? || pc.Failed? || pc.Crashed?
  }

  /** A writer past its load stays past it. */
  lemma {:induction false} StaysPast(catalog: Catalog, worlds: seq<World>, events: seq<Event>, id: WriterId, k: nat,
                                     n: nat)
    requires Run(catalog, worlds, events) && k <= n <= |events|
    requires id in worlds[k].writers && PastLoad(worlds[k].writers[id].pc)
    ensures id in worlds[n].writers && PastLoad(worlds[n].writers[id].pc)
  {
    if k < n {
      StaysPast(catalog, worlds, events, id, k, n - 1);
      assert Step(catalog, worlds[n - 1], events[n - 1], worlds[n]);
      StepEffect(catalog, worlds[n - 1], events[n - 1], worlds[n]);
    }
  }

  /** A writer loads the document once. */
  lemma LoadsOnce(catalog: Catalog, worlds: seq<World>, events: seq<Event>, id: WriterId, saving: Result<Saving>,
                  other: Result<Saving>)
    requires Run(catalog, worlds, events)
    requires Happened(catalog, worlds, events, id, Loaded(saving))
        && Happened(catalog, worlds, events, id, Loaded(other))
    ensures saving == other
  {
    var k: nat :| HappensAt(catalog, worlds, events, id, Loaded(saving), k);
    var l: nat :| HappensAt(catalog, worlds, events, id, Loaded(other), l);
    LoadsBefore(catalog, worlds, events, id, saving, other, k, l);
    LoadsBefore(catalog, worlds, events, id, other, saving, l, k);
  }

  lemma LoadsBefore(catalog: Catalog, worlds: seq<World>, events: seq<Event>, id: WriterId, saving: Result<Saving>,
                    other: Result<Saving>, k: nat, l: nat)
    requires Run(catalog, worlds, events)
    requires HappensAt(catalog, worlds, events, id, Loaded(saving), k)
    requires HappensAt(catalog, worlds, events, id, Loaded(other), l)
    ensures l <= k
  {
    assert Step(catalog, worlds[k], events[k], worlds[k + 1]);
    StepEffect(catalog, worlds[k], events[k], worlds[k + 1]);
    if k < l {
      StaysPast(catalog, worlds, events, id, k + 1, l);
    }
  }

  /** A writer whose save the document in place rejects never ends as if it had saved; one whose save
      goes through never ends as if it had been rejected. */
  lemma EndsAsSaved(catalog: Catalog, worlds: seq<World>, events: seq<Event>, id: WriterId, saving: Result<Saving>)
    requires Run(catalog, worlds, events) && id in worlds[|events|].writers
    requires Happened(catalog, worlds, events, id, Loaded(saving))
    ensures var w := worlds[|events|];
            && (saving.Rejected? ==> w.writers[id].pc != Finished)
            && (saving.Ok? ==> w.writers[id].pc != Failed(SaveRejected))
            && (saving.Ok? && saving.value.Replaced? && w.writers[id].pc == Finished ==>
                  saving.value.next in w.committed)
  {
    EndsAreExplained(catalog, worlds, events, id);
    forall other | Happened(catalog, worlds, events, id, Loaded(other)) ensures other == saving {
      LoadsOnce(catalog, worlds, events, id, saving, other);
    }
    if saving.Ok? && saving.value.Replaced? && worlds[|events|].writers[id].pc == Finished {
      LoggedStays(catalog, worlds, events, id, saving.value.next);
    }
  }

  lemma {:induction false} LogGrows(catalog: Catalog, worlds: seq<World>, events: seq<Event>, k: nat)
    requires Run(catalog, worlds, events) && k <= |events|
    ensures worlds[k].committed <= worlds[|events|].committed
    decreases |events| - k
  {
    if k < |events| {
      assert Step(catalog, worlds[k], events[k], worlds[k + 1]);
      StepCommits(catalog, worlds[k], events[k], worlds[k + 1]);
      LogGrows(catalog, worlds, events, k + 1);
    }
  }

  lemma LoggedStays(catalog: Catalog, worlds: seq<World>, events: seq<Event>, id: WriterId, next: Document)
    requires Run(catalog, worlds, events) && Happened(catalog, worlds, events, id, Logged(next))
    ensures next in worlds[|events|].committed
  {
    var k: nat :| HappensAt(catalog, worlds, events, id, Logged(next), k);
    var logged := worlds[k + 1].committed;
    assert logged[|worlds[k].committed|] == next;
    LogGrows(catalog, worlds, events, k + 1);
    assert worlds[|events|].committed[|worlds[k].committed|] == next;
  }

  /** The document in place is the last one logged. */
  lemma {:induction false} InPlaceIsLogged(catalog: Catalog, worlds: seq<World>, events: seq<Event>, k: nat)
    requires Run(catalog, worlds, events) && k <= |events|
    ensures var w := worlds[k]; w.committed != [] && w.document == w.committed[|w.committed| - 1]
    decreases k
  {
    if k > 0 {
      InPlaceIsLogged(catalog, worlds, events, k - 1);
      assert Step(catalog, worlds[k - 1], events[k - 1], worlds[k]);
      StepCommits(catalog, worlds[k - 1], events[k - 1], worlds[k]);
    }
  }

  lemma {:induction false} RequestStays(catalog: Catalog, worlds: seq<World>, events: seq<Event>, id: WriterId, k: nat)
    requires Run(catalog, worlds, events) && k <= |events| && id in worlds[k].writers
    ensures id in worlds[|events|].writers && worlds[|events|].writers[id].request == worlds[k].writers[id].request
    decreases |events| - k
  {
    if k < |events| {
      assert Step(catalog, worlds[k], events[k], worlds[k + 1]);
      StepEffect(catalog, worlds[k], events[k], worlds[k + 1]);
      RequestStays(catalog, worlds, events, id, k + 1);
    }
  }

  lemma SavedBy(catalog: Catalog, worlds: seq<World>, events: seq<Event>, id: WriterId) returns (saving: Result<Saving>)
    requires |worlds| == |events| + 1 && Settled(catalog, worlds, events, id, false)
    ensures saving.Ok? && Happened(catalog, worlds, events, id, Loaded(saving))
  {
    if Happened(catalog, worlds, events, id, Loaded(Ok(Unchanged))) {
      saving := Ok(Unchanged);
    } else {
      var next :| Happened(catalog, worlds, events, id, Loaded(Ok(Replaced(next))))
                  && Happened(catalog, worlds, events, id, Logged(next));
      saving := Ok(Replaced(next));
    }
  }

  /** A writer tries again only once it has erased a stale lock, or found the one it judged gone when
      it came to claim it. */
  lemma TriesAgainOnly(catalog: Catalog, w: World, event: Event, w': World)
    requires Step(catalog, w, event, w') && w'.writers[event.id].pc.Publish?
    ensures var pc := w.writers[event.id].pc;
            pc.Start? || pc.Erase? || (pc.Claim? && w.lock.Empty?)
  {
  }

  /** A writer is done only if saving its request over some committed document goes through, and what
      that writes, if anything, was committed. */
  lemma FinishedHasSaved(catalog: Catalog, worlds: seq<World>, events: seq<Event>, id: WriterId)
    returns (document: Document)
    requires Run(catalog, worlds, events) && id in worlds[|events|].writers
    requires worlds[|events|].writers[id].pc == Finished
    ensures var w := worlds[|events|];
            && document in w.committed
            && var saving := Saves(catalog, document, w.writers[id].request);
               saving.Ok? && (saving.value.Replaced? ==> saving.value.next in w.committed)
  {
    EndsAreExplained(catalog, worlds, events, id);
    var saving := SavedBy(catalog, worlds, events, id);
    var k: nat :| HappensAt(catalog, worlds, events, id, Loaded(saving), k);
    document := worlds[k].document;
    RequestStays(catalog, worlds, events, id, k);
    InPlaceIsLogged(catalog, worlds, events, k);
    LogGrows(catalog, worlds, events, k);
    assert document == worlds[|events|].committed[|worlds[k].committed| - 1];
    EndsAsSaved(catalog, worlds, events, id, saving);
  }
}
