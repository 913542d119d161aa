/** Whole runs of the connector runtime: any number of requests for any keys, each an operation
    behind its key's promise chain, interleaved at every await in any order. */
module ConnectorRuns {
  import opened ConnectorBooks
  import opened ConnectorSteps
  import L = ConnectorLock

  /** One request's operation: where it stands, and the state it began in. */
  datatype Task = Task(op: Operation, pc: Pc, from: State)

  /** The requests and their chains, the two Maps with the books, and each request's operation. */
  datatype World = World(locks: L.Locks, books: State, tasks: seq<Task>)

  const START := World(L.NO_LOCKS, NOTHING, [])

  /** A call arrives; its operation begins, runs to its next await, and settles; its promise leaves
      the chain. */
  datatype Event = Arrive(key: Key, op: Operation) | Begin(i: nat) | Run(i: nat) | Settle(i: nat) | Leave(i: nat)

  function LockEvent(event: Event): L.Event
    requires !event.Run?
  {
    match event
    case Arrive(key, _) => L.Arrive(key)
    case Begin(i) => L.Begin(i)
    case Settle(i) => L.Settle(i)
    case Leave(i) => L.Leave(i)
  }

  predicate IsRunning(w: World, i: nat) {
    i < |w.locks.requests| && i < |w.tasks| && w.locks.requests[i].phase.Running?
  }

  predicate CanRun(w: World, i: nat) {
    IsRunning(w, i) && Suits(w.tasks[i].op, w.tasks[i].pc) && !w.tasks[i].pc.Finished?
  }

  function KeyOf(w: World, i: nat): Key
    requires i < |w.locks.requests|
  {
    w.locks.requests[i].key
  }

  /** The world after the code of a running operation up to its next await. */
  function Ran(w: World, i: nat): World
    requires CanRun(w, i)
  {
    var task := w.tasks[i];
    var after := Act(w.books, KeyOf(w, i), task.op, task.pc);
    w.(books := after.state, tasks := w.tasks[i := task.(pc := after.pc)])
  }

  ghost predicate Step(w: World, event: Event, w': World) {
    match event
    case Run(i) => CanRun(w, i) && w' == Ran(w, i)
    case Arrive(key, op) =>
      && L.Step(w.locks, LockEvent(event), w'.locks)
      && w'.books == w.books && w'.tasks == w.tasks + [Task(op, Ready, NOTHING)]
    case Begin(i) =>
      && L.Step(w.locks, LockEvent(event), w'.locks) && i < |w.tasks| && i < |w.locks.requests|
      && w'.books == Lock(w.books, KeyOf(w, i)) && w'.tasks == w.tasks[i := w.tasks[i].(from := w.books)]
    case Settle(i) =>
      && L.Step(w.locks, LockEvent(event), w'.locks) && IsRunning(w, i) && w.tasks[i].pc.Finished?
      && w'.books == Unlock(w.books, KeyOf(w, i)) && w'.tasks == w.tasks
    case Leave(i) => L.Step(w.locks, LockEvent(event), w'.locks) && w'.books == w.books && w'.tasks == w.tasks
  }

  ghost predicate IsStretch(worlds: seq<World>, events: seq<Event>) {
    && |worlds| == |events| + 1
    && forall n :: 0 <= n < |events| ==> Step(worlds[n], events[n], worlds[n + 1])
  }

  ghost predicate IsRun(worlds: seq<World>, events: seq<Event>) {
    IsStretch(worlds, events) && worlds[0] == START
  }

  // --- the invariant of every run ---

  ghost predicate TaskFits(w: World, i: nat)
    requires i < |w.locks.requests| && i < |w.tasks|
  {
    match w.locks.requests[i].phase
    case Waiting => w.tasks[i].pc == Ready
    case Running => Fits(w.tasks[i].from, w.books, KeyOf(w, i), w.tasks[i].op, w.tasks[i].pc)
    case _ => w.tasks[i].pc.Finished?
  }

  predicate Serves(w: World, i: nat, key: Key) {
    IsRunning(w, i) && KeyOf(w, i) == key
  }

  predicate HasRunning(w: World, key: Key) {
    exists i :: 0 <= i < |w.tasks| && Serves(w, i, key)
  }

  /** The locked keys of the books are those with a running operation. */
  ghost predicate LockedIffRunning(w: World) {
    forall key :: key in w.books.locked <==> HasRunning(w, key)
  }

  ghost predicate TasksFit(w: World)
    requires |w.tasks| == |w.locks.requests|
  {
    forall i :: 0 <= i < |w.tasks| ==> TaskFits(w, i)
  }

  ghost predicate Inv(w: World) {
    && |w.tasks| == |w.locks.requests| && L.Good(w.locks) && Good(w.books)
    && LockedIffRunning(w) && TasksFit(w)
  }

  /** Every lock event but an arrival changes one request's phase only. */
  lemma LockFrame(l: L.Locks, event: L.Event, l': L.Locks, i: nat, k: nat)
    requires L.Step(l, event, l') && !event.Arrive? && event.i == i && k < |l.requests|
    ensures |l'.requests| == |l.requests| && l'.requests[k].key == l.requests[k].key
    ensures k != i ==> l'.requests[k].phase == l.requests[k].phase
  {
  }

  /** While a request may begin, nothing of its key runs. */
  lemma BeginsAlone(l: L.Locks, i: nat, k: nat)
    requires L.Good(l) && L.CanBegin(l, i) && k < |l.requests| && l.requests[k].key == l.requests[i].key
    ensures !l.requests[k].phase.Running?
  {
    if k < i {
      L.BeginsLast(l, i, k);
    }
  }

  /** Worlds in which the same operations of a key run. */
  lemma SameRunning(w: World, w': World, key: Key)
    requires |w.tasks| <= |w'.tasks|
    requires forall i :: 0 <= i < |w'.tasks| ==> (Serves(w', i, key) <==> i < |w.tasks| && Serves(w, i, key))
    ensures HasRunning(w, key) <==> HasRunning(w', key)
  {
    if HasRunning(w, key) {
      var i :| 0 <= i < |w.tasks| && Serves(w, i, key);
      assert Serves(w', i, key);
    }
    if HasRunning(w', key) {
      var i :| 0 <= i < |w'.tasks| && Serves(w', i, key);
      assert Serves(w, i, key);
    }
  }

  lemma ArriveKeepsInv(w: World, key: Key, op: Operation, w': World)
    requires Inv(w) && Step(w, Arrive(key, op), w')
    ensures Inv(w')
  {
    L.StepKeepsGood(w.locks, L.Arrive(key), w'.locks);
    assert forall i :: 0 <= i < |w.tasks| ==> w'.locks.requests[i] == w.locks.requests[i] && w'.tasks[i] == w.tasks[i];
    forall k ensures k in w'.books.locked <==> HasRunning(w', k) {
      SameRunning(w, w', k);
    }
    forall i | 0 <= i < |w'.tasks| ensures TaskFits(w', i) {
      if i < |w.tasks| {
        assert TaskFits(w, i);
      }
    }
  }

  /** A running operation of another key stands where it stood. */
  lemma OtherTask(w: World, w': World, k: nat)
    requires Inv(w) && k < |w.tasks| && |w'.tasks| == |w.tasks| == |w'.locks.requests|
    requires w'.tasks[k] == w.tasks[k] && w'.locks.requests[k].phase == w.locks.requests[k].phase
        && KeyOf(w', k) == KeyOf(w, k)
    requires IsRunning(w, k) ==> Undisturbed(w.books, w'.books, KeyOf(w, k)) && KeyOf(w, k) in w'.books.locked
    ensures TaskFits(w', k)
  {
    assert TaskFits(w, k);
    if IsRunning(w, k) {
      FitsAcross(w.tasks[k].from, w.books, w'.books, KeyOf(w, k), w.tasks[k].op, w.tasks[k].pc);
    }
  }

  /** Another running operation is of another key. */
  lemma OthersKey(w: World, i: nat, k: nat)
    requires Inv(w) && IsRunning(w, i) && IsRunning(w, k) && i != k
    ensures KeyOf(w, i) != KeyOf(w, k) && KeyOf(w, k) in w.books.locked
  {
    if KeyOf(w, i) == KeyOf(w, k) {
      L.OneAtATime(w.locks, i, k);
    }
    assert Serves(w, k, KeyOf(w, k)) && HasRunning(w, KeyOf(w, k));
  }

  lemma RunKeepsInv(w: World, i: nat)
    requires Inv(w) && CanRun(w, i)
    ensures Inv(Ran(w, i))
  {
    var w', key, task := Ran(w, i), KeyOf(w, i), w.tasks[i];
    assert TaskFits(w, i);
    ActOk(task.from, w.books, key, task.op, task.pc, key);
    forall k ensures k in w'.books.locked <==> HasRunning(w', k) {
      SameRunning(w, w', k);
    }
    forall k | 0 <= k < |w'.tasks| ensures TaskFits(w', k) {
      if k != i {
        if IsRunning(w, k) {
          OthersKey(w, i, k);
          ActOk(task.from, w.books, key, task.op, task.pc, KeyOf(w, k));
        }
        OtherTask(w, w', k);
      }
    }
  }

  lemma LockSpares(s: State, key: Key, other: Key)
    ensures Undisturbed(s, Lock(s, key), other) && Undisturbed(s, Unlock(s, key), other)
  {
  }

  lemma BeginLocks(w: World, i: nat, w': World, key: Key)
    requires Inv(w) && Step(w, Begin(i), w')
    ensures key in w'.books.locked <==> HasRunning(w', key)
  {
    forall k: nat | k < |w.tasks| && k != i ensures Serves(w', k, key) <==> Serves(w, k, key) {
      LockFrame(w.locks, L.Begin(i), w'.locks, i, k);
    }
    if key == KeyOf(w, i) {
      assert Serves(w', i, key);
    } else {
      LockFrame(w.locks, L.Begin(i), w'.locks, i, i);
      SameRunning(w, w', key);
    }
  }

  /** The key of a request that may begin is idle. */
  lemma BeginsIdle(w: World, i: nat)
    requires Inv(w) && L.CanBegin(w.locks, i)
    ensures KeyOf(w, i) !in w.books.locked
  {
    var key := KeyOf(w, i);
    if HasRunning(w, key) {
      var k :| 0 <= k < |w.tasks| && Serves(w, k, key);
      BeginsAlone(w.locks, i, k);
    }
  }

  lemma BeginTask(w: World, i: nat, w': World, k: nat)
    requires Inv(w) && Step(w, Begin(i), w') && k < |w.tasks| && k < |w'.locks.requests|
    ensures TaskFits(w', k)
  {
    LockFrame(w.locks, L.Begin(i), w'.locks, i, k);
    assert TaskFits(w, k);
    if k == i {
      BeginsIdle(w, i);
      IdleAtRest(w.books, KeyOf(w, i));
    } else {
      LockSpares(w.books, KeyOf(w, i), KeyOf(w, k));
      if IsRunning(w, k) {
        assert Serves(w, k, KeyOf(w, k));
      }
      OtherTask(w, w', k);
    }
  }

  lemma BeginKeepsInv(w: World, i: nat, w': World)
    requires Inv(w) && Step(w, Begin(i), w')
    ensures Inv(w')
  {
    L.StepKeepsGood(w.locks, L.Begin(i), w'.locks);
    LockFrame(w.locks, L.Begin(i), w'.locks, i, i);
    LockGood(w.books, KeyOf(w, i));
    forall k ensures k in w'.books.locked <==> HasRunning(w', k) {
      BeginLocks(w, i, w', k);
    }
    forall k | 0 <= k < |w'.tasks| ensures TaskFits(w', k) {
      BeginTask(w, i, w', k);
    }
  }

  lemma SettleLocks(w: World, i: nat, w': World, key: Key)
    requires Inv(w) && Step(w, Settle(i), w')
    ensures key in w'.books.locked <==> HasRunning(w', key)
  {
    forall k: nat | k < |w.tasks| && k != i ensures Serves(w', k, key) <==> Serves(w, k, key) {
      LockFrame(w.locks, L.Settle(i), w'.locks, i, k);
    }
    LockFrame(w.locks, L.Settle(i), w'.locks, i, i);
    if key == KeyOf(w, i) {
      forall k: nat | k < |w.tasks| && k != i ensures !Serves(w', k, key) {
        if Serves(w, k, key) {
          OthersKey(w, i, k);
        }
      }
    } else {
      SameRunning(w, w', key);
    }
  }

  lemma SettleTask(w: World, i: nat, w': World, k: nat)
    requires Inv(w) && Step(w, Settle(i), w') && k < |w.tasks| && k < |w'.locks.requests|
    ensures TaskFits(w', k)
  {
    LockFrame(w.locks, L.Settle(i), w'.locks, i, k);
    assert TaskFits(w, k);
    if k != i {
      LockSpares(w.books, KeyOf(w, i), KeyOf(w, k));
      if IsRunning(w, k) {
        OthersKey(w, i, k);
      }
      OtherTask(w, w', k);
    }
  }

  /** A settled operation has left its key at rest. */
  lemma SettlesAtRest(w: World, i: nat)
    requires Inv(w) && IsRunning(w, i) && w.tasks[i].pc.Finished?
    ensures AtRest(w.books, KeyOf(w, i))
    ensures Leaves(w.tasks[i].from, w.books, KeyOf(w, i), w.tasks[i].op, w.tasks[i].pc.outcome)
  {
    assert TaskFits(w, i);
  }

  lemma SettleKeepsInv(w: World, i: nat, w': World)
    requires Inv(w) && Step(w, Settle(i), w')
    ensures Inv(w')
  {
    L.StepKeepsGood(w.locks, L.Settle(i), w'.locks);
    LockFrame(w.locks, L.Settle(i), w'.locks, i, i);
    SettlesAtRest(w, i);
    UnlockGood(w.books, KeyOf(w, i));
    forall k ensures k in w'.books.locked <==> HasRunning(w', k) {
      SettleLocks(w, i, w', k);
    }
    forall k | 0 <= k < |w'.tasks| ensures TaskFits(w', k) {
      SettleTask(w, i, w', k);
    }
  }

  lemma LeaveKeepsInv(w: World, i: nat, w': World)
    requires Inv(w) && Step(w, Leave(i), w')
    ensures Inv(w')
  {
    L.StepKeepsGood(w.locks, L.Leave(i), w'.locks);
    forall k: nat | k < |w.tasks|
      ensures KeyOf(w', k) == KeyOf(w, k) && (IsRunning(w', k) <==> IsRunning(w, k)) && TaskFits(w', k)
    {
      LockFrame(w.locks, L.Leave(i), w'.locks, i, k);
      LockFrame(w.locks, L.Leave(i), w'.locks, i, i);
      assert TaskFits(w, k);
    }
    forall k ensures k in w'.books.locked <==> HasRunning(w', k) {
      assert forall j: nat :: j < |w.tasks| ==> (Serves(w', j, k) <==> Serves(w, j, k));
      SameRunning(w, w', k);
    }
  }

  lemma StepKeepsInv(w: World, event: Event, w': World)
    requires Inv(w) && Step(w, event, w')
    ensures Inv(w')
  {
    match event
    case Arrive(key, op) => ArriveKeepsInv(w, key, op, w');
    case Begin(i) => BeginKeepsInv(w, i, w');
    case Run(i) => RunKeepsInv(w, i);
    case Settle(i) => SettleKeepsInv(w, i, w');
    case Leave(i) => LeaveKeepsInv(w, i, w');
  }

  lemma {:induction false} StretchKeepsInv(worlds: seq<World>, events: seq<Event>)
    requires IsStretch(worlds, events) && Inv(worlds[0])
    ensures Inv(worlds[|events|])
  {
    if events != [] {
      var n := |events| - 1;
      StretchKeepsInv(worlds[..n + 1], events[..n]);
      assert Step(worlds[n], events[n], worlds[n + 1]);
      StepKeepsInv(worlds[n], events[n], worlds[n + 1]);
    }
  }

  /** In every run, whatever the calls do and however the keys interleave: requests of a key are
      served one at a time and in order, the books agree with the Maps, a key is locked exactly
      while an operation of it runs, and every operation stands where its code says. */
  lemma RunsKeepInv(worlds: seq<World>, events: seq<Event>)
    requires IsRun(worlds, events)
    ensures Inv(worlds[|events|])
  {
    StretchKeepsInv(worlds, events);
  }

  /** An operation that has run to its end kept its promises, relative to the state it began in,
      whatever ran in between. */
  lemma SettlesAsPromised(worlds: seq<World>, events: seq<Event>, i: nat)
    requires IsRun(worlds, events) && IsRunning(worlds[|events|], i) && worlds[|events|].tasks[i].pc.Finished?
    ensures var w := worlds[|events|];
            Leaves(w.tasks[i].from, w.books, KeyOf(w, i), w.tasks[i].op, w.tasks[i].pc.outcome)
  {
    RunsKeepInv(worlds, events);
    SettlesAtRest(worlds[|events|], i);
  }

  // --- what an operation may rely on while it awaits ---

  /** An event of this request. */
  predicate Concerns(event: Event, i: nat) {
    !event.Arrive? && event.i == i
  }

  lemma StepSpares(w: World, event: Event, w': World, i: nat)
    requires Inv(w) && Step(w, event, w') && IsRunning(w, i) && !Concerns(event, i)
    ensures IsRunning(w', i) && KeyOf(w', i) == KeyOf(w, i) && w'.tasks[i] == w.tasks[i]
    ensures Undisturbed(w.books, w'.books, KeyOf(w, i))
  {
    if !event.Arrive? && !event.Run? {
      LockFrame(w.locks, LockEvent(event), w'.locks, event.i, i);
    }
    match event {
      case Run(k) =>
        OthersKey(w, k, i);
        assert TaskFits(w, k);
        ActOk(w.tasks[k].from, w.books, KeyOf(w, k), w.tasks[k].op, w.tasks[k].pc, KeyOf(w, i));
      case Begin(k) => LockSpares(w.books, KeyOf(w, k), KeyOf(w, i));
      case Settle(k) => LockSpares(w.books, KeyOf(w, k), KeyOf(w, i));
      case _ =>
    }
  }

  /** While an operation awaits, everything else that happens leaves its key, its key's handles and
      their counts alone: the promise `Runtime.Await` makes. */
  lemma {:induction false} AwaitsUndisturbed(worlds: seq<World>, events: seq<Event>, i: nat)
    requires IsStretch(worlds, events) && Inv(worlds[0]) && IsRunning(worlds[0], i)
    requires forall n :: 0 <= n < |events| ==> !Concerns(events[n], i)
    ensures var w := worlds[|events|];
            && Inv(w) && IsRunning(w, i) && KeyOf(w, i) == KeyOf(worlds[0], i)
            && Undisturbed(worlds[0].books, w.books, KeyOf(w, i))
  {
    if events != [] {
      var n := |events| - 1;
      AwaitsUndisturbed(worlds[..n + 1], events[..n], i);
      assert Step(worlds[n], events[n], worlds[n + 1]) && !Concerns(events[n], i);
      StepSpares(worlds[n], events[n], worlds[n + 1], i);
      StepKeepsInv(worlds[n], events[n], worlds[n + 1]);
      UndisturbedOn(worlds[0].books, worlds[n].books, worlds[n + 1].books, KeyOf(worlds[0], i));
    }
  }

  // --- a key with nothing running ---

  /** No connect of the key ends in something other than an Error. */
  predicate NeverLeft(w: World, key: Key) {
    forall i :: 0 <= i < |w.tasks| && i < |w.locks.requests| && KeyOf(w, i) == key ==>
        !MayLeaveConnecting(w.tasks[i].op)
  }

  /** Every record of the key that gets connected also projects. */
  predicate NeverDoubled(w: World, key: Key) {
    forall i :: 0 <= i < |w.tasks| && i < |w.locks.requests| && KeyOf(w, i) == key ==> !MayDisposeListed(w.tasks[i].op)
  }

  /** Requests stay, with their keys and operations. */
  lemma TasksStay(w: World, event: Event, w': World, i: nat)
    requires Inv(w) && Step(w, event, w') && i < |w.tasks|
    ensures i < |w'.tasks| && i < |w'.locks.requests| && KeyOf(w', i) == KeyOf(w, i) && w'.tasks[i].op == w.tasks[i].op
  {
    if !event.Arrive? && !event.Run? {
      LockFrame(w.locks, LockEvent(event), w'.locks, event.i, i);
    }
  }

  lemma StepStuck(w: World, event: Event, w': World, key: Key)
    requires Inv(w) && Step(w, event, w') && NeverLeft(w', key)
    ensures NeverLeft(w, key)
    ensures key !in w.books.stuck ==> key !in w'.books.stuck
  {
    forall i | 0 <= i < |w.tasks| && KeyOf(w, i) == key ensures !MayLeaveConnecting(w.tasks[i].op) {
      TasksStay(w, event, w', i);
      assert KeyOf(w', i) == key;
    }
    if event.Run? {
      var i := event.i;
      assert TaskFits(w, i);
      if KeyOf(w, i) == key {
        StuckHasCause(w.tasks[i].from, w.books, key, w.tasks[i].op, w.tasks[i].pc);
      } else {
        ActOk(w.tasks[i].from, w.books, KeyOf(w, i), w.tasks[i].op, w.tasks[i].pc, key);
      }
    }
  }

  /** No listed handle of the key was disposed, nor any of its handles twice. */
  ghost predicate DisposedOnce(s: State, key: Key) {
    key !in s.doubled && forall h :: Mine(s, h, key) ==> h !in s.twice
  }

  /** A handle of another key stays that key's. */
  lemma OthersHandle(w: World, i: nat, h: Handle)
    requires Inv(w) && CanRun(w, i) && h in w.books.places
    ensures w.books.places[h].key != KeyOf(w, i) ==> Mine(Ran(w, i).books, h, w.books.places[h].key)
  {
    var other, task := w.books.places[h].key, w.tasks[i];
    assert TaskFits(w, i);
    ActOk(task.from, w.books, KeyOf(w, i), task.op, task.pc, other);
    if other != KeyOf(w, i) {
      assert Mine(w.books, h, other) && SameHandle(w.books, Ran(w, i).books, h);
    }
  }

  lemma RunDoubled(w: World, i: nat, key: Key)
    requires Inv(w) && CanRun(w, i) && DisposedOnce(w.books, key)
    requires KeyOf(w, i) == key ==> !MayDisposeListed(w.tasks[i].op)
    ensures DisposedOnce(Ran(w, i).books, key)
  {
    var task, t := w.tasks[i], Ran(w, i).books;
    assert TaskFits(w, i);
    if KeyOf(w, i) == key {
      DoubledHasCause(task.from, w.books, key, task.op, task.pc);
      forall h | Mine(t, h, key) ensures h !in t.twice {
        if h in w.books.twice {
          OthersHandle(w, i, h);
        } else if h in t.twice {
          TwiceHasCause(task.from, w.books, key, task.op, task.pc, h);
        }
      }
    } else {
      ActOk(task.from, w.books, KeyOf(w, i), task.op, task.pc, key);
      forall h | Mine(t, h, key) ensures h !in t.twice {
        assert SameHandle(w.books, t, h);
      }
    }
  }

  lemma StepDoubled(w: World, event: Event, w': World, key: Key)
    requires Inv(w) && Step(w, event, w') && NeverDoubled(w', key)
    ensures NeverDoubled(w, key)
    ensures DisposedOnce(w.books, key) ==> DisposedOnce(w'.books, key)
  {
    forall i | 0 <= i < |w.tasks| && KeyOf(w, i) == key ensures !MayDisposeListed(w.tasks[i].op) {
      TasksStay(w, event, w', i);
      assert KeyOf(w', i) == key;
    }
    if DisposedOnce(w.books, key) {
      if event.Run? {
        RunDoubled(w, event.i, key);
      } else {
        assert forall h :: Mine(w'.books, h, key) ==> Mine(w.books, h, key);
      }
    }
  }

  lemma {:induction false} FlagsHaveCauses(worlds: seq<World>, events: seq<Event>, key: Key)
    requires IsRun(worlds, events)
    ensures NeverLeft(worlds[|events|], key) ==> key !in worlds[|events|].books.stuck
    ensures NeverDoubled(worlds[|events|], key) ==> DisposedOnce(worlds[|events|].books, key)
  {
    if events != [] {
      var n := |events| - 1;
      FlagsHaveCauses(worlds[..n + 1], events[..n], key);
      RunsKeepInv(worlds[..n + 1], events[..n]);
      assert Step(worlds[n], events[n], worlds[n + 1]);
      if NeverLeft(worlds[n + 1], key) {
        StepStuck(worlds[n], events[n], worlds[n + 1], key);
      }
      if NeverDoubled(worlds[n + 1], key) {
        StepDoubled(worlds[n], events[n], worlds[n + 1], key);
      }
    }
  }

  /** In every run, a key with nothing running is in order: a listed key has a status, a CONNECTED
      one is listed, and every handle ever created for it is accounted for. */
  lemma IdleKeyBalanced(worlds: seq<World>, events: seq<Event>, key: Key)
    requires IsRun(worlds, events) && !HasRunning(worlds[|events|], key)
    ensures Balanced(worlds[|events|].books, key)
  {
    RunsKeepInv(worlds, events);
    IdleBalanced(worlds[|events|].books, key);
  }

  /** The promise of the runtime: in every run, if each connect of a key that fails does so with an
      Error, and each that connects also projects its record, then whenever nothing of the key runs,
      a listed key has a status, no key is CONNECTING, and each handle created for the key is the
      listed one, never disposed, or was disposed exactly once.  Other keys' calls may do anything. */
  lemma IdleKeyInOrder(worlds: seq<World>, events: seq<Event>, key: Key)
    requires IsRun(worlds, events) && !HasRunning(worlds[|events|], key)
    requires NeverLeft(worlds[|events|], key) && NeverDoubled(worlds[|events|], key)
    ensures var s := worlds[|events|].books;
            && (key in s.handles ==> key in s.statuses)
            && (key in s.statuses ==> !s.statuses[key].Connecting?)
            && (key in s.statuses && s.statuses[key].Connected? ==> key in s.handles)
            && forall h :: Mine(s, h, key) ==>
                 h in s.disposals && s.disposals[h] == if key in s.handles && s.handles[key] == h then 0 else 1
  {
    IdleKeyBalanced(worlds, events, key);
    FlagsHaveCauses(worlds, events, key);
    var s := worlds[|events|].books;
    forall h | Mine(s, h, key)
      ensures h in s.disposals && s.disposals[h] == if key in s.handles && s.handles[key] == h then 0 else 1
    {
      assert h !in s.twice;
    }
  }

  // --- every request is served ---

  /** An upper bound of the events a request still takes. */
  function Weight(phase: L.Phase, pc: Pc): nat {
    match phase
    case Waiting => 10
    case Running => 2 + Left(pc)
    case Settled => 1
    case Released => 0
  }

  function WeightOf(w: World, i: nat): nat {
    if i < |w.tasks| && i < |w.locks.requests| then Weight(w.locks.requests[i].phase, w.tasks[i].pc) else 0
  }

  /** And of the events the first `n` requests still take. */
  function Work(w: World, n: nat): nat {
    if n == 0 then 0 else Work(w, n - 1) + WeightOf(w, n - 1)
  }

  lemma {:induction false} LessWork(w: World, w': World, i: nat, n: nat)
    requires forall k: nat :: k != i ==> WeightOf(w', k) == WeightOf(w, k)
    requires WeightOf(w', i) < WeightOf(w, i)
    ensures Work(w', n) == Work(w, n) + if i < n then WeightOf(w', i) - WeightOf(w, i) else 0
  {
    if n > 0 {
      LessWork(w, w', i, n - 1);
    }
  }

  /** Every event but an arrival is one less to come: a run without arrivals ends. */
  lemma StepsRunOut(w: World, event: Event, w': World)
    requires Inv(w) && Step(w, event, w') && !event.Arrive?
    ensures Work(w', |w'.tasks|) < Work(w, |w.tasks|)
  {
    var i := event.i;
    assert TaskFits(w, i);
    forall k: nat | k != i ensures WeightOf(w', k) == WeightOf(w, k) {
      if k < |w.tasks| && !event.Run? {
        LockFrame(w.locks, LockEvent(event), w'.locks, i, k);
      }
    }
    if event.Run? {
      ActEnds(w.books, KeyOf(w, i), w.tasks[i].op, w.tasks[i].pc);
    } else {
      LockFrame(w.locks, LockEvent(event), w'.locks, i, i);
    }
    LessWork(w, w', i, |w.tasks|);
  }

  /** A stretch of a run in which nothing arrives has at most so many events. */
  lemma {:induction false} StretchesEnd(worlds: seq<World>, events: seq<Event>)
    requires IsStretch(worlds, events) && Inv(worlds[0]) && forall n :: 0 <= n < |events| ==> !events[n].Arrive?
    ensures |events| + Work(worlds[|events|], |worlds[|events|].tasks|) <= Work(worlds[0], |worlds[0].tasks|)
  {
    if events != [] {
      var n := |events| - 1;
      StretchesEnd(worlds[..n + 1], events[..n]);
      StretchKeepsInv(worlds[..n + 1], events[..n]);
      assert Step(worlds[n], events[n], worlds[n + 1]);
      StepsRunOut(worlds[n], events[n], worlds[n + 1]);
    }
  }

  predicate Unserved(w: World, i: nat) {
    i < |w.locks.requests| && !w.locks.requests[i].phase.Released?
  }

  ghost predicate CanStep(w: World) {
    exists event: Event, w' :: !event.Arrive? && Step(w, event, w')
  }

  lemma FirstWaiting(l: L.Locks, i: nat) returns (first: nat)
    requires i < |l.requests| && l.requests[i].phase.Waiting?
    ensures first < |l.requests| && l.requests[first].phase.Waiting?
    ensures forall k :: 0 <= k < first ==> !l.requests[k].phase.Waiting?
  {
    first := 0;
    while !l.requests[first].phase.Waiting?
      invariant first <= i && forall k :: 0 <= k < first ==> !l.requests[k].phase.Waiting?
      decreases i - first
    {
      first := first + 1;
    }
  }

  /** No run gets stuck: as long as a request is unserved something can happen, so a run that cannot
      go on has served them all. */
  lemma NeverBlocked(w: World, i: nat)
    requires Inv(w) && Unserved(w, i)
    ensures CanStep(w)
  {
    if k :| 0 <= k < |w.tasks| && IsRunning(w, k) {
      RunningCanStep(w, k);
    } else if w.locks.requests[i].phase.Settled? {
      var l' := L.AfterLeave(w.locks, i);
      assert Step(w, Leave(i), w.(locks := l'));
    } else {
      assert !IsRunning(w, i);
      var first := FirstWaiting(w.locks, i);
      forall k: nat | k < |w.locks.requests| ensures !w.locks.requests[k].phase.Running? {
        assert !IsRunning(w, k);
      }
      L.FirstWaitingMayBegin(w.locks, first);
      var l' := L.WithPhase(w.locks, first, L.Running);
      var begun := w.tasks[first := w.tasks[first].(from := w.books)];
      assert Step(w, Begin(first), World(l', Lock(w.books, KeyOf(w, first)), begun));
    }
  }

  lemma RunningCanStep(w: World, i: nat)
    requires Inv(w) && IsRunning(w, i)
    ensures CanStep(w)
  {
    assert TaskFits(w, i);
    if w.tasks[i].pc.Finished? {
      var l' := L.WithPhase(w.locks, i, L.Settled);
      assert Step(w, Settle(i), World(l', Unlock(w.books, KeyOf(w, i)), w.tasks));
    } else {
      assert Step(w, Run(i), Ran(w, i));
    }
  }
}
