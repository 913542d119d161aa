/** The connector runtime as its class: each operation runs under its key's lock, and at every await
    the operations of other keys may move the rest of the state. */
module ConnectorRuntime {
  import opened ConnectorBooks
  import opened ConnectorSteps

  /** An operation at an await: what it finds when it goes on, and where it stands. */
  datatype Stop = Stop(state: State, pc: Pc)

  /** One operation from its beginning on, await by await. */
  datatype Journey = Journey(from: State, key: Key, op: Operation, stops: seq<Stop>)

  function Last(j: Journey): Stop
    requires j.stops != []
  {
    j.stops[|j.stops| - 1]
  }

  /** From one stop to the next: the code up to the await, then whatever other keys did. */
  ghost predicate Leg(j: Journey, n: nat)
    requires n + 1 < |j.stops|
  {
    var stop, next := j.stops[n], j.stops[n + 1];
    && Suits(j.op, stop.pc) && !stop.pc.Finished?
    && var after := Act(stop.state, j.key, j.op, stop.pc);
       next.pc == after.pc && Undisturbed(after.state, next.state, j.key)
  }

  /** A path of the operation's steps from its beginning, in good order where it stands. */
  ghost predicate Path(j: Journey) {
    && j.stops != [] && j.stops[0] == Stop(Lock(j.from, j.key), Ready)
    && (forall n :: 0 <= n < |j.stops| - 1 ==> Leg(j, n))
    && Good(Last(j).state) && Fits(j.from, Last(j).state, j.key, j.op, Last(j).pc)
  }

  /** The operation stands at its last stop. */
  ghost predicate At(j: Journey, s: State, pc: Pc) {
    Path(j) && Last(j) == Stop(s, pc)
  }

  /** The operation has run the code from its last stop to the next await, or to its end. */
  ghost predicate Ran(j: Journey, s: State, pc: Pc) {
    Path(j) && !Last(j).pc.Finished? && Act(Last(j).state, j.key, j.op, Last(j).pc) == After(s, pc)
  }

  lemma RanOk(j: Journey, s: State, pc: Pc)
    requires Ran(j, s, pc)
    ensures Good(s) && s.locked == Last(j).state.locked && Fits(j.from, s, j.key, j.op, pc)
  {
    ActOk(j.from, Last(j).state, j.key, j.op, Last(j).pc, j.key);
  }

  function Extended(j: Journey, s: State, pc: Pc): Journey {
    j.(stops := j.stops + [Stop(s, pc)])
  }

  lemma ExtendedIsPath(j: Journey, s: State, pc: Pc, t: State)
    requires Ran(j, s, pc) && Good(t) && Undisturbed(s, t, j.key) && j.key in t.locked
    ensures At(Extended(j, t, pc), t, pc)
  {
    RanOk(j, s, pc);
    FitsAcross(j.from, s, t, j.key, j.op, pc);
    var longer := Extended(j, t, pc);
    forall n | 0 <= n < |longer.stops| - 1 ensures Leg(longer, n) {
      assert n + 1 < |j.stops| ==> Leg(j, n);
    }
  }

  /** The whole of an operation: a path of its steps from the state it began in to the state and the
      answer it ends with, its promises kept. */
  ghost predicate Served(j: Journey, from: State, t: State, key: Key, op: Operation, outcome: Outcome) {
    && j.from == from && j.key == key && j.op == op
    && (exists s :: Ran(j, s, Finished(outcome)) && t == Unlock(s, key))
    && Leaves(from, t, key, op, outcome)
  }

  lemma ServedOnce(j: Journey, s: State, outcome: Outcome)
    requires Ran(j, s, Finished(outcome))
    ensures Good(Unlock(s, j.key)) && Served(j, j.from, Unlock(s, j.key), j.key, j.op, outcome)
  {
    RanOk(j, s, Finished(outcome));
    UnlockGood(s, j.key);
    LeavesAcross(j.from, s, Unlock(s, j.key), j.key, j.op, outcome);
  }

  /** How the `try` block of a connect ends; `holding` says whether `handle` is still set. */
  datatype StartUp = Done | Failed(isError: bool, holding: bool)

  function EndOf(calls: ConnectCalls): StartUp {
    if calls.create.Threw? then Failed(calls.create.isError, false)
    else match calls.health
      case HealthThrew(isError) => Failed(isError, true)
      case Unhealthy =>
        if calls.dispose.Threw? then Failed(calls.dispose.isError, false)
        else if calls.projection.Threw? then Failed(calls.projection.isError, false) else Done
      case Healthy =>
        if calls.now.Threw? then Failed(calls.now.isError, true)
        else if calls.projection.Threw? then Failed(calls.projection.isError, true) else Done
  }

  /** What the `try` block leaves: the operation at its end, or what it did since its last stop. */
  ghost predicate Tried(j: Journey, s: State, calls: ConnectCalls, end: StartUp, handle: Handle) {
    if end == Done then Ran(j, s, Finished(Resolved))
    else if j.stops == [] then false
    else if end.holding then
      && At(j, Last(j).state, Checking(handle))
      && s == if DisposesListed(calls) then List(Last(j).state, j.key, handle) else Last(j).state
    else if calls.create.Threw? then At(j, s, Creating)
    else
      && At(j, Last(j).state, Withdrawing)
      && s == if calls.dispose.Threw? then Last(j).state else SetStatus(Last(j).state, j.key, Error)
  }

  class Runtime {
    var handles: map<Key, Handle>
    var statuses: map<Key, Status>
    var nextHandle: nat
    ghost var books: State

    /** The books agree with the fields. */
    ghost predicate Synced()
      reads this
    {
      books.handles == handles && books.statuses == statuses && books.nextHandle == nextHandle
    }

    ghost predicate Valid()
      reads this
    {
      Synced() && Good(books)
    }

    constructor ()
      ensures Valid() && books == NOTHING
    {
      handles, statuses, nextHandle, books := map[], map[], 0, NOTHING;
    }

    /** An await.  What ran since the last one must be the operation's code up to here.  Operations
        of other keys may run meanwhile, those of this key wait for its lock: `AwaitsUndisturbed`
        shows that in every run no more happens to the key than this contract allows. */
    method Await(ghost j: Journey, ghost pc: Pc) returns (ghost next: Journey)
      requires Synced() && Ran(j, books, pc)
      modifies this
      ensures Valid() && Undisturbed(old(books), books, j.key)
      ensures next == Extended(j, books, pc) && At(next, books, pc)
    {
      RanOk(j, books, pc);
      next := Extended(j, books, pc);
      ExtendedIsPath(j, books, pc, books);
    }

    /** Takes the key's lock. */
    ghost method Enter(key: Key, op: Operation) returns (j: Journey)
      requires Valid() && key !in books.locked
      modifies this`books
      ensures Valid() && books == Lock(old(books), key)
      ensures At(j, books, Ready) && j.from == old(books) && j.key == key && j.op == op
    {
      IdleAtRest(books, key);
      LockGood(books, key);
      j := Journey(books, key, op, [Stop(Lock(books, key), Ready)]);
      books := Lock(books, key);
    }

    /** Leaves it once the operation has settled. */
    ghost method Exit(j: Journey, outcome: Outcome)
      requires Synced() && Ran(j, books, Finished(outcome))
      modifies this`books
      ensures Valid() && j.key !in books.locked && Served(j, j.from, books, j.key, j.op, outcome)
    {
      ServedOnce(j, books, outcome);
      books := Unlock(books, j.key);
    }

    /** Sets the key's status. */
    method PutStatus(key: Key, status: Status)
      requires Synced()
      modifies this`statuses, this`books
      ensures Synced() && books == SetStatus(old(books), key, status)
    {
      statuses := statuses[key := status];
      books := SetStatus(books, key, status);
    }

    /** Lists the handle in hand. */
    method ListHandle(key: Key, handle: Handle)
      requires Synced()
      modifies this`handles, this`statuses, this`books
      ensures Synced() && books == List(old(books), key, handle)
    {
      handles := handles[key := handle];
      statuses := statuses[key := Connected];
      books := List(books, key, handle);
    }

    /** Deletes both entries of the key. */
    method DeleteEntries(key: Key)
      requires Synced()
      modifies this`handles, this`statuses, this`books
      ensures Synced() && books == Clear(old(books), key)
    {
      handles := handles - {key};
      statuses := statuses - {key};
      books := Clear(books, key);
    }

    /** `_disconnectActive`: the handle is disposed if there is one; whatever that call does, both
        entries of the key go. */
    method DisconnectActive(ghost before: Journey, key: Key, ghost op: Operation, dispose: Call)
      returns (outcome: Outcome, wasActive: bool, ghost j: Journey)
      requires Valid() && Disconnects(op) && OldDispose(op) == dispose && before.key == key && before.op == op
      requires if op.Connect? then At(before, books, Recorded) && op.calls.record.Returned?
               else At(before, books, Ready)
      modifies this
      ensures Synced() && j.from == before.from && j.key == key && j.op == op
      ensures wasActive == (key in old(handles))
      ensures outcome == if wasActive then Ending(dispose) else Resolved
      ensures Disconnected(old(books), books, key)
      ensures Ran(j, books, if outcome.Rejected? || op.Disconnect? then Finished(outcome) else Cleared)
    {
      j := before;
      wasActive := key in handles;
      outcome := Resolved;
      if wasActive {
        books := CallDispose(books, key);
        j := Await(j, Disposing);
        outcome := Ending(dispose);
      }
      ClearedKey(old(books), books, key);
      DeleteEntries(key);
    }

    /** `connect`: the operation under the key's lock. */
    method Connect(key: Key, calls: ConnectCalls) returns (outcome: Outcome, ghost j: Journey)
      requires Valid() && key !in books.locked
      modifies this
      ensures Valid() && key !in books.locked
      ensures Served(j, old(books), books, key, Operation.Connect(calls), outcome)
    {
      j := Enter(key, Operation.Connect(calls));
      j := Await(j, Recorded);
      outcome := Ending(calls.record);
      if calls.record.Returned? {
        outcome, j := Reconnect(j, key, calls);
      }
      Exit(j, outcome);
    }

    /** A connect from the record on: the old connection goes, then the new one is made. */
    method Reconnect(ghost before: Journey, key: Key, calls: ConnectCalls) returns (outcome: Outcome, ghost j: Journey)
      requires Valid() && At(before, books, Recorded) && calls.record.Returned?
      requires before.key == key && before.op == Operation.Connect(calls)
      modifies this
      ensures Synced() && Ran(j, books, Finished(outcome))
      ensures j.from == before.from && j.key == key && j.op == before.op
    {
      var wasActive;
      outcome, wasActive, j := DisconnectActive(before, key, before.op, calls.oldDispose);
      if outcome.Rejected? {
        return;
      }
      j := Await(j, Cleared);
      if calls.lookup.Threw? {
        outcome := Ending(calls.lookup);
        return;
      }
      PutStatus(key, Connecting);
      j := Await(j, Creating);
      var end, handle;
      end, handle, j := TryStart(j, key, calls);
      if end == Done {
        outcome := Resolved;
        return;
      }
      outcome, j := Recover(j, key, calls, end, handle);
    }

    /** The `try` block of a connect, from the answer of `create` to the listed connection. */
    method TryStart(ghost before: Journey, key: Key, calls: ConnectCalls)
      returns (end: StartUp, handle: Handle, ghost j: Journey)
      requires Valid() && At(before, books, Creating) && before.key == key && before.op == Operation.Connect(calls)
      modifies this
      ensures Synced() && j.from == before.from && j.key == key && j.op == before.op
      ensures end == EndOf(calls) && Tried(j, books, calls, end, handle)
    {
      j := before;
      handle := nextHandle;
      if calls.create.Threw? {
        end := Failed(calls.create.isError, false);
        return;
      }
      nextHandle := nextHandle + 1;
      books := Create(books, key);
      j := Await(j, Checking(handle));
      end, j := Judge(j, key, calls, handle);
    }

    /** The answer of the new handle's health check and what follows it. */
    method Judge(ghost before: Journey, key: Key, calls: ConnectCalls, handle: Handle)
      returns (end: StartUp, ghost j: Journey)
      requires Valid() && At(before, books, Checking(handle)) && before.key == key
          && before.op == Operation.Connect(calls)
      requires calls.create.Returned?
      modifies this
      ensures Synced() && j.from == before.from && j.key == key && j.op == before.op
      ensures end == EndOf(calls) && Tried(j, books, calls, end, handle)
    {
      j := before;
      match calls.health {
        case HealthThrew(isError) => end := Failed(isError, true);
        case Unhealthy =>
          books := Drop(books, key, handle);
          j := Await(j, Withdrawing);
          if calls.dispose.Threw? {
            end := Failed(calls.dispose.isError, false);
            return;
          }
          PutStatus(key, Error);
          end := if calls.projection.Threw? then Failed(calls.projection.isError, false) else Done;
        case Healthy =>
          if calls.now.Threw? {
            end := Failed(calls.now.isError, true);
            return;
          }
          ListHandle(key, handle);
          end := if calls.projection.Threw? then Failed(calls.projection.isError, true) else Done;
      }
    }

    /** The `catch` block: the new handle is disposed if it is still set, and the failure becomes
        the key's status, unless it is not an Error. */
    method Recover(ghost before: Journey, key: Key, calls: ConnectCalls, failure: StartUp, handle: Handle)
      returns (outcome: Outcome, ghost j: Journey)
      requires Synced() && before.key == key && before.op == Operation.Connect(calls)
      requires failure.Failed? && failure == EndOf(calls) && Tried(before, books, calls, failure, handle)
      modifies this
      ensures Synced() && j.from == before.from && j.key == key && j.op == before.op
      ensures Ran(j, books, Finished(outcome))
      ensures outcome == if failure.isError || (failure.holding && calls.dispose.Threw?) then Ending(calls.projection)
                         else Rejected(false)
    {
      j := before;
      var isError := failure.isError;
      if failure.holding {
        j := Cleanup(j, key, calls, failure, handle);
        isError := isError || calls.dispose.Threw?;
      }
      if !isError {
        books := Abandon(books, key);
        outcome := Rejected(false);
        return;
      }
      PutStatus(key, Error);
      outcome := Ending(calls.projection);
    }

    /** The cleanup call on the new handle, and its await. */
    method Cleanup(ghost before: Journey, key: Key, calls: ConnectCalls, failure: StartUp, handle: Handle)
      returns (ghost j: Journey)
      requires Synced() && before.key == key && before.op == Operation.Connect(calls)
      requires failure.Failed? && failure == EndOf(calls) && failure.holding
          && Tried(before, books, calls, failure, handle)
      modifies this
      ensures Synced() && j.from == before.from && j.key == key && j.op == before.op
      ensures j.stops != [] && At(j, Last(j).state, Cleaning(failure.isError, DisposesListed(calls)))
      ensures books == if DisposesListed(calls) then Double(Last(j).state, key) else Last(j).state
    {
      ghost var listed := DisposesListed(calls);
      books := if listed then CallDispose(books, key) else Drop(books, key, handle);
      j := Await(before, Cleaning(failure.isError, listed));
      books := if listed then Double(books, key) else books;
    }

    /** `disconnect`. */
    method Disconnect(key: Key, dispose: Call) returns (outcome: Outcome, wasActive: bool, ghost j: Journey)
      requires Valid() && key !in books.locked
      modifies this
      ensures Valid() && key !in books.locked
      ensures Served(j, old(books), books, key, Operation.Disconnect(dispose), outcome)
      ensures wasActive == (key in old(handles))
    {
      j := Enter(key, Operation.Disconnect(dispose));
      outcome, wasActive, j := DisconnectActive(j, key, Operation.Disconnect(dispose), dispose);
      Exit(j, outcome);
    }

    /** `updateConnector` and `deleteConnector`: the connection goes first, then the repository is
        asked, unless the dispose call failed. */
    method Replace(key: Key, dispose: Call, repository: Call) returns (outcome: Outcome, ghost j: Journey)
      requires Valid() && key !in books.locked
      modifies this
      ensures Valid() && key !in books.locked
      ensures Served(j, old(books), books, key, Operation.Replace(dispose, repository), outcome)
    {
      j := Enter(key, Operation.Replace(dispose, repository));
      var wasActive;
      outcome, wasActive, j := DisconnectActive(j, key, Operation.Replace(dispose, repository), dispose);
      if outcome == Resolved {
        j := Await(j, Cleared);
        j := Await(j, Asking);
        outcome := Ending(repository);
      }
      Exit(j, outcome);
    }

    /** `health`: the status of a connected key follows the check; a failed call changes nothing. */
    method Health(key: Key, record: Call, check: HealthCall, projection: Call)
      returns (outcome: Outcome, ghost j: Journey)
      requires Valid() && key !in books.locked
      modifies this
      ensures Valid() && key !in books.locked
      ensures Served(j, old(books), books, key, Operation.Health(record, check, projection), outcome)
    {
      j := Enter(key, Operation.Health(record, check, projection));
      j := Await(j, Recorded);
      outcome := Ending(record);
      if record.Returned? {
        outcome := Ending(projection);
        if key in handles {
          j := Await(j, Asking);
          if check.HealthThrew? {
            outcome := Rejected(check.isError);
          } else {
            PutStatus(key, if check.Healthy? then Connected else Error);
          }
        }
      }
      Exit(j, outcome);
    }

    /** `access`: refused without a connection, and never a change of state. */
    method Access(key: Key, record: Call, known: bool, access: Call) returns (outcome: Outcome, ghost j: Journey)
      requires Valid() && key !in books.locked
      modifies this
      ensures Valid() && key !in books.locked
      ensures Served(j, old(books), books, key, Operation.Access(record, known, access), outcome)
    {
      j := Enter(key, Operation.Access(record, known, access));
      j := Await(j, Recorded);
      outcome := Ending(record);
      if record.Returned? {
        if key !in handles || !known {
          outcome := Rejected(true);
        } else {
          j := Await(j, Asking);
          outcome := Ending(access);
        }
      }
      Exit(j, outcome);
    }
  }
}
