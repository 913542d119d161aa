/** The operations of the connector runtime as they run under their key's lock, cut at every await:
    from where an operation stands, the code up to the next await is one step.  Any external call is
    free to fail. */
module ConnectorSteps {
  import opened ConnectorBooks

  /** How an external call ends: it returns, or throws an Error or some other value. */
  datatype Call = Returned | Threw(isError: bool)

  /** A health check; a result that does not normalise counts as thrown. */
  datatype HealthCall = Healthy | Unhealthy | HealthThrew(isError: bool)

  /** How the calls of one connect turn out.  `dispose` is the new handle's; the projection of the
      public record is a pure function, so its outcome does not change within one connect. */
  datatype ConnectCalls = ConnectCalls(record: Call, oldDispose: Call, lookup: Call, create: Call, health: HealthCall,
                                       now: Call, dispose: Call, projection: Call)

  datatype Outcome = Resolved | Rejected(isError: bool)

  /** An operation and how its external calls turn out.  Replacing is updating or deleting. */
  datatype Operation =
    | Connect(calls: ConnectCalls)
    | Disconnect(dispose: Call)
    | Replace(dispose: Call, repository: Call)
    | Health(record: Call, check: HealthCall, projection: Call)
    | Access(record: Call, known: bool, access: Call)

  /** Where an operation stands: not begun, awaiting the record, the old handle's `dispose`, the
      end of `_disconnectActive`, `create`, the new handle's health, its `dispose` for being
      unhealthy or for the cleanup, or the last call; or settled. */
  datatype Pc = Ready | Recorded | Disposing | Cleared | Creating | Checking(h: Handle) | Withdrawing
              | Cleaning(isError: bool, listed: bool) | Asking | Finished(outcome: Outcome)

  function Ending(call: Call): Outcome {
    if call.Threw? then Rejected(call.isError) else Resolved
  }

  /** Something other than an Error is thrown while the key is CONNECTING and nothing turns it
      into an Error: then no status is set. */
  predicate LeavesConnecting(calls: ConnectCalls) {
    || calls.create == Threw(false)
    || (calls.create.Returned? && calls.health == HealthThrew(false) && calls.dispose.Returned?)
    || (calls.create.Returned? && calls.health.Unhealthy? && calls.dispose == Threw(false))
    || (calls.create.Returned? && calls.health.Healthy? && calls.now == Threw(false) && calls.dispose.Returned?)
  }

  /** The connection is listed and its record then fails to project: the cleanup disposes it. */
  predicate DisposesListed(calls: ConnectCalls) {
    calls.create.Returned? && calls.health.Healthy? && calls.now.Returned? && calls.projection.Threw?
  }

  predicate Succeeds(calls: ConnectCalls) {
    calls.create.Returned? && calls.health.Healthy? && calls.now.Returned? && calls.projection.Returned?
  }

  /** The connect gets as far as setting CONNECTING. */
  predicate Starts(calls: ConnectCalls, wasActive: bool) {
    calls.record.Returned? && (wasActive ==> calls.oldDispose.Returned?) && calls.lookup.Returned?
  }

  // --- the code between two awaits ---

  datatype After = After(state: State, pc: Pc)

  predicate Suits(op: Operation, pc: Pc) {
    match pc
    case Ready | Finished(_) => true
    case Recorded => op.Connect? || op.Health? || op.Access?
    case Disposing => op.Connect? || op.Disconnect? || op.Replace?
    case Cleared => op.Connect? || op.Replace?
    case Creating | Checking(_) | Withdrawing | Cleaning(_, _) => op.Connect?
    case Asking => op.Replace? || op.Health? || op.Access?
  }

  predicate Disconnects(op: Operation) {
    op.Connect? || op.Disconnect? || op.Replace?
  }

  function OldDispose(op: Operation): Call
    requires Disconnects(op)
  {
    match op
    case Connect(calls) => calls.oldDispose
    case Disconnect(dispose) => dispose
    case Replace(dispose, _) => dispose
  }

  /** Where an operation goes from the end of `_disconnectActive`. */
  function PastDispose(op: Operation, dispose: Call): Pc {
    if dispose.Threw? || op.Disconnect? then Finished(Ending(dispose)) else Cleared
  }

  /** `_disconnectActive` up to the `dispose` call, or all of it if there is no handle. */
  function BeginDispose(s: State, key: Key, op: Operation): After {
    if key in s.handles then After(CallDispose(s, key), Disposing) else After(Clear(s, key), PastDispose(op, Returned))
  }

  function AfterRecord(s: State, key: Key, op: Operation): After
    requires op.Connect? || op.Health? || op.Access?
  {
    match op
    case Connect(calls) =>
      if calls.record.Threw? then After(s, Finished(Ending(calls.record))) else BeginDispose(s, key, op)
    case Health(record, _, projection) =>
      After(s, if record.Threw? then Finished(Ending(record)) else if key in s.handles then Asking
               else Finished(Ending(projection)))
    case Access(record, known, _) =>
      After(s, if record.Threw? then Finished(Ending(record)) else if key in s.handles && known then Asking
               else Finished(Rejected(true)))
  }

  function AfterClear(s: State, key: Key, op: Operation): After {
    match op
    case Connect(calls) =>
      if calls.lookup.Threw? then After(s, Finished(Ending(calls.lookup)))
      else After(SetStatus(s, key, Connecting), Creating)
    case _ => After(s, Asking)
  }

  /** The end of the `catch` block: an Error becomes the status, any other value is thrown on. */
  function Fail(s: State, key: Key, calls: ConnectCalls, isError: bool): After {
    if isError then After(SetStatus(s, key, Error), Finished(Ending(calls.projection)))
    else After(Abandon(s, key), Finished(Rejected(false)))
  }

  function AfterCreate(s: State, key: Key, calls: ConnectCalls): After {
    if calls.create.Threw? then Fail(s, key, calls, calls.create.isError)
    else After(Create(s, key), Checking(s.nextHandle))
  }

  function AfterCheck(s: State, key: Key, calls: ConnectCalls, h: Handle): After {
    match calls.health
    case HealthThrew(isError) => After(Drop(s, key, h), Cleaning(isError, false))
    case Unhealthy => After(Drop(s, key, h), Withdrawing)
    case Healthy =>
      if calls.now.Threw? then After(Drop(s, key, h), Cleaning(calls.now.isError, false))
      else
        var listed := List(s, key, h);
        if calls.projection.Threw? then After(CallDispose(listed, key), Cleaning(calls.projection.isError, true))
        else After(listed, Finished(Resolved))
  }

  function AfterWithdrawal(s: State, key: Key, calls: ConnectCalls): After {
    if calls.dispose.Threw? then Fail(s, key, calls, calls.dispose.isError)
    else After(SetStatus(s, key, Error), Finished(Ending(calls.projection)))
  }

  function AfterCleanup(s: State, key: Key, calls: ConnectCalls, isError: bool, listed: bool): After {
    Fail(if listed then Double(s, key) else s, key, calls, isError || calls.dispose.Threw?)
  }

  function AfterAnswer(s: State, key: Key, op: Operation): After
    requires op.Replace? || op.Health? || op.Access?
  {
    match op
    case Replace(_, repository) => After(s, Finished(Ending(repository)))
    case Health(_, check, projection) =>
      if check.HealthThrew? then After(s, Finished(Rejected(check.isError)))
      else After(SetStatus(s, key, if check.Healthy? then Connected else Error), Finished(Ending(projection)))
    case Access(_, _, access) => After(s, Finished(Ending(access)))
  }

  /** The code an operation runs from one await to the next. */
  function Act(s: State, key: Key, op: Operation, pc: Pc): After
    requires Suits(op, pc) && !pc.Finished?
  {
    match pc
    case Ready => if op.Disconnect? || op.Replace? then BeginDispose(s, key, op) else After(s, Recorded)
    case Recorded => AfterRecord(s, key, op)
    case Disposing => After(Clear(s, key), PastDispose(op, OldDispose(op)))
    case Cleared => AfterClear(s, key, op)
    case Creating => AfterCreate(s, key, op.calls)
    case Checking(h) => AfterCheck(s, key, op.calls, h)
    case Withdrawing => AfterWithdrawal(s, key, op.calls)
    case Cleaning(isError, listed) => AfterCleanup(s, key, op.calls, isError, listed)
    case Asking => AfterAnswer(s, key, op)
  }

  // --- what each operation promises ---

  /** The key's entries are gone, its flags forgotten, and the handle it had is disposed once more. */
  ghost predicate Disconnected(s: State, t: State, key: Key) {
    key !in t.handles && key !in t.statuses && key !in t.stuck && key !in t.doubled && Replaced(s, t, key)
  }

  /** The handle the key had is in no Map, disposed once or, if it was disposed while listed, twice. */
  ghost predicate Replaced(s: State, t: State, key: Key) {
    key in s.handles ==>
      && var h := s.handles[key];
      h in t.places && t.places[h] == Nowhere(key)
      && h in t.disposals && t.disposals[h] == if key in s.doubled then 2 else 1
  }

  /** The status a connect that started leaves. */
  function FinalStatus(calls: ConnectCalls): Status {
    if Succeeds(calls) then Connected
    else if LeavesConnecting(calls) then Connecting
    else if DisposesListed(calls) && calls.projection == Threw(false) && calls.dispose.Returned? then Connected
    else Error
  }

  /** Why a connect that does not start is rejected: the first call of three that threw. */
  function Refusal(calls: ConnectCalls, wasActive: bool): Outcome {
    if calls.record.Threw? then Ending(calls.record)
    else if wasActive && calls.oldDispose.Threw? then Ending(calls.oldDispose)
    else Ending(calls.lookup)
  }

  /** What a connect makes of its key, call outcomes in, state and answer out. */
  ghost predicate ConnectLeaves(s: State, t: State, key: Key, calls: ConnectCalls, outcome: Outcome) {
    if calls.record.Threw? then SameKey(s, t, key) && outcome == Refusal(calls, key in s.handles)
    else if !Starts(calls, key in s.handles) then Disconnected(s, t, key) && outcome == Refusal(calls, key in s.handles)
    else
      && Replaced(s, t, key)
      && (key in t.handles <==> Succeeds(calls) || DisposesListed(calls))
      && (key in t.handles ==> t.handles[key] >= s.nextHandle)
      && key in t.statuses && t.statuses[key] == FinalStatus(calls)
      && (key in t.stuck <==> LeavesConnecting(calls))
      && (key in t.doubled <==> DisposesListed(calls))
      && outcome == if LeavesConnecting(calls) then Rejected(false) else Ending(calls.projection)
  }

  /** A disconnect answers with the `dispose` call of the handle there was. */
  function DisposeEnding(s: State, key: Key, dispose: Call): Outcome {
    if key in s.handles then Ending(dispose) else Resolved
  }

  /** A replacement asks the repository unless that call failed. */
  function ReplaceEnding(s: State, key: Key, dispose: Call, repository: Call): Outcome {
    if key in s.handles && dispose.Threw? then Ending(dispose) else Ending(repository)
  }

  /** The status of a connected key follows the check; otherwise nothing changes. */
  ghost predicate HealthLeaves(s: State, t: State, key: Key, record: Call, check: HealthCall) {
    if record.Threw? || key !in s.handles || check.HealthThrew? then SameKey(s, t, key)
    else
      && key in t.handles && t.handles[key] == s.handles[key] && (key in t.doubled <==> key in s.doubled)
      && key in t.statuses && t.statuses[key] == if check.Healthy? then Connected else Error
  }

  function HealthEnding(s: State, key: Key, record: Call, check: HealthCall, projection: Call): Outcome {
    if record.Threw? then Ending(record)
    else if key in s.handles && check.HealthThrew? then Rejected(check.isError) else Ending(projection)
  }

  function AccessEnding(s: State, key: Key, record: Call, known: bool, access: Call): Outcome {
    if record.Threw? then Ending(record) else if key !in s.handles || !known then Rejected(true) else Ending(access)
  }

  /** What an operation begun at `s` promises about the state and the answer it ends with. */
  ghost predicate Leaves(s: State, t: State, key: Key, op: Operation, outcome: Outcome) {
    match op
    case Connect(calls) => ConnectLeaves(s, t, key, calls, outcome)
    case Disconnect(dispose) => Disconnected(s, t, key) && outcome == DisposeEnding(s, key, dispose)
    case Replace(dispose, repository) =>
      Disconnected(s, t, key) && outcome == ReplaceEnding(s, key, dispose, repository)
    case Health(record, check, projection) =>
      HealthLeaves(s, t, key, record, check) && outcome == HealthEnding(s, key, record, check, projection)
    case Access(record, known, access) => SameKey(s, t, key) && outcome == AccessEnding(s, key, record, known, access)
  }

  /** The calls an operation's answer hangs on, in order; a refusal of the runtime's own is an Error
      thrown.  A connect under way turns every failure into a status and answers with the record,
      unless something other than an Error is left over. */
  function Hurdles(op: Operation, active: bool): seq<Call> {
    match op
    case Connect(calls) =>
      [calls.record] + (if active then [calls.oldDispose] else [])
      + [calls.lookup, if LeavesConnecting(calls) then Threw(false) else calls.projection]
    case Disconnect(dispose) => if active then [dispose] else []
    case Replace(dispose, repository) => if active then [dispose, repository] else [repository]
    case Health(record, check, projection) =>
      var checked := if check.HealthThrew? then Threw(check.isError) else Returned;
      if active then [record, checked, projection] else [record, projection]
    case Access(record, known, access) => [record, if active && known then access else Threw(true)]
  }

  /** The first that throws, or their number. */
  function FirstThrown(hurdles: seq<Call>): (i: nat)
    ensures i <= |hurdles| && (i < |hurdles| ==> hurdles[i].Threw?)
    ensures forall j :: 0 <= j < i ==> hurdles[j] == Returned
  {
    if hurdles == [] || hurdles[0].Threw? then 0 else 1 + FirstThrown(hurdles[1..])
  }

  /** The caller sees what the first failing call threw, and an answer only if none fails. */
  ghost predicate Answers(hurdles: seq<Call>, outcome: Outcome) {
    match outcome
    case Resolved => forall i :: 0 <= i < |hurdles| ==> hurdles[i] == Returned
    case Rejected(isError) =>
      exists i :: 0 <= i < |hurdles| && hurdles[i] == Threw(isError)
                  && forall j :: 0 <= j < i ==> hurdles[j] == Returned
  }

  /** An operation ends as its calls do. */
  lemma EndsAsItsCalls(s: State, t: State, key: Key, op: Operation, outcome: Outcome)
    requires Leaves(s, t, key, op, outcome)
    ensures Answers(Hurdles(op, key in s.handles), outcome)
  {
    var hurdles := Hurdles(op, key in s.handles);
    var i := FirstThrown(hurdles);
    match op {
      case Connect(calls) =>
        assert hurdles[0] == calls.record && hurdles[|hurdles| - 2] == calls.lookup;
        assert hurdles[|hurdles| - 1] == if LeavesConnecting(calls) then Threw(false) else calls.projection;
        assert key in s.handles ==> hurdles[1] == calls.oldDispose;
      case Disconnect(dispose) =>
      case Replace(dispose, repository) =>
        assert hurdles[|hurdles| - 1] == repository;
        assert key in s.handles ==> hurdles[0] == dispose;
      case Health(record, _, projection) =>
        assert hurdles[0] == record && hurdles[|hurdles| - 1] == projection;
        assert key in s.handles ==> hurdles[1].Threw? == op.check.HealthThrew?;
      case Access(record, known, access) =>
        assert hurdles[0] == record && hurdles[1] == if key in s.handles && known then access else Threw(true);
    }
    assert outcome == if i < |hurdles| then Ending(hurdles[i]) else Resolved;
  }

  // --- what holds of an operation at each await ---

  /** The key has no handle, listed or in hand, and its status is this. */
  ghost predicate Blank(s: State, key: Key, status: Status) {
    key !in s.handles && key in s.statuses && s.statuses[key] == status && NothingFlying(s, key)
  }

  /** The connect has started, and what was there before is gone. */
  ghost predicate Started(from: State, s: State, key: Key, calls: ConnectCalls) {
    Starts(calls, key in from.handles) && Replaced(from, s, key) && key !in s.stuck && key !in s.doubled
  }

  /** The old handle's `dispose` has been called, and nothing else has changed. */
  ghost predicate BeingDisposed(from: State, s: State, key: Key) {
    && key in from.handles && SameKey(from, s, key) && NothingFlying(s, key)
    && s.handles[key] in s.disposals && s.disposals[s.handles[key]] == if key in s.doubled then 2 else 1
  }

  /** The `catch` block calls `dispose` for this failure. */
  predicate CleansUp(calls: ConnectCalls, isError: bool, listed: bool) {
    && calls.create.Returned? && (listed <==> DisposesListed(calls))
    && match calls.health
       case HealthThrew(e) => isError == e
       case Unhealthy => false
       case Healthy => if calls.now.Threw? then isError == calls.now.isError
                       else calls.projection.Threw? && isError == calls.projection.isError
  }

  ghost predicate CleaningFits(from: State, s: State, key: Key, calls: ConnectCalls, isError: bool, listed: bool) {
    && Started(from, s, key, calls) && CleansUp(calls, isError, listed)
    && if listed then
         && key in s.handles && from.nextHandle <= s.handles[key] && NothingFlying(s, key)
         && s.handles[key] in s.disposals && s.disposals[s.handles[key]] == 1
         && key in s.statuses && s.statuses[key] == Connected
       else Blank(s, key, Connecting)
  }

  ghost predicate CheckingFits(from: State, s: State, key: Key, calls: ConnectCalls, h: Handle) {
    && Started(from, s, key, calls) && calls.create.Returned?
    && key !in s.handles && key in s.statuses && s.statuses[key] == Connecting
    && from.nextHandle <= h && h in s.places && s.places[h] == Flying(key) && OnlyFlying(s, key, h)
  }

  ghost predicate AskingFits(from: State, s: State, key: Key, op: Operation)
    requires Suits(op, Asking)
  {
    && AtRest(s, key)
    && match op
       case Replace(dispose, _) => Disconnected(from, s, key) && (key in from.handles ==> dispose.Returned?)
       case Health(record, _, _) => SameKey(from, s, key) && key in s.handles && record.Returned?
       case Access(record, known, _) => SameKey(from, s, key) && key in s.handles && record.Returned? && known
  }

  /** An operation of `key` begun at `from` stands at `pc`. */
  ghost predicate Fits(from: State, s: State, key: Key, op: Operation, pc: Pc) {
    && key in s.locked && from.nextHandle <= s.nextHandle && Suits(op, pc)
    && match pc
       case Ready | Recorded => AtRest(s, key) && SameKey(from, s, key)
       case Disposing => BeingDisposed(from, s, key) && (op.Connect? ==> op.calls.record.Returned?)
       case Cleared =>
         && Disconnected(from, s, key) && NothingFlying(s, key)
         && (key in from.handles ==> OldDispose(op).Returned?) && (op.Connect? ==> op.calls.record.Returned?)
       case Creating => Started(from, s, key, op.calls) && Blank(s, key, Connecting)
       case Checking(h) => CheckingFits(from, s, key, op.calls, h)
       case Withdrawing =>
         && Started(from, s, key, op.calls) && Blank(s, key, Connecting)
         && op.calls.create.Returned? && op.calls.health.Unhealthy?
       case Cleaning(isError, listed) => CleaningFits(from, s, key, op.calls, isError, listed)
       case Asking => AskingFits(from, s, key, op)
       case Finished(outcome) => AtRest(s, key) && Leaves(from, s, key, op, outcome)
  }

  lemma FlyingAcross(s: State, t: State, key: Key)
    requires Undisturbed(s, t, key)
    ensures NothingFlying(s, key) ==> NothingFlying(t, key)
    ensures forall h :: OnlyFlying(s, key, h) ==> OnlyFlying(t, key, h)
  {
    forall h | h in t.places && t.places[h] == Flying(key) ensures h in s.places && s.places[h] == Flying(key) {
      assert Mine(t, h, key) && SameHandle(s, t, h);
    }
  }

  lemma ListedAcross(s: State, t: State, key: Key)
    requires Good(s) && Undisturbed(s, t, key) && key in s.handles
    ensures SameHandle(s, t, s.handles[key])
  {
    assert HandleListed(s, key) && Mine(s, s.handles[key], key);
  }

  lemma ReplacedAcross(from: State, s: State, t: State, key: Key)
    requires Replaced(from, s, key) && Undisturbed(s, t, key)
    ensures Replaced(from, t, key)
  {
    if key in from.handles {
      assert Mine(s, from.handles[key], key) && SameHandle(s, t, from.handles[key]);
    }
  }

  lemma LeavesAcross(from: State, s: State, t: State, key: Key, op: Operation, outcome: Outcome)
    requires Leaves(from, s, key, op, outcome) && Undisturbed(s, t, key)
    ensures Leaves(from, t, key, op, outcome)
  {
    if Replaced(from, s, key) {
      ReplacedAcross(from, s, t, key);
    }
  }

  /** While an operation awaits, what other keys do leaves it where it stands. */
  lemma FitsAcross(from: State, s: State, t: State, key: Key, op: Operation, pc: Pc)
    requires Good(s) && Fits(from, s, key, op, pc) && Undisturbed(s, t, key) && key in t.locked
    ensures Fits(from, t, key, op, pc)
  {
    FlyingAcross(s, t, key);
    if key in s.handles {
      ListedAcross(s, t, key);
    }
    if Replaced(from, s, key) {
      ReplacedAcross(from, s, t, key);
    }
    match pc {
      case Checking(h) => assert Mine(s, h, key) && SameHandle(s, t, h);
      case Finished(outcome) => LeavesAcross(from, s, t, key, op, outcome);
      case _ =>
    }
  }

  // --- one step ---

  /** A move keeps the books in order and spares the other key. */
  lemma Make(s: State, key: Key, move: Move, other: Key)
    requires Good(s) && key in s.locked && May(s, key, move)
    ensures Good(Moved(s, key, move)) && Moved(s, key, move).locked == s.locked
    ensures key != other ==> Undisturbed(s, Moved(s, key, move), other)
  {
    MoveKeepsGood(s, key, move);
    if key != other {
      MoveSpares(s, key, move, other);
    }
  }

  /** What a step gives: the books in order, the operation where it should be, another key spared. */
  ghost predicate Sound(from: State, s: State, key: Key, op: Operation, after: After, other: Key) {
    && Good(after.state) && after.state.locked == s.locked && Fits(from, after.state, key, op, after.pc)
    && (key != other ==> Undisturbed(s, after.state, other))
  }

  /** Clearing a key whose handle has been disposed closes the books on it. */
  lemma ClearedKey(from: State, s: State, key: Key)
    requires Good(s) && key in s.locked && SameKey(from, s, key) && NothingFlying(s, key) && MayClear(s, key)
    ensures Disconnected(from, Clear(s, key), key) && NothingFlying(Clear(s, key), key)
  {
    if key in s.handles {
      assert HandleListed(s, key);
    }
  }

  lemma BeginDisposeOk(from: State, s: State, key: Key, op: Operation, other: Key)
    requires Good(s) && key in s.locked && AtRest(s, key) && SameKey(from, s, key) && from.nextHandle <= s.nextHandle
    requires Disconnects(op) && (op.Connect? ==> op.calls.record.Returned?)
    ensures Sound(from, s, key, op, BeginDispose(s, key, op), other)
  {
    if key in s.handles {
      assert HandleListed(s, key);
      Make(s, key, Dispose, other);
    } else {
      ClearedKey(from, s, key);
      Make(s, key, DeleteEntries, other);
    }
  }

  /** Past `_disconnectActive`: settled with the failure of `dispose`, or on to what follows. */
  lemma PastDisposeFits(from: State, t: State, key: Key, op: Operation)
    requires key in t.locked && from.nextHandle <= t.nextHandle && Disconnected(from, t, key) && NothingFlying(t, key)
    requires Disconnects(op) && key in from.handles && (op.Connect? ==> op.calls.record.Returned?)
    ensures Fits(from, t, key, op, PastDispose(op, OldDispose(op)))
  {
  }

  lemma DisposingOk(from: State, s: State, key: Key, op: Operation, other: Key)
    requires Good(s) && Fits(from, s, key, op, Disposing)
    ensures Sound(from, s, key, op, Act(s, key, op, Disposing), other)
  {
    ClearedKey(from, s, key);
    Make(s, key, DeleteEntries, other);
    PastDisposeFits(from, Clear(s, key), key, op);
  }

  lemma RecordedOk(from: State, s: State, key: Key, op: Operation, other: Key)
    requires Good(s) && Fits(from, s, key, op, Recorded)
    ensures Sound(from, s, key, op, AfterRecord(s, key, op), other)
  {
    if op.Connect? && op.calls.record.Returned? {
      BeginDisposeOk(from, s, key, op, other);
    }
  }

  lemma ClearedOk(from: State, s: State, key: Key, op: Operation, other: Key)
    requires Good(s) && Fits(from, s, key, op, Cleared)
    ensures Sound(from, s, key, op, AfterClear(s, key, op), other)
  {
    if op.Connect? && op.calls.lookup.Returned? {
      Make(s, key, PutStatus(Connecting), other);
    }
  }

  /** A failed connect whose handle is in no Map: what the end of the `catch` block leaves. */
  lemma FailOk(from: State, s: State, key: Key, calls: ConnectCalls, isError: bool, other: Key)
    requires Good(s) && key in s.locked && from.nextHandle <= s.nextHandle
    requires Started(from, s, key, calls) && Blank(s, key, Connecting)
    requires !Succeeds(calls) && !DisposesListed(calls) && (LeavesConnecting(calls) <==> !isError)
    ensures Sound(from, s, key, Connect(calls), Fail(s, key, calls, isError), other)
  {
    if isError {
      Make(s, key, PutStatus(Error), other);
    } else {
      Make(s, key, Abandoning, other);
    }
  }

  lemma CreatingOk(from: State, s: State, key: Key, calls: ConnectCalls, other: Key)
    requires Good(s) && Fits(from, s, key, Connect(calls), Creating)
    ensures Sound(from, s, key, Connect(calls), AfterCreate(s, key, calls), other)
  {
    if calls.create.Threw? {
      FailOk(from, s, key, calls, calls.create.isError, other);
    } else {
      assert s.nextHandle !in s.places;
      Make(s, key, Created, other);
    }
  }

  /** The handle in hand is disposed: nothing of the connect is left but its status. */
  lemma DropOk(from: State, s: State, key: Key, calls: ConnectCalls, h: Handle, other: Key)
    requires Good(s) && Fits(from, s, key, Connect(calls), Checking(h))
    ensures Good(Drop(s, key, h)) && Drop(s, key, h).locked == s.locked
    ensures Started(from, Drop(s, key, h), key, calls) && Blank(Drop(s, key, h), key, Connecting)
    ensures key != other ==> Undisturbed(s, Drop(s, key, h), other)
  {
    Make(s, key, Dropped(h), other);
  }

  /** Listing it leaves nothing in hand. */
  lemma ListedIs(from: State, s: State, key: Key, calls: ConnectCalls, h: Handle, other: Key)
    requires Good(s) && Fits(from, s, key, Connect(calls), Checking(h))
    ensures var t := List(s, key, h);
            && Good(t) && t.locked == s.locked && Started(from, t, key, calls) && NothingFlying(t, key)
            && h in t.disposals && t.disposals[h] == 0 && (key != other ==> Undisturbed(s, t, other))
  {
    assert Accounted(s, h);
    Make(s, key, Listing(h), other);
  }

  /** The handle in hand is listed. */
  lemma ListOk(from: State, s: State, key: Key, calls: ConnectCalls, h: Handle, other: Key)
    requires Good(s) && Fits(from, s, key, Connect(calls), Checking(h)) && calls.health.Healthy? && calls.now.Returned?
    ensures Sound(from, s, key, Connect(calls), AfterCheck(s, key, calls, h), other)
  {
    var listed := List(s, key, h);
    ListedIs(from, s, key, calls, h, other);
    if calls.projection.Threw? {
      Make(listed, key, Dispose, other);
      if key != other {
        UndisturbedOn(s, listed, CallDispose(listed, key), other);
      }
    }
  }

  lemma CheckingOk(from: State, s: State, key: Key, calls: ConnectCalls, h: Handle, other: Key)
    requires Good(s) && Fits(from, s, key, Connect(calls), Checking(h))
    ensures Sound(from, s, key, Connect(calls), AfterCheck(s, key, calls, h), other)
  {
    if calls.health.Healthy? && calls.now.Returned? {
      ListOk(from, s, key, calls, h, other);
    } else {
      DropOk(from, s, key, calls, h, other);
    }
  }

  lemma WithdrawingOk(from: State, s: State, key: Key, calls: ConnectCalls, other: Key)
    requires Good(s) && Fits(from, s, key, Connect(calls), Withdrawing)
    ensures Sound(from, s, key, Connect(calls), AfterWithdrawal(s, key, calls), other)
  {
    if calls.dispose.Threw? {
      FailOk(from, s, key, calls, calls.dispose.isError, other);
    } else {
      Make(s, key, PutStatus(Error), other);
    }
  }

  /** The cleanup of a listed handle. */
  lemma CleaningListedOk(from: State, s: State, key: Key, calls: ConnectCalls, isError: bool, other: Key)
    requires Good(s) && Fits(from, s, key, Connect(calls), Cleaning(isError, true))
    ensures Sound(from, s, key, Connect(calls), AfterCleanup(s, key, calls, isError, true), other)
  {
    var doubled := Double(s, key);
    Make(s, key, Doubling, other);
    if isError || calls.dispose.Threw? {
      Make(doubled, key, PutStatus(Error), other);
      if key != other {
        UndisturbedOn(s, doubled, SetStatus(doubled, key, Error), other);
      }
    }
  }

  lemma CleaningOk(from: State, s: State, key: Key, calls: ConnectCalls, isError: bool, listed: bool, other: Key)
    requires Good(s) && Fits(from, s, key, Connect(calls), Cleaning(isError, listed))
    ensures Sound(from, s, key, Connect(calls), AfterCleanup(s, key, calls, isError, listed), other)
  {
    if listed {
      CleaningListedOk(from, s, key, calls, isError, other);
    } else {
      FailOk(from, s, key, calls, isError || calls.dispose.Threw?, other);
    }
  }

  lemma AskingOk(from: State, s: State, key: Key, op: Operation, other: Key)
    requires Good(s) && Fits(from, s, key, op, Asking)
    ensures Sound(from, s, key, op, AfterAnswer(s, key, op), other)
  {
    if op.Health? && !op.check.HealthThrew? {
      assert HandleListed(s, key) && StatusFits(s, key);
      Make(s, key, PutStatus(if op.check.Healthy? then Connected else Error), other);
    }
  }

  /** Whatever its calls do, the code between two awaits keeps the books in order, leaves the
      operation where it should be, with its promises kept once it settles, and touches no other
      key. */
  lemma ActOk(from: State, s: State, key: Key, op: Operation, pc: Pc, other: Key)
    requires Good(s) && Fits(from, s, key, op, pc) && !pc.Finished?
    ensures Sound(from, s, key, op, Act(s, key, op, pc), other)
  {
    match pc
    case Ready => if op.Disconnect? || op.Replace? { BeginDisposeOk(from, s, key, op, other); }
    case Recorded => RecordedOk(from, s, key, op, other);
    case Disposing => DisposingOk(from, s, key, op, other);
    case Cleared => ClearedOk(from, s, key, op, other);
    case Creating => CreatingOk(from, s, key, op.calls, other);
    case Checking(h) => CheckingOk(from, s, key, op.calls, h, other);
    case Withdrawing => WithdrawingOk(from, s, key, op.calls, other);
    case Cleaning(isError, listed) => CleaningOk(from, s, key, op.calls, isError, listed, other);
    case Asking => AskingOk(from, s, key, op, other);
  }

  /** How many steps an operation may still take. */
  function Left(pc: Pc): nat {
    match pc
    case Ready => 7
    case Recorded => 6
    case Disposing => 5
    case Cleared => 4
    case Creating => 3
    case Checking(_) => 2
    case Withdrawing | Cleaning(_, _) | Asking => 1
    case Finished(_) => 0
  }

  /** Every step brings an operation nearer its end: it settles if its calls do. */
  lemma ActEnds(s: State, key: Key, op: Operation, pc: Pc)
    requires Suits(op, pc) && !pc.Finished?
    ensures Left(Act(s, key, op, pc).pc) < Left(pc)
  {
  }

  // --- where the flags come from ---

  predicate MayLeaveConnecting(op: Operation) {
    op.Connect? && LeavesConnecting(op.calls)
  }

  predicate MayDisposeListed(op: Operation) {
    op.Connect? && DisposesListed(op.calls)
  }

  /** A key is newly left CONNECTING only by a connect that ends in something other than an Error. */
  lemma StuckHasCause(from: State, s: State, key: Key, op: Operation, pc: Pc)
    requires Good(s) && Fits(from, s, key, op, pc) && !pc.Finished?
    ensures key in Act(s, key, op, pc).state.stuck ==> key in s.stuck || MayLeaveConnecting(op)
  {
  }

  /** A listed handle is newly disposed only by a connect whose record does not project. */
  lemma DoubledHasCause(from: State, s: State, key: Key, op: Operation, pc: Pc)
    requires Good(s) && Fits(from, s, key, op, pc) && !pc.Finished?
    ensures key in Act(s, key, op, pc).state.doubled ==> key in s.doubled || MayDisposeListed(op)
  {
  }

  /** A handle is newly disposed a second time only once it was disposed while listed. */
  lemma TwiceHasCause(from: State, s: State, key: Key, op: Operation, pc: Pc, h: Handle)
    requires Good(s) && Fits(from, s, key, op, pc) && !pc.Finished?
    requires h in Act(s, key, op, pc).state.twice && h !in s.twice
    ensures key in s.doubled && key in s.handles && h == s.handles[key]
  {
  }
}
