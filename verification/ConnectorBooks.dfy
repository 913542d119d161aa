/** The state of the connector runtime as a value, the books kept about its handles, and the moves
    an operation makes between two awaits. */
module ConnectorBooks {

  type Key = string

  /** Handles are numbered in the order their `create` calls returned them. */
  type Handle = nat

  datatype Status = Connecting | Connected | Error

  /** Where a handle created for a key is: with the operation that created it, in the Map, or neither. */
  datatype Place = Flying(key: Key) | Listed(key: Key) | Nowhere(key: Key)

  /** The two Maps and the handles created so far; then, for the books only, where each of them is
      and how often it was disposed, the keys whose lock is held, the keys a connect left
      CONNECTING, the keys whose listed handle is already disposed, and the handles disposed a
      second time. */
  datatype State = State(handles: map<Key, Handle>, statuses: map<Key, Status>, nextHandle: nat,
                         places: map<Handle, Place>, disposals: map<Handle, nat>,
                         locked: set<Key>, stuck: set<Key>, doubled: set<Key>, twice: set<Handle>)

  const NOTHING := State(map[], map[], 0, map[], map[], {}, {}, {}, {})

  /** A created handle is where the books say, and was disposed accordingly. */
  ghost predicate Accounted(s: State, h: Handle)
    requires h in s.places && h in s.disposals
  {
    match s.places[h]
    case Flying(k) => k in s.locked && s.disposals[h] == 0
    case Listed(k) =>
      k in s.handles && s.handles[k] == h && (k !in s.locked ==> s.disposals[h] == if k in s.doubled then 1 else 0)
    case Nowhere(_) => s.disposals[h] == if h in s.twice then 2 else 1
  }

  /** A key with a handle has a status other than CONNECTING, a CONNECTED one has a handle, and a
      key that is CONNECTING while nothing runs was left so. */
  ghost predicate StatusFits(s: State, k: Key) {
    && (k in s.handles ==> k in s.statuses && !s.statuses[k].Connecting?)
    && (k in s.statuses && s.statuses[k].Connected? ==> k in s.handles)
    && (k in s.statuses && s.statuses[k].Connecting? ==> k in s.locked || k in s.stuck)
    && (k in s.stuck ==> k in s.statuses && s.statuses[k].Connecting?)
    && (k in s.doubled ==> k in s.handles)
  }

  ghost predicate HandleListed(s: State, k: Key)
    requires k in s.handles
  {
    s.handles[k] in s.places && s.places[s.handles[k]] == Listed(k)
  }

  ghost predicate Numbered(s: State) {
    && (forall h: Handle :: h in s.places <==> h < s.nextHandle)
    && s.disposals.Keys == s.places.Keys
    && (forall h :: h in s.twice ==> h in s.places && s.places[h].Nowhere?)
  }

  ghost predicate StatusesFit(s: State) {
    forall k :: StatusFits(s, k)
  }

  ghost predicate Good(s: State) {
    && Numbered(s)
    && (forall h :: h in s.places ==> Accounted(s, h))
    && (forall k :: k in s.handles ==> HandleListed(s, k))
    && StatusesFit(s)
  }

  /** The running operation of the key has no handle in hand. */
  ghost predicate NothingFlying(s: State, k: Key) {
    forall h :: h in s.places ==> s.places[h] != Flying(k)
  }

  ghost predicate OnlyFlying(s: State, key: Key, h: Handle) {
    forall x :: x in s.places && s.places[x] == Flying(key) ==> x == h
  }

  /** The listed handle of a key was disposed as often as its flag says. */
  ghost predicate Settled(s: State, k: Key) {
    k in s.handles && s.handles[k] in s.disposals ==> s.disposals[s.handles[k]] == if k in s.doubled then 1 else 0
  }

  /** A CONNECTING key is one a connect left so. */
  predicate StatusSettled(s: State, key: Key) {
    key in s.statuses && s.statuses[key].Connecting? ==> key in s.stuck
  }

  /** Nothing is under way for the key: no handle in hand, and its counts and status in order. */
  ghost predicate AtRest(s: State, key: Key) {
    NothingFlying(s, key) && Settled(s, key) && StatusSettled(s, key)
  }

  ghost predicate Mine(s: State, h: Handle, key: Key) {
    h in s.places && s.places[h].key == key
  }

  /** The key's entries and flags are the same. */
  ghost predicate SameKey(s: State, t: State, key: Key) {
    && (key in t.handles <==> key in s.handles) && (key in t.handles ==> t.handles[key] == s.handles[key])
    && (key in t.statuses <==> key in s.statuses) && (key in t.statuses ==> t.statuses[key] == s.statuses[key])
    && (key in t.stuck <==> key in s.stuck) && (key in t.doubled <==> key in s.doubled)
  }

  ghost predicate SameHandle(s: State, t: State, h: Handle) {
    && (h in s.places <==> h in t.places) && (h in s.places ==> s.places[h] == t.places[h])
    && (h in s.disposals <==> h in t.disposals) && (h in s.disposals ==> s.disposals[h] == t.disposals[h])
    && (h in s.twice <==> h in t.twice)
  }

  /** Nothing about the key or its handles differs. */
  ghost predicate Undisturbed(s: State, t: State, key: Key) {
    && s.nextHandle <= t.nextHandle && SameKey(s, t, key)
    && forall h :: Mine(s, h, key) || Mine(t, h, key) ==> SameHandle(s, t, h)
  }

  lemma UndisturbedOn(s: State, t: State, u: State, key: Key)
    requires Undisturbed(s, t, key) && Undisturbed(t, u, key)
    ensures Undisturbed(s, u, key)
  {
    forall h | Mine(s, h, key) || Mine(u, h, key) ensures SameHandle(s, u, h) {
      assert Mine(s, h, key) ==> SameHandle(s, t, h) && Mine(t, h, key);
      assert Mine(u, h, key) ==> SameHandle(t, u, h) && Mine(t, h, key);
    }
  }

  // --- moves ---

  function Lock(s: State, key: Key): State {
    s.(locked := s.locked + {key})
  }

  function Unlock(s: State, key: Key): State {
    s.(locked := s.locked - {key})
  }

  function SetStatus(s: State, key: Key, status: Status): State {
    s.(statuses := s.statuses[key := status])
  }

  /** The listed handle's `dispose` is called. */
  function CallDispose(s: State, key: Key): State {
    if key in s.handles && s.handles[key] in s.disposals
    then s.(disposals := s.disposals[s.handles[key] := s.disposals[s.handles[key]] + 1]) else s
  }

  /** Both entries of a key are deleted. */
  function Clear(s: State, key: Key): State {
    var cleared := s.(handles := s.handles - {key}, statuses := s.statuses - {key},
                      stuck := s.stuck - {key}, doubled := s.doubled - {key});
    if key in s.handles then
      cleared.(places := s.places[s.handles[key] := Nowhere(key)],
               twice := if key in s.doubled then s.twice + {s.handles[key]} else s.twice)
    else cleared
  }

  /** `create` returned the next handle. */
  function Create(s: State, key: Key): State {
    s.(nextHandle := s.nextHandle + 1, places := s.places[s.nextHandle := Flying(key)],
       disposals := s.disposals[s.nextHandle := 0])
  }

  /** The handle in hand is disposed. */
  function Drop(s: State, key: Key, h: Handle): State {
    s.(places := s.places[h := Nowhere(key)],
       disposals := s.disposals[h := (if h in s.disposals then s.disposals[h] else 0) + 1])
  }

  /** The handle in hand is listed, and the key is connected. */
  function List(s: State, key: Key, h: Handle): State {
    s.(handles := s.handles[key := h], statuses := s.statuses[key := Connected], places := s.places[h := Listed(key)])
  }

  /** The cleanup has disposed the listed handle. */
  function Double(s: State, key: Key): State {
    s.(doubled := s.doubled + {key})
  }

  /** A key is left as it is: a CONNECTING one stays so. */
  function Abandon(s: State, key: Key): State {
    if key in s.statuses && s.statuses[key].Connecting? then s.(stuck := s.stuck + {key}) else s
  }

  /** What an operation may do between two awaits; the handle of a move is the one in hand. */
  datatype Move = PutStatus(status: Status) | Dispose | DeleteEntries | Created | Dropped(h: Handle)
                | Listing(h: Handle) | Doubling | Abandoning

  function Moved(s: State, key: Key, move: Move): State {
    match move
    case PutStatus(status) => SetStatus(s, key, status)
    case Dispose => CallDispose(s, key)
    case DeleteEntries => Clear(s, key)
    case Created => Create(s, key)
    case Dropped(h) => Drop(s, key, h)
    case Listing(h) => List(s, key, h)
    case Doubling => Double(s, key)
    case Abandoning => Abandon(s, key)
  }

  ghost predicate May(s: State, key: Key, move: Move) {
    match move
    case PutStatus(status) =>
      key !in s.stuck && (status.Connecting? ==> key !in s.handles) && (status.Connected? ==> key in s.handles)
    case Dispose => true
    case DeleteEntries => MayClear(s, key)
    case Created => true
    case Dropped(h) => h in s.places && s.places[h] == Flying(key)
    case Listing(h) => h in s.places && s.places[h] == Flying(key) && key !in s.handles && key !in s.stuck
    case Doubling => key in s.handles
    case Abandoning => true
  }

  /** The listed handle was disposed once, or twice if flagged. */
  ghost predicate MayClear(s: State, key: Key) {
    key in s.handles && s.handles[key] in s.disposals ==>
      s.disposals[s.handles[key]] == if key in s.doubled then 2 else 1
  }

  lemma LockGood(s: State, key: Key)
    requires Good(s)
    ensures Good(Lock(s, key))
  {
    var t := Lock(s, key);
    forall h | h in t.places ensures Accounted(t, h) {
      assert Accounted(s, h);
    }
    forall k | k in t.handles ensures HandleListed(t, k) {
      assert HandleListed(s, k);
    }
    forall k ensures StatusFits(t, k) {
      assert StatusFits(s, k);
    }
  }

  lemma UnlockGood(s: State, key: Key)
    requires Good(s) && AtRest(s, key)
    ensures Good(Unlock(s, key))
  {
    var t := Unlock(s, key);
    forall h | h in t.places ensures Accounted(t, h) {
      assert Accounted(s, h);
    }
    forall k | k in t.handles ensures HandleListed(t, k) {
      assert HandleListed(s, k);
    }
    forall k ensures StatusFits(t, k) {
      assert StatusFits(s, k);
    }
  }

  /** Every handle's place and count agree after a move. */
  lemma MoveAccounts(s: State, key: Key, move: Move, h: Handle)
    requires Good(s) && key in s.locked && May(s, key, move) && h in Moved(s, key, move).places
    ensures h in Moved(s, key, move).disposals && Accounted(Moved(s, key, move), h)
  {
    assert s.nextHandle !in s.places;
    if h in s.places {
      assert Accounted(s, h);
    }
    if key in s.handles {
      assert HandleListed(s, key);
    }
  }

  lemma MoveLists(s: State, key: Key, move: Move, k: Key)
    requires Good(s) && key in s.locked && May(s, key, move) && k in Moved(s, key, move).handles
    ensures HandleListed(Moved(s, key, move), k)
  {
    assert s.nextHandle !in s.places;
    if k in s.handles {
      assert HandleListed(s, k);
    }
    if key in s.handles {
      assert HandleListed(s, key);
    }
  }

  lemma MoveNumbers(s: State, key: Key, move: Move)
    requires Good(s) && key in s.locked && May(s, key, move)
    ensures Numbered(Moved(s, key, move)) && Moved(s, key, move).locked == s.locked
  {
    assert s.nextHandle !in s.places;
    if key in s.handles {
      assert HandleListed(s, key);
    }
  }

  lemma MoveFits(s: State, key: Key, move: Move, k: Key)
    requires Good(s) && key in s.locked && May(s, key, move)
    ensures StatusFits(Moved(s, key, move), k)
  {
    assert StatusFits(s, k) && StatusFits(s, key);
  }

  lemma MoveKeepsGood(s: State, key: Key, move: Move)
    requires Good(s) && key in s.locked && May(s, key, move)
    ensures Good(Moved(s, key, move)) && Moved(s, key, move).locked == s.locked
  {
    var t := Moved(s, key, move);
    MoveNumbers(s, key, move);
    forall h | h in t.places ensures h in t.disposals && Accounted(t, h) {
      MoveAccounts(s, key, move, h);
    }
    forall k | k in t.handles ensures HandleListed(t, k) {
      MoveLists(s, key, move, k);
    }
    forall k ensures StatusFits(t, k) {
      MoveFits(s, key, move, k);
    }
  }

  lemma MoveSparesHandle(s: State, key: Key, move: Move, other: Key, h: Handle)
    requires Good(s) && key in s.locked && May(s, key, move) && key != other
    requires Mine(s, h, other) || Mine(Moved(s, key, move), h, other)
    ensures SameHandle(s, Moved(s, key, move), h)
  {
    assert s.nextHandle !in s.places;
    if key in s.handles {
      assert HandleListed(s, key);
    }
  }

  /** A move of one key leaves every other key and its handles alone. */
  lemma MoveSpares(s: State, key: Key, move: Move, other: Key)
    requires Good(s) && key in s.locked && May(s, key, move) && key != other
    ensures Undisturbed(s, Moved(s, key, move), other)
  {
    var t := Moved(s, key, move);
    forall h | Mine(s, h, other) || Mine(t, h, other) ensures SameHandle(s, t, h) {
      MoveSparesHandle(s, key, move, other, h);
    }
  }

  /** A key whose lock is free is at rest. */
  lemma IdleAtRest(s: State, key: Key)
    requires Good(s) && key !in s.locked
    ensures AtRest(s, key)
  {
    forall h | h in s.places ensures s.places[h] != Flying(key) {
      assert Accounted(s, h);
    }
    if key in s.handles {
      assert HandleListed(s, key) && Accounted(s, s.handles[key]);
    }
    assert StatusFits(s, key);
  }

  /** What the books say about an idle key: a listed key has a status, a CONNECTED one is listed, a
      key is CONNECTING exactly if a connect left it so, and each handle created for the key is the
      listed one or was disposed. */
  ghost predicate Balanced(s: State, key: Key) {
    && (key in s.handles ==> key in s.statuses)
    && (key in s.statuses && s.statuses[key].Connected? ==> key in s.handles)
    && (key in s.statuses && s.statuses[key].Connecting? <==> key in s.stuck)
    && forall h :: Mine(s, h, key) ==>
         && h in s.disposals
         && s.disposals[h] == if key in s.handles && s.handles[key] == h
                              then (if key in s.doubled then 1 else 0) else (if h in s.twice then 2 else 1)
  }

  lemma IdleBalanced(s: State, key: Key)
    requires Good(s) && key !in s.locked
    ensures Balanced(s, key)
  {
    IdleAtRest(s, key);
    assert StatusFits(s, key);
    if key in s.handles {
      assert HandleListed(s, key);
    }
    forall h | Mine(s, h, key)
      ensures h in s.disposals
      ensures s.disposals[h] == if key in s.handles && s.handles[key] == h
                                then (if key in s.doubled then 1 else 0) else (if h in s.twice then 2 else 1)
    {
      assert Accounted(s, h);
    }
  }
}
