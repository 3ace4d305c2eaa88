/** Per-address locking over the store as a state machine of threads (safe_db.go). */
module SafeDb {
  import opened Ints
  import opened TickKey
  import opened Types
  import opened DbWrap
  import EventReactors

  // ---------- operations ----------

  /** The store reads of the getters, one call each; GetPoolState makes four. */
  datatype Field = Height | Spacing | Tick | Ticks | OneTick(tick: int32)

  const POOL_STATE: seq<Field> := [Height, Spacing, Tick, Ticks]

  /** What a getter has read so far. */
  datatype Seen = Seen(height: uint64, spacing: int32, tick: int32, ticks: seq<TickState>, entry: Option<TickState>)

  const NOTHING_SEEN: Seen := Seen(0, 0, 0, [], None)

  datatype Write =
    | PutTick(ts: TickState) | PutCurrentTick(tick: int32) | PutTickSpacing(spacing: int32) | PutHeight(height: uint64)
    | PutPool(s: PoolState) | DeletePool

  datatype Op = Get(fields: seq<Field>) | Set(w: Write)

  function Written(p: Pool, w: Write): Pool {
    match w
    case PutTick(ts) => p.(ticks := p.ticks[ts.tick := ts.net])
    case PutCurrentTick(tick) => p.(tick := tick)
    case PutTickSpacing(spacing) => p.(spacing := spacing)
    case PutHeight(height) => p.(height := height)
    case PutPool(s) => StoreSnapshot(p, s)
    case DeletePool => Deleted(p)
  }

  function ReadField(p: Pool, f: Field, seen: Seen): Seen {
    match f
    case Height => seen.(height := p.height)
    case Spacing => seen.(spacing := p.spacing)
    case Tick => seen.(tick := p.tick)
    case Ticks => seen.(ticks := AscList(p.ticks, MIN_TICK, MAX_TICK))
    case OneTick(t) => seen.(entry := if t in p.ticks then Some(TickState(t, p.ticks[t])) else None)
  }

  /** The locked setters, each by the store's own. */
  method Perform(db: RocksDBWrap, a: Address, w: Write)
    requires db.Valid()
    modifies db, db.db
    ensures db.Valid() && db.finish == old(db.finish)
    ensures OnlyAt(old(db.pools), db.pools, a, Written(old(db.View(a)), w))
  {
    match w {
      case PutTick(ts) => db.SetTickState(a, ts);
      case PutCurrentTick(tick) => db.SetCurrentTick(a, tick);
      case PutTickSpacing(spacing) => db.SetTickSpacing(a, spacing);
      case PutHeight(height) => db.SetHeight(a, height);
      case PutPool(s) => db.SetPoolState(a, s);
      case DeletePool => db.DeletePoolState(a);
    }
  }

  /** One read of a getter, by the store's own. */
  method PerformRead(db: RocksDBWrap, a: Address, f: Field, seen: Seen) returns (r: Seen)
    requires db.Valid()
    ensures r == ReadField(db.View(a), f, seen)
  {
    r := seen;
    match f {
      case Height => var h := db.GetHeight(a); r := r.(height := h);
      case Spacing => var s := db.GetTickSpacing(a); r := r.(spacing := s);
      case Tick => var t := db.GetCurrentTick(a); r := r.(tick := t);
      case Ticks => var ts := db.GetTickStates(a); r := r.(ticks := ts);
      case OneTick(tick) => var e := db.GetTickState(a, tick); r := r.(entry := e);
    }
  }

  /** What the reactor does with an event is a sequence of these writes. */
  lemma ReactorWrites(p: Pool, e: Event, h: uint64)
    ensures var q := EventReactors.Apply(p, e).(height := h);
            match e
            case Swap(_, t) => Written(Written(p, PutCurrentTick(EventReactors.Narrow(t))), PutHeight(h)) == q
            case Mint(_, lower, upper, amount) =>
              Written(AddedAt(AddedAt(p, lower, amount), upper, -amount), PutHeight(h)) == q
            case Burn(_, lower, upper, amount) =>
              Written(AddedAt(AddedAt(p, lower, -amount), upper, amount), PutHeight(h)) == q
  {
  }

  /** Reading an entry and writing it back with `amount` more. */
  function AddedAt(p: Pool, tick: int, amount: int): Pool {
    var t := EventReactors.Narrow(tick);
    var entry := ReadField(p, OneTick(t), NOTHING_SEEN).entry;
    Written(p, PutTick(TickState(t, (match entry case None => 0 case Some(x) => x.net) + amount)))
  }

  function AllPut(p: Pool, ts: seq<TickState>): Pool {
    if ts == [] then p else Written(AllPut(p, ts[..|ts| - 1]), PutTick(ts[|ts| - 1]))
  }

  lemma {:induction false} AllPutTicks(p: Pool, ts: seq<TickState>)
    ensures AllPut(p, ts) == p.(ticks := WriteTicks(p.ticks, ts))
  {
    if ts != [] {
      AllPutTicks(p, ts[..|ts| - 1]);
    }
  }

  /** Storing a snapshot at once is putting its parts one by one. */
  lemma PutPoolIsPuts(p: Pool, s: PoolState)
    ensures Written(p, PutPool(s)) ==
            Written(Written(Written(AllPut(p, s.ticks), PutHeight(BigUint64(s.height))),
                            PutCurrentTick(Int32(s.tick))), PutTickSpacing(Int32(s.spacing)))
  {
    AllPutTicks(p, s.ticks);
  }

  /** What is left to read after `fields[0]`: nothing when the height turned out to be 0. */
  function Remaining(p: Pool, fields: seq<Field>): seq<Field>
    requires fields != []
    ensures |Remaining(p, fields)| < |fields|
  {
    if fields[0] == Height && p.height == 0 then [] else fields[1..]
  }

  /** All the reads of a getter made on one and the same pool. */
  function ReadAll(p: Pool, fields: seq<Field>, seen: Seen): Seen
    decreases |fields|
  {
    if fields == [] then seen else ReadAll(p, Remaining(p, fields), ReadField(p, fields[0], seen))
  }

  /** What GetPoolState answers for what it has read. */
  function Answered(seen: Seen): Option<PoolState> {
    if seen.height == 0 then None
    else Some(PoolState(None, None, Int64(seen.height), seen.spacing, seen.tick, seen.ticks))
  }

  /** Made on one pool, the four reads of GetPoolState answer what that pool reads as; at height 0 it is the only
      read. */
  lemma PoolStateReads(p: Pool)
    ensures Answered(ReadAll(p, POOL_STATE, NOTHING_SEEN)) == ReadPool(p)
    ensures p.height == 0 ==> ReadAll(p, POOL_STATE, NOTHING_SEEN) == NOTHING_SEEN
    ensures p.height > 0 ==> ReadAll(p, POOL_STATE, NOTHING_SEEN) ==
                             Seen(p.height, p.spacing, p.tick, AscList(p.ticks, MIN_TICK, MAX_TICK), None)
  {
    if p.height > 0 {
      assert POOL_STATE[1..] == [Spacing, Tick, Ticks];
      assert [Spacing, Tick, Ticks][1..] == [Tick, Ticks];
      assert [Tick, Ticks][1..] == [Ticks];
    } else {
      assert Remaining(p, POOL_STATE) == [];
      assert ReadField(p, Height, NOTHING_SEEN) == NOTHING_SEEN;
    }
  }

  // ---------- the state machine ----------

  /** Where a thread is: in getOrCreateLock's read section, past its miss, in its write section, waiting for the
      address's lock, or under it. */
  datatype Thread =
    | Idle
    | Calling(a: Address, op: Op) | Peeking(a: Address, op: Op)
    | Missing(a: Address, op: Op) | Creating(a: Address, op: Op)
    | Waiting(a: Address, op: Op, lock: nat)
    | Reading(a: Address, lock: nat, fields: seq<Field>, rest: seq<Field>, seen: Seen)
    | Writing(a: Address, lock: nat, w: Write) | Wrote(a: Address, lock: nat, w: Write)

  datatype RWMutex = RWMutex(readers: set<nat>, writer: Option<nat>)

  const FREE: RWMutex := RWMutex({}, None)

  /** What an operation did, in the order the operations took effect. */
  datatype Effect = DidSet(t: nat, a: Address, w: Write) | DidGet(t: nat, a: Address, fields: seq<Field>, seen: Seen)

  datatype Log = Nothing | After(before: Log, last: Effect)

  /** `log` is history. */
  datatype State = State(
    threads: map<nat, Thread>, mu: RWMutex, locks: map<Address, nat>, nextLock: nat, mutexes: map<nat, RWMutex>,
    store: World, log: Log)

  datatype Step =
    | Call(t: nat, a: Address, op: Op)
    | RLockMap(t: nat) | LookUp(t: nat) | LockMap(t: nat) | Create(t: nat)
    | Acquire(t: nat) | Read(t: nat) | Apply(t: nat) | Release(t: nat)

  function Pc(s: State, t: nat): Thread {
    if t in s.threads then s.threads[t] else Idle
  }

  function MutexOf(s: State, lock: nat): RWMutex {
    if lock in s.mutexes then s.mutexes[lock] else FREE
  }

  ghost predicate Enabled(s: State, step: Step) {
    match step
    case Call(t, _, _) => Pc(s, t).Idle?
    case RLockMap(t) => Pc(s, t).Calling? && s.mu.writer.None?
    case LookUp(t) => Pc(s, t).Peeking?
    case LockMap(t) => Pc(s, t).Missing? && s.mu == FREE
    case Create(t) => Pc(s, t).Creating?
    case Acquire(t) =>
      && Pc(s, t).Waiting?
      && if Pc(s, t).op.Get? then MutexOf(s, Pc(s, t).lock).writer.None? else MutexOf(s, Pc(s, t).lock) == FREE
    case Read(t) => Pc(s, t).Reading? && Pc(s, t).rest != []
    case Apply(t) => Pc(s, t).Writing?
    case Release(t) => Pc(s, t).Wrote? || (Pc(s, t).Reading? && Pc(s, t).rest == [])
  }

  function Move(s: State, t: nat, place: Thread): State {
    s.(threads := s.threads[t := place])
  }

  /** The second check under the exclusive lock, then the creation of a missing lock. */
  function Created(s: State, a: Address): State {
    if a in s.locks then s
    else s.(locks := s.locks[a := s.nextLock], mutexes := s.mutexes[s.nextLock := FREE], nextLock := s.nextLock + 1)
  }

  ghost function Next(s: State, step: Step): State
    requires Enabled(s, step)
  {
    match step
    case Call(t, a, op) => Move(s, t, Calling(a, op))
    case RLockMap(t) =>
      Move(s, t, Peeking(Pc(s, t).a, Pc(s, t).op)).(mu := s.mu.(readers := s.mu.readers + {t}))
    case LookUp(t) =>
      var Peeking(a, op) := Pc(s, t);
      Move(s, t, if a in s.locks then Waiting(a, op, s.locks[a]) else Missing(a, op))
        .(mu := s.mu.(readers := s.mu.readers - {t}))
    case LockMap(t) => Move(s, t, Creating(Pc(s, t).a, Pc(s, t).op)).(mu := s.mu.(writer := Some(t)))
    case Create(t) =>
      var Creating(a, op) := Pc(s, t);
      var c := Created(s, a);
      Move(c, t, Waiting(a, op, c.locks[a])).(mu := s.mu.(writer := None))
    case Acquire(t) =>
      var Waiting(a, op, lock) := Pc(s, t);
      var m := MutexOf(s, lock);
      (match op
       case Get(fields) => Move(s, t, Reading(a, lock, fields, fields, NOTHING_SEEN))
         .(mutexes := s.mutexes[lock := m.(readers := m.readers + {t})])
       case Set(w) => Move(s, t, Writing(a, lock, w)).(mutexes := s.mutexes[lock := m.(writer := Some(t))]))
    case Read(t) =>
      var Reading(a, lock, fields, rest, seen) := Pc(s, t);
      var p := At(s.store, a);
      Move(s, t, Reading(a, lock, fields, Remaining(p, rest), ReadField(p, rest[0], seen)))
    case Apply(t) =>
      var Writing(a, lock, w) := Pc(s, t);
      Move(s, t, Wrote(a, lock, w))
        .(store := s.store[a := Written(At(s.store, a), w)], log := After(s.log, DidSet(t, a, w)))
    case Release(t) =>
      var th := Pc(s, t);
      var m := MutexOf(s, th.lock);
      if th.Wrote? then Move(s, t, Idle).(mutexes := s.mutexes[th.lock := m.(writer := None)])
      else Move(s, t, Idle).(mutexes := s.mutexes[th.lock := m.(readers := m.readers - {t})],
                             log := After(s.log, DidGet(t, th.a, th.fields, th.seen)))
  }

  ghost function Start(store: World): State {
    State(map[], FREE, map[], 0, map[], store, Nothing)
  }

  // ---------- the invariant ----------

  /** The map's mutex is held as the threads' places say. */
  ghost predicate MapMutex(s: State) {
    && (forall t: nat :: t in s.mu.readers <==> Pc(s, t).Peeking?)
    && (forall t: nat :: s.mu.writer == Some(t) <==> Pc(s, t).Creating?)
    && (s.mu.writer.Some? ==> s.mu.readers == {})
  }

  /** One lock per address, and no lock for two. */
  ghost predicate LocksDistinct(s: State) {
    && (forall a :: a in s.locks ==> s.locks[a] < s.nextLock)
    && (forall a, b :: a in s.locks && b in s.locks && s.locks[a] == s.locks[b] ==> a == b)
  }

  predicate HasLock(th: Thread) {
    th.Waiting? || th.Reading? || th.Writing? || th.Wrote?
  }

  /** A thread works with its address's lock. */
  ghost predicate OwnLocks(s: State) {
    forall t: nat :: HasLock(Pc(s, t)) ==> Pc(s, t).a in s.locks && Pc(s, t).lock == s.locks[Pc(s, t).a]
  }

  predicate Reads(th: Thread, lock: nat) {
    th.Reading? && th.lock == lock
  }

  predicate Writes(th: Thread, lock: nat) {
    (th.Writing? || th.Wrote?) && th.lock == lock
  }

  /** A per-address lock is held as the threads' places say. */
  ghost predicate Held(s: State, lock: nat) {
    && (forall t: nat :: t in MutexOf(s, lock).readers <==> Reads(Pc(s, t), lock))
    && (forall t: nat :: MutexOf(s, lock).writer == Some(t) <==> Writes(Pc(s, t), lock))
    && (MutexOf(s, lock).writer.Some? ==> MutexOf(s, lock).readers == {})
  }

  /** A getter's reads so far, continued now, amount to all its reads made now. */
  ghost predicate OneState(s: State, t: nat) {
    var th := Pc(s, t);
    th.Reading? ==>
      ReadAll(At(s.store, th.a), th.rest, th.seen) == ReadAll(At(s.store, th.a), th.fields, NOTHING_SEEN)
  }

  ghost function WorldAfter(store: World, log: Log): World {
    match log
    case Nothing => store
    case After(before, DidSet(_, a, w)) =>
      var b := WorldAfter(store, before); b[a := Written(At(b, a), w)]
    case After(before, DidGet(_, _, _, _)) => WorldAfter(store, before)
  }

  /** The log is what the operations would do one at a time. */
  ghost predicate Sequential(store: World, log: Log) {
    match log
    case Nothing => true
    case After(before, last) =>
      && Sequential(store, before)
      && (last.DidGet? ==> last.seen == ReadAll(At(WorldAfter(store, before), last.a), last.fields, NOTHING_SEEN))
  }

  ghost predicate LogOk(s: State, store: World) {
    Sequential(store, s.log) && WorldAfter(store, s.log) == s.store
  }

  ghost predicate Inv(s: State, store: World) {
    && MapMutex(s) && LocksDistinct(s) && OwnLocks(s)
    && (forall lock: nat :: Held(s, lock))
    && (forall t: nat :: OneState(s, t))
    && LogOk(s, store)
  }

  lemma StartInv(store: World)
    ensures Inv(Start(store), store)
  {
  }

  predicate UnderLock(th: Thread) {
    th.Reading? || th.Writing? || th.Wrote?
  }

  /** From `s` to `n` only thread `t` may have moved. */
  ghost predicate OnlyMoved(s: State, n: State, t: nat) {
    forall u: nat :: u != t ==> Pc(n, u) == Pc(s, u)
  }

  /** A thread that holds no address's lock before or after leaves them as they are. */
  lemma OutsideLocks(s: State, n: State, t: nat)
    requires OnlyMoved(s, n, t) && !UnderLock(Pc(s, t)) && !UnderLock(Pc(n, t))
    requires n.store == s.store && forall lock: nat :: MutexOf(n, lock) == MutexOf(s, lock)
    requires forall lock: nat :: Held(s, lock)
    requires forall u: nat :: OneState(s, u)
    ensures forall lock: nat :: Held(n, lock)
    ensures forall u: nat :: OneState(n, u)
  {
    forall lock: nat ensures Held(n, lock) {
      assert Held(s, lock);
    }
    forall u: nat ensures OneState(n, u) {
      assert OneState(s, u);
    }
  }

  lemma CallStep(s: State, step: Step, store: World)
    requires Inv(s, store) && Enabled(s, step) && (step.Call? || step.LockMap?)
    ensures Inv(Next(s, step), store)
  {
    OutsideLocks(s, Next(s, step), step.t);
  }

  lemma PeekStep(s: State, step: Step, store: World)
    requires Inv(s, store) && Enabled(s, step) && (step.RLockMap? || step.LookUp?)
    ensures Inv(Next(s, step), store)
  {
    OutsideLocks(s, Next(s, step), step.t);
  }

  /** A new lock is nobody's, so it is free. */
  lemma NewLockFree(s: State, store: World)
    requires Inv(s, store)
    ensures MutexOf(s, s.nextLock) == FREE
  {
    assert Held(s, s.nextLock);
    var m := MutexOf(s, s.nextLock);
    if m.writer.Some? {
      assert false;
    }
    if t :| t in m.readers {
      assert false;
    }
  }

  lemma CreateStep(s: State, t: nat, store: World)
    requires Inv(s, store) && Enabled(s, Create(t))
    ensures Inv(Next(s, Create(t)), store)
  {
    NewLockFree(s, store);
    var n := Next(s, Create(t));
    forall lock: nat ensures MutexOf(n, lock) == MutexOf(s, lock) {
    }
    OutsideLocks(s, n, t);
    CreateOwn(s, t, store);
  }

  lemma CreateOwn(s: State, t: nat, store: World)
    requires Inv(s, store) && Enabled(s, Create(t))
    ensures OwnLocks(Next(s, Create(t)))
  {
    var n := Next(s, Create(t));
    forall u: nat | HasLock(Pc(n, u)) ensures Pc(n, u).a in n.locks && Pc(n, u).lock == n.locks[Pc(n, u).a] {
      if u != t {
        assert Pc(n, u) == Pc(s, u);
      }
    }
  }

  lemma AcquireHeld(s: State, t: nat, store: World, lock: nat)
    requires Inv(s, store) && Enabled(s, Acquire(t))
    ensures Held(Next(s, Acquire(t)), lock)
  {
    assert Held(s, lock);
  }

  lemma AcquireStep(s: State, t: nat, store: World)
    requires Inv(s, store) && Enabled(s, Acquire(t))
    ensures Inv(Next(s, Acquire(t)), store)
  {
    var n := Next(s, Acquire(t));
    forall lock: nat ensures Held(n, lock) {
      AcquireHeld(s, t, store, lock);
    }
    forall u: nat ensures OneState(n, u) {
      assert OneState(s, u);
    }
  }

  lemma ReadStep(s: State, t: nat, store: World)
    requires Inv(s, store) && Enabled(s, Read(t))
    ensures Inv(Next(s, Read(t)), store)
  {
    var n := Next(s, Read(t));
    forall lock: nat ensures Held(n, lock) {
      assert Held(s, lock);
    }
    forall u: nat ensures OneState(n, u) {
      assert OneState(s, u);
    }
  }

  lemma ApplyStep(s: State, t: nat, store: World)
    requires Inv(s, store) && Enabled(s, Apply(t))
    ensures Inv(Next(s, Apply(t)), store)
  {
    var n := Next(s, Apply(t));
    forall lock: nat ensures Held(n, lock) {
      assert Held(s, lock);
    }
    forall u: nat ensures OneState(n, u) {
      assert OneState(s, u);
      if Pc(s, u).Reading? {
        NotTogether(s, t, u, store);
      }
    }
  }

  /** Mutual exclusion: while a thread writes a pool, no other one reads or writes it. */
  lemma NotTogether(s: State, t: nat, u: nat, store: World)
    requires Inv(s, store) && t != u
    requires Pc(s, t).Writing? || Pc(s, t).Wrote?
    ensures UnderLock(Pc(s, u)) ==> Pc(s, u).a != Pc(s, t).a
  {
    assert Held(s, Pc(s, t).lock);
    assert Writes(Pc(s, t), Pc(s, t).lock);
  }

  lemma ReleaseHeld(s: State, t: nat, store: World, lock: nat)
    requires Inv(s, store) && Enabled(s, Release(t))
    ensures Held(Next(s, Release(t)), lock)
  {
    assert Held(s, lock);
  }

  lemma ReleaseStep(s: State, t: nat, store: World)
    requires Inv(s, store) && Enabled(s, Release(t))
    ensures Inv(Next(s, Release(t)), store)
  {
    var n := Next(s, Release(t));
    assert OneState(s, t);
    forall lock: nat ensures Held(n, lock) {
      ReleaseHeld(s, t, store, lock);
    }
    forall u: nat ensures OneState(n, u) {
      assert OneState(s, u);
    }
  }

  lemma StepInv(s: State, step: Step, store: World)
    requires Inv(s, store) && Enabled(s, step)
    ensures Inv(Next(s, step), store)
  {
    match step {
      case Call(_, _, _) | LockMap(_) => CallStep(s, step, store);
      case RLockMap(_) | LookUp(_) => PeekStep(s, step, store);
      case Create(t) => CreateStep(s, t, store);
      case Acquire(t) => AcquireStep(s, t, store);
      case Read(t) => ReadStep(s, t, store);
      case Apply(t) => ApplyStep(s, t, store);
      case Release(t) => ReleaseStep(s, t, store);
    }
  }

  // ---------- runs ----------

  /** A run of any threads in any order, the latest step outermost. */
  datatype Run = Begin | More(before: Run, step: Step)

  ghost predicate Possible(s: State, run: Run) {
    match run
    case Begin => true
    case More(before, step) => Possible(s, before) && Enabled(Reached(s, before), step)
  }

  ghost function Reached(s: State, run: Run): State {
    match run
    case Begin => s
    case More(before, step) =>
      var t := Reached(s, before);
      if Enabled(t, step) then Next(t, step) else t
  }

  lemma {:induction false} RunInv(run: Run, store: World)
    requires Possible(Start(store), run)
    ensures Inv(Reached(Start(store), run), store)
  {
    match run {
      case Begin => StartInv(store);
      case More(before, step) =>
        RunInv(before, store);
        StepInv(Reached(Start(store), before), step, store);
    }
  }

  /** Linearizable over every interleaving: the effects logged, each while its operation held the lock, are those of a
      sequential execution that ends in the store; every getter saw a single state. */
  lemma Linearizable(run: Run, store: World)
    requires Possible(Start(store), run)
    ensures var s := Reached(Start(store), run);
            Sequential(store, s.log) && WorldAfter(store, s.log) == s.store
  {
    RunInv(run, store);
  }

  /** The operations a thread called, in order. */
  function Called(run: Run, t: nat): seq<(Address, Op)> {
    match run
    case Begin => []
    case More(before, step) =>
      if step.Call? && step.t == t then Called(before, t) + [(step.a, step.op)] else Called(before, t)
  }

  function Returns(run: Run, t: nat): nat {
    match run
    case Begin => 0
    case More(before, step) => Returns(before, t) + if step.Release? && step.t == t then 1 else 0
  }

  /** What the operation did that an effect stands for, and on which address. */
  function OpOf(e: Effect): (Address, Op) {
    match e
    case DidSet(_, a, w) => (a, Set(w))
    case DidGet(_, a, fields, _) => (a, Get(fields))
  }

  /** The operations of a thread that took effect, in order. */
  function Effected(log: Log, t: nat): seq<(Address, Op)> {
    match log
    case Nothing => []
    case After(before, last) => if last.t == t then Effected(before, t) + [OpOf(last)] else Effected(before, t)
  }

  /** The operation that a thread is in. */
  function InProgress(th: Thread): Option<(Address, Op)> {
    if th.Idle? then None
    else if th.Reading? then Some((th.a, Get(th.fields)))
    else if th.Writing? || th.Wrote? then Some((th.a, Set(th.w)))
    else Some((th.a, th.op))
  }

  /** Only its own steps concern a thread: a call begins an operation, a return ends it, and what takes effect is
      it. */
  lemma StepEffects(s: State, step: Step, t: nat)
    requires Enabled(s, step)
    ensures var n := Next(s, step);
            && Effected(n.log, t) ==
                 (if step.t == t && (step.Apply? || (step.Release? && Pc(s, t).Reading?))
                  then Effected(s.log, t) + [InProgress(Pc(s, t)).value] else Effected(s.log, t))
            && InProgress(Pc(n, t)) ==
                 (if step.t != t then InProgress(Pc(s, t))
                  else if step.Call? then Some((step.a, step.op))
                  else if step.Release? then None
                  else InProgress(Pc(s, t)))
  {
  }

  lemma StepPlaces(s: State, step: Step, t: nat)
    requires Enabled(s, step)
    ensures Pc(Next(s, step), t).Wrote? <==> if step.t == t then step.Apply? else Pc(s, t).Wrote?
    ensures step.t == t && step.Call? ==> Pc(s, t).Idle?
    ensures step.t == t && step.Apply? ==> Pc(s, t).Writing?
    ensures step.t == t && step.Release? ==> Pc(s, t).Wrote? || Pc(s, t).Reading?
  {
  }

  /** What a thread called and what of it took effect are the same operations in the same order, but for the one it
      is in: each takes effect once, between its call and its return. So the sequential order respects the order in
      time. */
  lemma {:induction false} OncePerOperation(run: Run, store: World, t: nat)
    requires Possible(Start(store), run)
    ensures var s := Reached(Start(store), run);
            var th := Pc(s, t);
            && Called(run, t) == (if th.Idle? || th.Wrote? then Effected(s.log, t)
                                  else Effected(s.log, t) + [InProgress(th).value])
            && (!th.Idle? ==> Called(run, t) != [] && Called(run, t)[|Called(run, t)| - 1] == InProgress(th).value)
            && |Effected(s.log, t)| == Returns(run, t) + (if th.Wrote? then 1 else 0)
  {
    if run.More? {
      OncePerOperation(run.before, store, t);
      StepEffects(Reached(Start(store), run.before), run.step, t);
      StepPlaces(Reached(Start(store), run.before), run.step, t);
    }
  }

  /** `later` goes on from `run`. */
  predicate Extends(run: Run, later: Run) {
    run == later || (later.More? && Extends(run, later.before))
  }

  /** getOrCreateLock answers one lock per address, for good: what a thread was given stays its address's lock, and no
      other address's. */
  lemma {:induction false} OneLockPerAddress(run: Run, later: Run, store: World, t: nat, u: nat)
    requires Possible(Start(store), later) && Extends(run, later)
    requires HasLock(Pc(Reached(Start(store), run), t)) && HasLock(Pc(Reached(Start(store), later), u))
    ensures var x, y := Pc(Reached(Start(store), run), t), Pc(Reached(Start(store), later), u);
            x.lock == y.lock <==> x.a == y.a
  {
    ExtendsPossible(run, later, store);
    RunInv(run, store);
    RunInv(later, store);
    LocksGrow(run, later, store);
  }

  lemma {:induction false} ExtendsPossible(run: Run, later: Run, store: World)
    requires Possible(Start(store), later) && Extends(run, later)
    ensures Possible(Start(store), run)
    decreases later
  {
    if run != later {
      ExtendsPossible(run, later.before, store);
    }
  }

  lemma {:induction false} LocksGrow(run: Run, later: Run, store: World)
    requires Possible(Start(store), later) && Extends(run, later)
    ensures var s, n := Reached(Start(store), run), Reached(Start(store), later);
            forall a :: a in s.locks ==> a in n.locks && n.locks[a] == s.locks[a]
    decreases later
  {
    if run != later {
      LocksGrow(run, later.before, store);
    }
  }

  // ---------- no deadlock ----------

  /** A thread inside a critical section never waits. */
  lemma InsideMoves(s: State, t: nat) returns (step: Step)
    requires Pc(s, t).Peeking? || Pc(s, t).Creating? || UnderLock(Pc(s, t))
    ensures Enabled(s, step) && !step.Call? && step.t == t
  {
    var th := Pc(s, t);
    step := if th.Peeking? then LookUp(t)
      else if th.Creating? then Create(t)
      else if th.Writing? then Apply(t)
      else if th.Reading? && th.rest != [] then Read(t)
      else Release(t);
  }

  /** While any operation is under way, some thread can move on. */
  lemma NoDeadlock(s: State, t: nat, store: World) returns (step: Step)
    requires Inv(s, store) && !Pc(s, t).Idle?
    ensures Enabled(s, step) && !step.Call?
  {
    var th := Pc(s, t);
    if Pc(s, t).Waiting? {
      step := WaitingMoves(s, t, store);
    } else if Pc(s, t).Calling? || Pc(s, t).Missing? {
      if s.mu.writer.Some? {
        step := InsideMoves(s, s.mu.writer.value);
      } else if u :| u in s.mu.readers {
        step := InsideMoves(s, u);
      } else {
        step := if th.Calling? then RLockMap(t) else LockMap(t);
      }
    } else {
      step := InsideMoves(s, t);
    }
  }

  /** Either the address's lock is free, or its holder can move. */
  lemma WaitingMoves(s: State, t: nat, store: World) returns (step: Step)
    requires Inv(s, store) && Pc(s, t).Waiting?
    ensures Enabled(s, step) && !step.Call?
  {
    var m := MutexOf(s, Pc(s, t).lock);
    assert Held(s, Pc(s, t).lock);
    if m.writer.Some? {
      step := InsideMoves(s, m.writer.value);
    } else if u :| u in m.readers {
      step := InsideMoves(s, u);
    } else {
      step := Acquire(t);
    }
  }
}
