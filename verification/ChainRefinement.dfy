/** Snapshot plus deltas against the chain itself. */
module ChainRefinement {
  import opened Ints
  import opened TickKey
  import opened Types
  import opened DbWrap
  import opened PoolStateGetters
  import opened EventReactors
  import opened Replay

  // ---------- net effect of events ----------

  /** All events, one after the other: what the chain does. */
  function ApplyAll(p: Pool, evs: seq<Event>): Pool {
    if evs == [] then p else Apply(ApplyAll(p, evs[..|evs| - 1]), evs[|evs| - 1])
  }

  function EventDelta(e: Event, t: int): int {
    match e
    case Mint(_, lower, upper, amount) =>
      (if t == Narrow(lower) then amount else 0) - (if t == Narrow(upper) then amount else 0)
    case Burn(_, lower, upper, amount) =>
      (if t == Narrow(upper) then amount else 0) - (if t == Narrow(lower) then amount else 0)
    case Swap(_, _) => 0
  }

  /** The change of LiquidityNet at tick `t`. */
  function Delta(evs: seq<Event>, t: int): int {
    if evs == [] then 0 else Delta(evs[..|evs| - 1], t) + EventDelta(evs[|evs| - 1], t)
  }

  /** The current tick after `evs`: the last swap's, if there is one. */
  function LastTick(evs: seq<Event>, tick: int): int {
    if evs == [] then tick
    else match evs[|evs| - 1]
      case Swap(_, t) => Narrow(t)
      case _ => LastTick(evs[..|evs| - 1], tick)
  }

  lemma ApplyNet(p: Pool, e: Event, t: int)
    ensures Net(Apply(p, e).ticks, t) == Net(p.ticks, t) + EventDelta(e, t)
  {
  }

  lemma {:induction false} ApplyAllEffect(p: Pool, evs: seq<Event>, t: int)
    ensures Net(ApplyAll(p, evs).ticks, t) == Net(p.ticks, t) + Delta(evs, t)
    ensures ApplyAll(p, evs).tick == LastTick(evs, p.tick)
  {
    if evs != [] {
      var init := evs[..|evs| - 1];
      ApplyAllEffect(p, init, t);
      ApplyNet(ApplyAll(p, init), evs[|evs| - 1], t);
    }
  }

  // ---------- the chain ----------

  /** A pool of the chain: the parsed events of every block, and the tick it is initialized at, in the block where
      it is. Initializing is none of the events the reactor sees. */
  datatype OnChain = OnChain(chain: Chain, a: Address, inits: imap<nat, int32>)

  ghost function EventsIn(c: OnChain, h: nat): seq<Event> {
    EventsOf(Block(c.chain, h), c.a)
  }

  /** The current tick at the beginning of block `h`, after an initialization. */
  ghost function OpenTick(c: OnChain, h: nat, tick: int32): int32 {
    if h in c.inits then c.inits[h] else tick
  }

  /** The pool on chain at the end of block `b`; its ticks may keep zero entries. */
  ghost function Truth(c: OnChain, b: nat): Pool {
    if b == 0 then EMPTY_POOL
    else var before := Truth(c, b - 1); ApplyAll(before.(tick := OpenTick(c, b, before.tick)), EventsIn(c, b))
  }

  /** Same current tick and same LiquidityNet at every tick, absent ticks counting as zero. */
  ghost predicate Agree(p: Pool, q: Pool) {
    p.tick == q.tick && forall t :: Net(p.ticks, t) == Net(q.ticks, t)
  }

  /** What the lens returns for a pool read at the end of block `s.height`. */
  ghost predicate IsSnapshot(s: PoolState, c: OnChain) {
    && 0 < s.height < TWO_64
    && Agree(StoreSnapshot(EMPTY_POOL, s), Truth(c, s.height))
  }

  /** A lookup answers with the chain's state at some block from `b` on, possibly a later one than any processed. */
  ghost predicate Faithful(lookup: Result<PoolState>, c: OnChain, b: nat) {
    lookup.Ok? ==> b <= lookup.value.height && IsSnapshot(lookup.value, c)
  }

  function TickAfter(e: Event, tick: int): int {
    match e case Swap(_, t) => Narrow(t) case _ => tick
  }

  /** What a block does after its first event, which is never applied, and an initialization, which is never seen,
      cancel out: the block changes every tick, and the current one, as its first event does to a pool whose tick is
      `tick`. */
  ghost predicate DroppedCancel(evs: seq<Event>, tick: int, openTick: int) {
    if evs == [] then tick == openTick
    else
      && (forall t :: Delta(evs, t) == EventDelta(evs[0], t))
      && LastTick(evs, openTick) == TickAfter(evs[0], tick)
  }

  /** At most one event of the pool in the block is the plain way to drop nothing. */
  lemma AtMostOneCancels(evs: seq<Event>, tick: int)
    requires |evs| <= 1
    ensures DroppedCancel(evs, tick, tick)
  {
    if |evs| == 1 {
      assert evs[..|evs| - 1] == [];
      forall t ensures Delta(evs, t) == EventDelta(evs[0], t) {
        assert Delta([], t) == 0;
      }
    }
  }

  lemma FirstOnlyAgreesIff(p: Pool, q: Pool, evs: seq<Event>)
    requires evs != [] && forall t :: Net(p.ticks, t) == Net(q.ticks, t)
    ensures Agree(Apply(p, evs[0]), ApplyAll(q, evs)) <==> DroppedCancel(evs, p.tick, q.tick)
  {
    var one, all := Apply(p, evs[0]), ApplyAll(q, evs);
    forall t ensures Net(one.ticks, t) == Net(all.ticks, t) <==> Delta(evs, t) == EventDelta(evs[0], t) {
      ApplyNet(p, evs[0], t);
      ApplyAllEffect(q, evs, t);
    }
    ApplyAllEffect(q, evs, 0);
  }

  /** For a pool that agrees with the chain before a block and is behind it, applying only the first event is right
      exactly when the dropped ones cancel. */
  lemma BlockAgreesIff(p: Pool, c: OnChain, b: uint64, lookup: Result<PoolState>)
    requires 0 < p.height < b && Agree(p, Truth(c, b - 1))
    ensures Agree(PoolSpec(p, EventsIn(c, b), b, lookup), Truth(c, b)) <==>
            DroppedCancel(EventsIn(c, b), p.tick, OpenTick(c, b, p.tick))
  {
    var evs, before := EventsIn(c, b), Truth(c, b - 1);
    if evs != [] {
      var q := Apply(p, evs[0]);
      FirstOnlyAgreesIff(p, before.(tick := OpenTick(c, b, before.tick)), evs);
      assert PoolSpec(p, evs, b, lookup) == q.(height := b);
      assert Agree(q.(height := b), Truth(c, b)) <==> Agree(q, Truth(c, b));
    }
  }

  // ---------- refinement, step by step ----------

  /** A tracked pool equals the chain at its own height or the last processed one, whichever is later; an untracked
      one holds nothing. */
  ghost predicate Refines(p: Pool, b: nat, c: OnChain) {
    && Clean(p)
    && (p.height > 0 ==> Agree(p, Truth(c, Later(p.height, b))))
  }

  function Later(h: nat, b: nat): nat {
    if h < b then b else h
  }

  /** The pool that block `h` meets, if it has events loaded on a miss: when it is tracked and behind the block,
      what the block drops cancels out. */
  ghost predicate StepCancels(p: Pool, c: OnChain, h: nat, lookup: Result<PoolState>) {
    var q := if EventsIn(c, h) == [] then p else Loaded(p, lookup);
    0 < q.height < h ==> DroppedCancel(EventsIn(c, h), q.tick, OpenTick(c, h, q.tick))
  }

  lemma LoadRefines(p: Pool, b: nat, c: OnChain, lookup: Result<PoolState>)
    requires Refines(p, b, c) && Faithful(lookup, c, b)
    ensures Refines(Loaded(p, lookup), b, c)
  {
    if p.height == 0 && lookup.Ok? {
      assert StoreSnapshot(p, lookup.value) == StoreSnapshot(EMPTY_POOL, lookup.value);
    }
  }

  lemma LoadThenBlock(p: Pool, evs: seq<Event>, h: uint64, lookup: Result<PoolState>)
    ensures PoolSpec(p, evs, h, lookup) == if evs == [] then p else PoolSpec(Loaded(p, lookup), evs, h, lookup)
  {
    LoadIdempotent(p, lookup);
  }

  /** A pool that is not loaded, or not behind the block, is left as it is, and rightly so. */
  lemma LeftAlone(q: Pool, b: uint64, c: OnChain, lookup: Result<PoolState>)
    requires Refines(q, b, c) && b + 1 < TWO_64 && (q.height > b || (q.height == 0 && lookup.Err?))
    ensures PoolSpec(q, EventsIn(c, b + 1), b + 1, lookup) == q && Refines(q, b + 1, c)
  {
  }

  lemma BehindIff(q: Pool, b: uint64, c: OnChain, lookup: Result<PoolState>)
    requires Refines(q, b, c) && 0 < q.height <= b && b + 1 < TWO_64
    ensures Refines(PoolSpec(q, EventsIn(c, b + 1), b + 1, lookup), b + 1, c) <==>
            DroppedCancel(EventsIn(c, b + 1), q.tick, OpenTick(c, b + 1, q.tick))
  {
    BlockAgreesIff(q, c, b + 1, lookup);
    var after := PoolSpec(q, EventsIn(c, b + 1), b + 1, lookup);
    assert 0 < after.height <= b + 1;
  }

  /** One block keeps a pool right exactly when what it drops cancels out. */
  lemma BlockRefinesIff(p: Pool, b: uint64, c: OnChain, lookup: Result<PoolState>)
    requires Refines(p, b, c) && Faithful(lookup, c, b) && b + 1 < TWO_64
    ensures Refines(PoolSpec(p, EventsIn(c, b + 1), b + 1, lookup), b + 1, c) <==> StepCancels(p, c, b + 1, lookup)
  {
    var evs := EventsIn(c, b + 1);
    LoadThenBlock(p, evs, b + 1, lookup);
    LoadRefines(p, b, c, lookup);
    var q := if evs == [] then p else Loaded(p, lookup);
    if 0 < q.height <= b {
      BehindIff(q, b, c, lookup);
    } else if evs == [] {
      assert Refines(p, b + 1, c);
    } else {
      LeftAlone(q, b, c, lookup);
    }
  }

  // ---------- a snapshot stored late ----------

  /** When storing `s` over whatever the pool has become keeps it equal to the chain: a snapshot at least as new as
      the last finished block must overwrite every tick the pool holds; an older one must not undo anything. */
  ghost predicate LateStoreKeeps(p: Pool, s: PoolState, b: nat, c: OnChain)
    requires s.height >= 0
  {
    if b <= s.height then forall t :: Net(p.ticks, t) != 0 ==> t in Listed(s)
    else
      var past, now := Truth(c, s.height), Truth(c, b);
      && past.tick == now.tick
      && forall t :: Net(now.ticks, t) == if t in Listed(s) then Net(past.ticks, t) else Net(p.ticks, t)
  }

  lemma NetAfterStore(p: Pool, s: PoolState, t: int)
    ensures Net(StoreSnapshot(p, s).ticks, t) == if t in Listed(s) then Listed(s)[t] else Net(p.ticks, t)
  {
    WriteTicksOverrides(p.ticks, s.ticks);
  }

  lemma SnapshotNet(s: PoolState, c: OnChain, t: int)
    requires IsSnapshot(s, c)
    ensures Net(Truth(c, s.height).ticks, t) == Net(Listed(s), t)
  {
    assert Net(StoreSnapshot(EMPTY_POOL, s).ticks, t) == Net(Truth(c, s.height).ticks, t);
  }

  lemma LateStoreIff(p: Pool, s: PoolState, b: nat, c: OnChain)
    requires IsSnapshot(s, c)
    ensures Refines(StoreSnapshot(p, s), b, c) <==> LateStoreKeeps(p, s, b, c)
  {
    var q := StoreSnapshot(p, s);
    WrapNear(s.height, TWO_64);
    assert q.tick == StoreSnapshot(EMPTY_POOL, s).tick == Truth(c, s.height).tick;
    forall t
      ensures Net(q.ticks, t) == if t in Listed(s) then Net(Truth(c, s.height).ticks, t) else Net(p.ticks, t)
      ensures t !in Listed(s) ==> Net(Truth(c, s.height).ticks, t) == 0
    {
      NetAfterStore(p, s, t);
      SnapshotNet(s, c, t);
    }
  }

  // ---------- what a replay finds ----------

  /** The event changes neither a tick's LiquidityNet nor the current tick. */
  ghost predicate NoEffect(e: Event, tick: int) {
    (forall t :: EventDelta(e, t) == 0) && TickAfter(e, tick) == tick
  }

  /** The first event of every block from `base + 1` to `top` that is above `height`, so that the gate would let it
      through again, has no effect. */
  ghost predicate GateHolds(height: int, tick: int, base: nat, top: nat, c: OnChain) {
    forall h: nat :: base < h <= top && height < h && EventsIn(c, h) != [] ==> NoEffect(EventsIn(c, h)[0], tick)
  }

  /** The pool equals the chain, and its height accounts for what is in it: no finished block would change it again. */
  ghost predicate Right(p: Pool, base: nat, top: nat, c: OnChain) {
    Refines(p, top, c) && (p.height > 0 ==> GateHolds(p.height, p.tick, base, top, c))
  }

  /** The events of the pool that an attempt takes. */
  ghost function TakenEvents(t: Attempt, c: OnChain): seq<Event> {
    EventsOf(Take(Block(c.chain, t.height), t.upTo), c.a)
  }

  lemma TakenIsPrefix(t: Attempt, c: OnChain)
    requires t.upTo <= |Block(c.chain, t.height)|
    ensures TakenEvents(t, c) <= EventsIn(c, t.height)
    ensures t.upTo == |Block(c.chain, t.height)| ==> TakenEvents(t, c) == EventsIn(c, t.height)
  {
    var es := Block(c.chain, t.height);
    assert es[..|es|] == es;
    PrefixEvents(es, t.upTo, |es|, c.a);
  }

  lemma NoEffectAgrees(p: Pool, e: Event, q: Pool)
    requires Agree(p, q)
    ensures Agree(Apply(p, e), q) <==> NoEffect(e, p.tick)
  {
    forall t ensures Net(Apply(p, e).ticks, t) == Net(q.ticks, t) + EventDelta(e, t) {
      ApplyNet(p, e, t);
    }
  }

  /** What an attempt at a finished block does to a tracked pool. */
  lemma ReplayTracked(p: Pool, base: nat, top: nat, t: Attempt, c: OnChain, lookup: Result<PoolState>)
    requires Refines(p, top, c) && p.height > 0
    requires Fits(t, base, top, c.chain) && t.height <= top
    ensures var q := PoolSpec(p, TakenEvents(t, c), t.height, lookup);
            Refines(q, top, c) <==>
            (TakenEvents(t, c) != [] && p.height < t.height ==> NoEffect(TakenEvents(t, c)[0], p.tick))
  {
    var evs := TakenEvents(t, c);
    if evs != [] && p.height < t.height {
      var q := Apply(p, evs[0]);
      NoEffectAgrees(p, evs[0], Truth(c, top));
      assert Agree(q.(height := t.height), Truth(c, top)) <==> Agree(q, Truth(c, top));
    }
  }

  lemma ReplayUntracked(p: Pool, base: nat, top: nat, t: Attempt, c: OnChain, lookup: Result<PoolState>)
    requires Refines(p, top, c) && p.height == 0 && Faithful(lookup, c, top)
    requires Fits(t, base, top, c.chain) && t.height <= top
    ensures Right(PoolSpec(p, TakenEvents(t, c), t.height, lookup), base, top, c)
  {
    LoadRefines(p, top, c, lookup);
    if lookup.Ok? {
      WrapNear(lookup.value.height, TWO_64);
    }
  }

  /** An attempt at a finished block keeps a right pool right. */
  lemma ReplayKeepsRight(p: Pool, base: nat, top: nat, t: Attempt, c: OnChain, lookup: Result<PoolState>)
    requires Right(p, base, top, c) && Faithful(lookup, c, top)
    requires Fits(t, base, top, c.chain) && t.height <= top
    ensures Right(PoolSpec(p, TakenEvents(t, c), t.height, lookup), base, top, c)
  {
    if p.height == 0 {
      ReplayUntracked(p, base, top, t, c, lookup);
    } else {
      TakenIsPrefix(t, c);
      ReplayTracked(p, base, top, t, c, lookup);
    }
  }

  /** Whole attempts at the finished blocks. */
  ghost predicate ReplaysRefine(p: Pool, base: nat, top: nat, c: OnChain, lookup: Result<PoolState>) {
    forall h: uint64 :: base < h <= top ==> Refines(PoolSpec(p, EventsIn(c, h), h, lookup), top, c)
  }

  /** A pool is right exactly when it equals the chain and still does after any finished block is processed again. */
  lemma RightIff(p: Pool, base: nat, top: nat, c: OnChain, lookup: Result<PoolState>)
    requires Faithful(lookup, c, top) && top < TWO_64
    ensures Right(p, base, top, c) <==> Refines(p, top, c) && ReplaysRefine(p, base, top, c, lookup)
  {
    if Refines(p, top, c) {
      forall h: uint64 | base < h <= top
        ensures Right(p, base, top, c) ==> Refines(PoolSpec(p, EventsIn(c, h), h, lookup), top, c)
        ensures Refines(PoolSpec(p, EventsIn(c, h), h, lookup), top, c) && p.height > 0 ==>
                EventsIn(c, h) == [] || p.height >= h || NoEffect(EventsIn(c, h)[0], p.tick)
      {
        var t := Attempt(None, h, |Block(c.chain, h)|, true);
        TakenIsPrefix(t, c);
        if p.height > 0 {
          ReplayTracked(p, base, top, t, c, lookup);
        } else {
          ReplayUntracked(p, base, top, t, c, lookup);
        }
      }
    }
  }

  // ---------- one step of a run ----------

  /** An attempt at the next block that takes events of the pool, or finishes the block, must not drop what counts. */
  ghost predicate AttemptKeeps(p: Pool, top: nat, t: Attempt, c: OnChain, lookup: Result<PoolState>) {
    t.height == top + 1 && (t.finished || TakenEvents(t, c) != []) ==> StepCancels(p, c, t.height, lookup)
  }

  lemma NextBlockTaken(p: Pool, top: nat, t: Attempt, c: OnChain, lookup: Result<PoolState>)
    requires Refines(p, top, c) && Faithful(lookup, c, top) && top + 1 < TWO_64
    requires t.height == top + 1 && t.upTo <= |Block(c.chain, t.height)| && TakenEvents(t, c) != []
    ensures var q := PoolSpec(p, TakenEvents(t, c), t.height, lookup);
            && (q.height == 0 || q.height > top)
            && (Refines(q, top, c) <==> StepCancels(p, c, t.height, lookup))
            && (Refines(q, top + 1, c) <==> StepCancels(p, c, t.height, lookup))
  {
    TakenIsPrefix(t, c);
    FirstEventDecides(p, TakenEvents(t, c), EventsIn(c, t.height), t.height, lookup);
    BlockRefinesIff(p, top, c, lookup);
  }

  /** An attempt that takes no event of the pool leaves it as it is; finishing the block can still make it wrong. */
  lemma NothingTaken(p: Pool, base: nat, top: nat, t: Attempt, c: OnChain, lookup: Result<PoolState>)
    requires Right(p, base, top, c) && Faithful(lookup, c, top) && top + 1 < TWO_64
    requires Fits(t, base, top, c.chain) && t.height == top + 1 && TakenEvents(t, c) == []
    ensures Refines(p, NewTop(top, t), c) <==> AttemptKeeps(p, top, t, c, lookup)
    ensures AttemptKeeps(p, top, t, c, lookup) ==> Right(p, base, NewTop(top, t), c)
  {
    if t.finished {
      TakenIsPrefix(t, c);
      BlockRefinesIff(p, top, c, lookup);
    }
  }

  lemma EventsTaken(p: Pool, base: nat, top: nat, t: Attempt, c: OnChain, lookup: Result<PoolState>)
    requires Refines(p, top, c) && Faithful(lookup, c, top) && top + 1 < TWO_64
    requires Fits(t, base, top, c.chain) && t.height == top + 1 && TakenEvents(t, c) != []
    ensures var q := PoolSpec(p, TakenEvents(t, c), t.height, lookup);
            && (Refines(q, NewTop(top, t), c) <==> AttemptKeeps(p, top, t, c, lookup))
            && (AttemptKeeps(p, top, t, c, lookup) ==> Right(q, base, NewTop(top, t), c))
  {
    NextBlockTaken(p, top, t, c, lookup);
  }

  /** An attempt keeps a pool equal to the chain exactly when AttemptKeeps says so, and then it keeps it right. */
  lemma AttemptIff(p: Pool, base: nat, top: nat, t: Attempt, c: OnChain, lookup: Result<PoolState>)
    requires Right(p, base, top, c) && Faithful(lookup, c, top) && top + 1 < TWO_64
    requires Fits(t, base, top, c.chain)
    ensures var q := PoolSpec(p, TakenEvents(t, c), t.height, lookup);
            && (Refines(q, NewTop(top, t), c) <==> AttemptKeeps(p, top, t, c, lookup))
            && (AttemptKeeps(p, top, t, c, lookup) ==> Right(q, base, NewTop(top, t), c))
  {
    if t.height <= top {
      ReplayKeepsRight(p, base, top, t, c, lookup);
    } else if TakenEvents(t, c) != [] {
      EventsTaken(p, base, top, t, c, lookup);
    } else {
      NothingTaken(p, base, top, t, c, lookup);
    }
  }

  /** A snapshot stored late keeps the pool right when it keeps it equal to the chain and, if it lowers the height, no
      finished block above it would have an effect again. */
  ghost predicate LateStoreRight(p: Pool, s: PoolState, base: nat, top: nat, c: OnChain)
    requires s.height >= 0
  {
    LateStoreKeeps(p, s, top, c) && GateHolds(s.height, Int32(s.tick), base, top, c)
  }

  /** Reading a missing pool, fetching its snapshot and storing it are separate steps: storing it after other steps
      were taken keeps the pool right exactly in these cases. */
  lemma LateStoreRightIff(p: Pool, s: PoolState, base: nat, top: nat, c: OnChain)
    requires IsSnapshot(s, c)
    ensures Right(StoreSnapshot(p, s), base, top, c) <==> LateStoreRight(p, s, base, top, c)
  {
    LateStoreIff(p, s, top, c);
    WrapNear(s.height, TWO_64);
  }

  lemma LoadKeepsRight(p: Pool, base: nat, top: nat, c: OnChain, lookup: Result<PoolState>)
    requires Right(p, base, top, c) && Faithful(lookup, c, top)
    ensures Right(Loaded(p, lookup), base, top, c)
  {
    LoadRefines(p, top, c, lookup);
    if lookup.Ok? {
      WrapNear(lookup.value.height, TWO_64);
    }
  }

  // ---------- runs ----------

  /** What a pool meets, the latest last: attempts at blocks, each with the lookup it would make, by processes
      crashing and restarting; API queries, whole; and the storing of a snapshot that a query had fetched when the
      pool was missing. */
  datatype History =
    | Start
    | Attempted(before: History, t: Attempt, env: Env)
    | ApiQuery(before: History, env: Env)
    | LateStore(before: History, s: PoolState)

  function AttemptsOf(run: History): Replay.History {
    match run
    case Start => NoAttempt
    case Attempted(before, t, _) => Then(AttemptsOf(before), t)
    case ApiQuery(before, _) => AttemptsOf(before)
    case LateStore(before, _) => AttemptsOf(before)
  }

  /** The highest block finished, from `base` on. */
  function TopAfter(base: nat, run: History): (top: nat)
    ensures base <= top
  {
    Top(AttemptsOf(run), base)
  }

  ghost function RunHistory(p: Pool, run: History, c: OnChain): Pool {
    match run
    case Start => p
    case Attempted(before, t, env) => PoolSpec(RunHistory(p, before, c), TakenEvents(t, c), t.height, Lookup(env, c.a))
    case ApiQuery(before, env) => Loaded(RunHistory(p, before, c), Lookup(env, c.a))
    case LateStore(before, s) => StoreSnapshot(RunHistory(p, before, c), s)
  }

  /** Every lookup is as fresh as the highest finished block. A snapshot stored late was taken at any time. */
  ghost predicate FreshLookups(base: nat, run: History, c: OnChain) {
    match run
    case Start => true
    case Attempted(before, _, env) =>
      FreshLookups(base, before, c) && Faithful(Lookup(env, c.a), c, TopAfter(base, before))
    case ApiQuery(before, env) =>
      FreshLookups(base, before, c) && Faithful(Lookup(env, c.a), c, TopAfter(base, before))
    case LateStore(before, s) => FreshLookups(base, before, c) && IsSnapshot(s, c)
  }

  /** Attempts at blocks above `base` that were finished before, or at the next one; with fresh lookups. */
  ghost predicate Possible(base: nat, run: History, c: OnChain) {
    && Within(AttemptsOf(run), base, c.chain) && base + Attempts(AttemptsOf(run)) + 1 < TWO_64
    && FreshLookups(base, run, c)
  }

  /** Nothing goes wrong at any step: no attempt at the next block drops what counts, and no late store undoes
      anything or lets anything be done again. */
  ghost predicate StepsKeep(p: Pool, base: nat, run: History, c: OnChain) {
    match run
    case Start => true
    case Attempted(before, t, env) =>
      && StepsKeep(p, base, before, c)
      && AttemptKeeps(RunHistory(p, before, c), TopAfter(base, before), t, c, Lookup(env, c.a))
    case ApiQuery(before, _) => StepsKeep(p, base, before, c)
    case LateStore(before, s) =>
      && StepsKeep(p, base, before, c)
      && s.height >= 0 && LateStoreRight(RunHistory(p, before, c), s, base, TopAfter(base, before), c)
  }

  /** The pool is right after every step of the run. */
  ghost predicate AlwaysRight(p: Pool, base: nat, run: History, c: OnChain) {
    && Right(RunHistory(p, run, c), base, TopAfter(base, run), c)
    && (run.Start? || AlwaysRight(p, base, run.before, c))
  }

  /** The pool equals the chain after every step of the run. */
  ghost predicate AlwaysRefines(p: Pool, base: nat, run: History, c: OnChain) {
    && Refines(RunHistory(p, run, c), TopAfter(base, run), c)
    && (run.Start? || AlwaysRefines(p, base, run.before, c))
  }

  lemma StepRightIff(p: Pool, base: nat, run: History, c: OnChain)
    requires !run.Start? && Possible(base, run, c)
    requires Right(RunHistory(p, run.before, c), base, TopAfter(base, run.before), c)
    requires StepsKeep(p, base, run.before, c)
    ensures Right(RunHistory(p, run, c), base, TopAfter(base, run), c) <==> StepsKeep(p, base, run, c)
    ensures !run.LateStore? && Refines(RunHistory(p, run, c), TopAfter(base, run), c) ==> StepsKeep(p, base, run, c)
  {
    var q, top := RunHistory(p, run.before, c), TopAfter(base, run.before);
    match run {
      case Attempted(before, t, env) =>
        TopGrows(AttemptsOf(before), base, c.chain);
        AttemptIff(q, base, top, t, c, Lookup(env, c.a));
      case ApiQuery(_, env) => LoadKeepsRight(q, base, top, c, Lookup(env, c.a));
      case LateStore(_, s) => LateStoreRightIff(q, s, base, top, c);
    }
  }

  /** Over every run of attempts, crashes, restarts, replays, queries and late stores, from a pool that equals the
      chain: it does so after every step, and would after any replay, exactly when no step drops, undoes or repeats
      what counts. */
  lemma {:induction false} RunRightIff(p: Pool, base: nat, run: History, c: OnChain)
    requires Refines(p, base, c) && Possible(base, run, c)
    ensures AlwaysRight(p, base, run, c) <==> StepsKeep(p, base, run, c)
  {
    if !run.Start? {
      RunRightIff(p, base, run.before, c);
      if StepsKeep(p, base, run.before, c) {
        StepRightIff(p, base, run, c);
      }
    }
  }

  predicate NoLateStore(run: History) {
    run.Start? || (!run.LateStore? && NoLateStore(run.before))
  }

  /** Where queries are atomic, staying equal to the chain and staying right are the same. */
  lemma {:induction false} RunRefinesIff(p: Pool, base: nat, run: History, c: OnChain)
    requires Refines(p, base, c) && Possible(base, run, c) && NoLateStore(run)
    ensures AlwaysRefines(p, base, run, c) <==> StepsKeep(p, base, run, c)
  {
    RunRightIff(p, base, run, c);
    if !run.Start? {
      RunRefinesIff(p, base, run.before, c);
      if StepsKeep(p, base, run.before, c) {
        RunRightIff(p, base, run.before, c);
        StepRightIff(p, base, run, c);
      }
    }
  }

  lemma RunRefines(p: Pool, base: nat, run: History, c: OnChain)
    requires Refines(p, base, c) && Possible(base, run, c) && StepsKeep(p, base, run, c)
    ensures Right(RunHistory(p, run, c), base, TopAfter(base, run), c)
  {
    RunRightIff(p, base, run, c);
  }

  /** In particular for the attempts that restarts lead to, with a configured height or a finish height on record. */
  lemma RestartsRefine(p: Pool, config: uint64, finish0: uint64, run: History, c: OnChain)
    requires Legal(AttemptsOf(run), config, finish0, c.chain) && (config != 0 || finish0 != 0)
    requires var base := Base(config, finish0);
             && base + Attempts(AttemptsOf(run)) + 1 < TWO_64
             && Refines(p, base, c) && FreshLookups(base, run, c)
    ensures var base := Base(config, finish0);
            AlwaysRight(p, base, run, c) <==> StepsKeep(p, base, run, c)
  {
    RestartsStayWithin(AttemptsOf(run), config, finish0, c.chain);
    RunRightIff(p, Base(config, finish0), run, c);
  }

  // ---------- the usual case ----------

  /** Queries are atomic, and no answer is from before the pool's initialization. */
  ghost predicate Plain(run: History, c: OnChain) {
    match run
    case Start => true
    case Attempted(before, _, env) => Plain(before, c) && AfterInit(Lookup(env, c.a), c)
    case ApiQuery(before, env) => Plain(before, c) && AfterInit(Lookup(env, c.a), c)
    case LateStore(_, _) => false
  }

  ghost predicate AfterInit(lookup: Result<PoolState>, c: OnChain) {
    lookup.Ok? ==> forall h :: h in c.inits ==> h <= lookup.value.height
  }

  lemma {:induction false} TrackedAfterInit(base: nat, run: History, c: OnChain)
    requires Plain(run, c) && FreshLookups(base, run, c)
    ensures var p := RunHistory(EMPTY_POOL, run, c); p.height > 0 ==> forall h :: h in c.inits ==> h <= p.height
  {
    if run.Attempted? || run.ApiQuery? {
      TrackedAfterInit(base, run.before, c);
      if Lookup(run.env, c.a).Ok? {
        WrapNear(Lookup(run.env, c.a).value.height, TWO_64);
      }
    }
  }

  /** A pool tracked, or loaded, from after its initialization loses nothing in a block with at most one event. */
  lemma OneEventCancels(p: Pool, c: OnChain, h: nat, lookup: Result<PoolState>)
    requires p.height > 0 ==> forall k :: k in c.inits ==> k <= p.height
    requires lookup.Ok? ==> 0 < lookup.value.height < TWO_64
    requires AfterInit(lookup, c) && |EventsIn(c, h)| <= 1
    ensures StepCancels(p, c, h, lookup)
  {
    var q := if EventsIn(c, h) == [] then p else Loaded(p, lookup);
    if lookup.Ok? {
      WrapNear(lookup.value.height, TWO_64);
    }
    if 0 < q.height < h {
      assert h !in c.inits;
      AtMostOneCancels(EventsIn(c, h), q.tick);
    }
  }

  lemma {:induction false} OneEventKeeps(base: nat, run: History, c: OnChain)
    requires Possible(base, run, c) && Plain(run, c)
    requires forall h: nat :: base < h <= TopAfter(base, run) + 1 ==> |EventsIn(c, h)| <= 1
    ensures StepsKeep(EMPTY_POOL, base, run, c)
  {
    if !run.Start? {
      OneEventKeeps(base, run.before, c);
      if run.Attempted? {
        TrackedAfterInit(base, run.before, c);
        OneEventCancels(RunHistory(EMPTY_POOL, run.before, c), c, run.t.height, Lookup(run.env, c.a));
      }
    }
  }

  /** An empty store, atomic queries, and at most one event of the pool in every block reached. */
  lemma RefinesFromEmpty(base: nat, run: History, c: OnChain)
    requires Possible(base, run, c) && Plain(run, c)
    requires forall h: nat :: base < h <= TopAfter(base, run) + 1 ==> |EventsIn(c, h)| <= 1
    ensures Right(RunHistory(EMPTY_POOL, run, c), base, TopAfter(base, run), c)
  {
    OneEventKeeps(base, run, c);
    RunRefines(EMPTY_POOL, base, run, c);
  }

  // ---------- inputs on which the store goes wrong ----------

  lemma {:induction false} NothingYet(c: OnChain, b: nat)
    requires forall h: nat :: h <= b ==> EventsIn(c, h) == [] && h !in c.inits
    ensures Truth(c, b) == EMPTY_POOL
  {
    if b > 0 {
      NothingYet(c, b - 1);
    }
  }

  /** A late store that leaves the pool equal to the chain, but lowers its height: a replay of block 8 counts its
      mint twice. */
  lemma LateStoreThenReplay(a: Address)
    ensures var c := OnChain(imap[8 := [Mint(a, 0, 60, 5)]], a, imap[]);
            var p, s := Pool(8, 60, 0, map[0 := 5, 60 := -5]), PoolState(None, None, 7, 60, 0, []);
            var q := StoreSnapshot(p, s);
            && Refines(p, 8, c) && IsSnapshot(s, c) && LateStoreKeeps(p, s, 8, c) && !LateStoreRight(p, s, 7, 8, c)
            && Refines(q, 8, c)
            && Net(PoolSpec(q, EventsIn(c, 8), 8, Err(CallFailed)).ticks, 0) == 10
  {
    var c := OnChain(imap[8 := [Mint(a, 0, 60, 5)]], a, imap[]);
    var p, s := Pool(8, 60, 0, map[0 := 5, 60 := -5]), PoolState(None, None, 7, 60, 0, []);
    var evs := [Mint(a, 0, 60, 5)];
    EventsOfAppend([], evs[0], a);
    assert EventsIn(c, 8) == evs == [] + [evs[0]];
    NothingYet(c, 7);
    var truth := Truth(c, 8);
    assert truth == Apply(EMPTY_POOL, evs[0]) by {
      assert evs[..0] == [] && ApplyAll(EMPTY_POOL, []) == EMPTY_POOL;
    }
    WrapNear(7, TWO_64);
    assert StoreSnapshot(EMPTY_POOL, s) == Pool(7, 60, 0, map[]);
    assert StoreSnapshot(p, s) == Pool(7, 60, 0, map[0 := 5, 60 := -5]);
    LateStoreIff(p, s, 8, c);
    assert EventDelta(evs[0], 0) == 5;
  }

  /** A pool queried after its creation and before its initialization, at tick 100 in block 9, keeps tick 0. */
  lemma InitializationIsMissed(a: Address)
    ensures var c := OnChain(imap[], a, imap[9 := 100]);
            var p := Pool(8, 60, 0, map[]);
            && Refines(p, 8, c) && !Refines(p, 9, c)
            && forall lookup :: PoolSpec(p, EventsIn(c, 9), 9, lookup) == p
  {
    var c := OnChain(imap[], a, imap[9 := 100]);
    NothingYet(c, 8);
    assert EventsIn(c, 9) == [];
  }

  /** Two mints of one pool in one block: the second never reaches the store. */
  lemma SecondMintIsLost(a: Address)
    ensures var mint := Mint(a, 0, 60, 5);
            var before := Pool(7, 60, 0, map[]);
            var stored := PoolSpec(before, [mint, mint], 8, Err(CallFailed));
            Net(stored.ticks, 0) == 5 && Net(ApplyAll(before, [mint, mint]).ticks, 0) == 10
  {
    var mint := Mint(a, 0, 60, 5);
    var before := Pool(7, 60, 0, map[]);
    assert [mint, mint][..1] == [mint] && [mint][..0] == [];
    ApplyAllEffect(before, [mint, mint], 0);
    assert Delta([mint], 0) == 5;
  }
}
