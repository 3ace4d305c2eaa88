/** From delivered blocks to served liquidity: consumer, parser, reactor, byte store and query composed
    (block_crawler.go, block_parser.go, event_reactor.go, api_server.go). */
module EndToEnd {
  import opened Ints
  import opened TickKey
  import opened Types
  import opened DbWrap
  import opened PoolStateGetters
  import opened EventReactors
  import opened Replay
  import opened ChainRefinement
  import opened BlockParser
  import opened Amounts
  import opened Liquidity
  import opened Positions
  import opened ApiServer
  import Pipeline

  // ---------- the consumer ----------

  datatype BlockReceipt = BlockReceipt(height: uint64, receipts: seq<Receipt>)

  function PoolEvents(block: BlockReceipt, a: Address): seq<Event> {
    EventsOf(LogEvents(BlockLogs(block.receipts)), a)
  }

  /** What a block gives one pool: its events, the height, and the answer of its lookup. */
  datatype Given = Given(evs: seq<Event>, height: uint64, lookup: Result<PoolState>)

  function AllGiven(blocks: seq<BlockReceipt>, envs: seq<Env>, a: Address): (gs: seq<Given>)
    requires |blocks| == |envs|
    ensures |gs| == |blocks|
  {
    seq(|blocks|, i requires 0 <= i < |blocks| =>
      Given(PoolEvents(blocks[i], a), blocks[i].height, Lookup(envs[i], a)))
  }

  function React(p: Pool, g: Given): Pool {
    PoolSpec(p, g.evs, g.height, g.lookup)
  }

  /** One pool across blocks, each with the lookups made while it is processed. */
  function Fold(p: Pool, blocks: seq<BlockReceipt>, envs: seq<Env>, a: Address): Pool
    requires |blocks| == |envs|
  {
    FoldLeft(React, p, AllGiven(blocks, envs, a))
  }

  /** A fold from the left, for any step. */
  function FoldLeft<S, G>(step: (S, G) -> S, s: S, gs: seq<G>): S {
    if gs == [] then s else step(FoldLeft(step, s, gs[..|gs| - 1]), gs[|gs| - 1])
  }

  lemma FoldOneMore<S, G>(step: (S, G) -> S, s: S, gs: seq<G>, g: G)
    ensures FoldLeft(step, s, gs + [g]) == step(FoldLeft(step, s, gs), g)
  {
    assert (gs + [g])[..|gs|] == gs;
  }

  lemma {:induction false} FoldConcat<S, G>(step: (S, G) -> S, s: S, gs: seq<G>, hs: seq<G>)
    ensures FoldLeft(step, s, gs + hs) == FoldLeft(step, FoldLeft(step, s, gs), hs)
  {
    if hs == [] {
      assert gs + hs == gs;
    } else {
      var n := |hs| - 1;
      FoldConcat(step, s, gs, hs[..n]);
      FoldOneMore(step, s, gs + hs[..n], hs[n]);
      FoldOneMore(step, FoldLeft(step, s, gs), hs[..n], hs[n]);
      assert gs + hs == gs + hs[..n] + [hs[n]] && hs == hs[..n] + [hs[n]];
    }
  }

  lemma AllGivenConcat(bs: seq<BlockReceipt>, es: seq<Env>, cs: seq<BlockReceipt>, fs: seq<Env>, a: Address)
    requires |bs| == |es| && |cs| == |fs|
    ensures AllGiven(bs + cs, es + fs, a) == AllGiven(bs, es, a) + AllGiven(cs, fs, a)
  {
  }

  lemma FoldBlocksConcat(p: Pool, bs: seq<BlockReceipt>, es: seq<Env>, cs: seq<BlockReceipt>, fs: seq<Env>, a: Address)
    requires |bs| == |es| && |cs| == |fs|
    ensures Fold(p, bs + cs, es + fs, a) == Fold(Fold(p, bs, es, a), cs, fs, a)
  {
    AllGivenConcat(bs, es, cs, fs, a);
    FoldConcat(React, p, AllGiven(bs, es, a), AllGiven(cs, fs, a));
  }

  /** A single block is what the reactor does to the pool. */
  lemma FoldOne(p: Pool, block: BlockReceipt, env: Env, a: Address)
    ensures Fold(p, [block], [env], a) == PoolSpec(p, PoolEvents(block, a), block.height, Lookup(env, a))
  {
    var g := Given(PoolEvents(block, a), block.height, Lookup(env, a));
    FoldOneMore(React, p, [], g);
    assert AllGiven([block], [env], a) == [] + [g];
  }

  /** A fatal lookup stopped the block at some event: the pools are as after the events before it. */
  ghost predicate CutShort(before: World, after: World, block: BlockReceipt, env: Env) {
    var es := LogEvents(BlockLogs(block.receipts));
    exists k :: 0 <= k < |es| && FatalAt(before, es, env, k) &&
      forall a: Address :: At(after, a) == EventReactors.After(before, es[..k], block.height, env, a)
  }

  /** The blocks before block `n` were processed whole, and block `n` was cut short. */
  ghost predicate StoppedIn(before: World, after: World, blocks: seq<BlockReceipt>, envs: seq<Env>, n: nat)
    requires |blocks| == |envs| && n < |blocks|
  {
    exists mid: World :: CutShort(mid, after, blocks[n], envs[n]) && Processed(before, mid, blocks[..n], envs[..n])
  }

  ghost predicate Processed(before: World, after: World, blocks: seq<BlockReceipt>, envs: seq<Env>)
    requires |blocks| == |envs|
  {
    forall a: Address :: At(after, a) == Fold(At(before, a), blocks, envs, a)
  }

  /** The parser's PutInput, which hands its result to the reactor's. */
  method PutInput(reactor: EventReactor, block: BlockReceipt, env: Env) returns (err: Option<Error>)
    requires reactor.db.Valid() && reactor.poolStateGetter.db == reactor.db
    modifies reactor.db, reactor.db.db
    ensures reactor.db.Valid()
    ensures err.None? ==> reactor.db.finish == block.height
    ensures err.None? ==> Processed(old(reactor.db.pools), reactor.db.pools, [block], [env])
    ensures err.Some? ==> reactor.db.finish == old(reactor.db.finish)
    ensures err.Some? ==> CutShort(old(reactor.db.pools), reactor.db.pools, block, env)
  {
    ghost var before := reactor.db.pools;
    var be := ParseBlock(block.height, block.receipts);
    err := reactor.ReactBlockEvent(be, env);
    if err.None? {
      forall a: Address ensures At(reactor.db.pools, a) == Fold(At(before, a), [block], [env], a) {
        FoldOne(At(before, a), block, env, a);
        assert reactor.db.View(a) == EventReactors.After(before, be.events, be.height, env, a);
      }
    }
  }

  lemma ProcessedConcat(w0: World, w1: World, w2: World, bs: seq<BlockReceipt>, es: seq<Env>, cs: seq<BlockReceipt>,
      fs: seq<Env>)
    requires |bs| == |es| && |cs| == |fs|
    requires Processed(w0, w1, bs, es)
    ensures Processed(w0, w2, bs + cs, es + fs) <==> Processed(w1, w2, cs, fs)
  {
    forall a: Address ensures Fold(At(w0, a), bs + cs, es + fs, a) == Fold(At(w1, a), cs, fs, a) {
      FoldBlocksConcat(At(w0, a), bs, es, cs, fs, a);
    }
  }

  /** The consumer: each delivered block in order; a fatal lookup ends the process in the middle of one. */
  method CommitOutput(reactor: EventReactor, blocks: seq<BlockReceipt>, envs: seq<Env>) returns (err: Option<Error>)
    requires |blocks| == |envs|
    requires reactor.db.Valid() && reactor.poolStateGetter.db == reactor.db
    modifies reactor.db, reactor.db.db
    ensures reactor.db.Valid()
    ensures err.None? ==>
        && Processed(old(reactor.db.pools), reactor.db.pools, blocks, envs)
        && reactor.db.finish == if blocks == [] then old(reactor.db.finish) else blocks[|blocks| - 1].height
    ensures err.Some? ==>
        exists n :: 0 <= n < |blocks| && StoppedIn(old(reactor.db.pools), reactor.db.pools, blocks, envs, n)
                    && reactor.db.finish == if n == 0 then old(reactor.db.finish) else blocks[n - 1].height
  {
    ghost var before := reactor.db.pools;
    for i := 0 to |blocks|
      invariant reactor.db.Valid()
      invariant Processed(before, reactor.db.pools, blocks[..i], envs[..i])
      invariant reactor.db.finish == if i == 0 then old(reactor.db.finish) else blocks[i - 1].height
    {
      ghost var mid := reactor.db.pools;
      err := PutInput(reactor, blocks[i], envs[i]);
      if err.Some? {
        assert StoppedIn(before, reactor.db.pools, blocks, envs, i);
        return;
      }
      ProcessedConcat(before, mid, reactor.db.pools, blocks[..i], envs[..i], [blocks[i]], [envs[i]]);
      assert blocks[..i + 1] == blocks[..i] + [blocks[i]] && envs[..i + 1] == envs[..i] + [envs[i]];
    }
    assert blocks[..|blocks|] == blocks && envs[..|envs|] == envs;
    err := None;
  }

  // ---------- the history a pool was given ----------

  /** The state from which a pool is tracked, the events applied to it since, and its height. */
  datatype Tracked = Tracked(base: Pool, applied: seq<Event>, height: uint64)

  function TrackBlock(t: Tracked, g: Given): Tracked {
    if g.evs == [] || (t.height == 0 && g.lookup.Err?) then t
    else
      var u := if t.height == 0 then var q := Loaded(t.base, g.lookup); Tracked(q, [], q.height) else t;
      if u.height >= g.height then u else Tracked(u.base, u.applied + [g.evs[0]], g.height)
  }

  function TrackGiven(p: Pool, gs: seq<Given>): Tracked {
    if gs == [] then Tracked(p, [], p.height) else TrackBlock(TrackGiven(p, gs[..|gs| - 1]), gs[|gs| - 1])
  }

  function Tracking(p: Pool, blocks: seq<BlockReceipt>, envs: seq<Env>, a: Address): Tracked
    requires |blocks| == |envs|
  {
    TrackGiven(p, AllGiven(blocks, envs, a))
  }

  /** The pool that `t` describes. */
  function Current(t: Tracked): Pool {
    ApplyAll(t.base, t.applied).(height := t.height)
  }

  predicate Untouched(t: Tracked) {
    t.height == 0 ==> t.applied == [] && t.base.height == 0
  }

  lemma ApplyOneMore(base: Pool, evs: seq<Event>, e: Event, height: uint64, h: uint64)
    ensures Current(Tracked(base, evs + [e], h)) == Apply(Current(Tracked(base, evs, height)), e).(height := h)
  {
    assert (evs + [e])[..|evs|] == evs;
    var x := ApplyAll(base, evs);
    assert Apply(x.(height := height), e).(height := h) == Apply(x, e).(height := h);
  }

  lemma NothingApplied(base: Pool)
    ensures Current(Tracked(base, [], base.height)) == base
  {
  }

  lemma LoadBlockIsSpec(base: Pool, g: Given)
    requires g.evs != [] && base.height == 0 && g.lookup.Ok?
    ensures Current(TrackBlock(Tracked(base, [], 0), g)) == PoolSpec(base, g.evs, g.height, g.lookup)
  {
    var q := StoreSnapshot(base, g.lookup.value);
    NothingApplied(q);
    ApplyOneMore(q, [], g.evs[0], q.height, g.height);
  }

  lemma TrackBlockIsSpec(t: Tracked, g: Given)
    requires Untouched(t)
    ensures Current(TrackBlock(t, g)) == PoolSpec(Current(t), g.evs, g.height, g.lookup)
  {
    if g.evs != [] {
      if t.height > 0 {
        ApplyOneMore(t.base, t.applied, g.evs[0], t.height, g.height);
      } else if g.lookup.Ok? {
        NothingApplied(t.base);
        LoadBlockIsSpec(t.base, g);
      }
    }
  }

  lemma TrackBlockUntouched(t: Tracked, g: Given)
    requires Untouched(t)
    ensures Untouched(TrackBlock(t, g))
  {
  }

  lemma {:induction false} TrackGivenIsFold(p: Pool, gs: seq<Given>)
    ensures FoldLeft(React, p, gs) == Current(TrackGiven(p, gs)) && Untouched(TrackGiven(p, gs))
  {
    if gs == [] {
      NothingApplied(p);
    } else {
      var n := |gs| - 1;
      TrackGivenIsFold(p, gs[..n]);
      TrackBlockIsSpec(TrackGiven(p, gs[..n]), gs[n]);
      TrackBlockUntouched(TrackGiven(p, gs[..n]), gs[n]);
    }
  }

  /** The stored pool is its base with exactly the applied events on top. */
  lemma TrackingIsFold(p: Pool, blocks: seq<BlockReceipt>, envs: seq<Env>, a: Address)
    requires |blocks| == |envs|
    ensures Fold(p, blocks, envs, a) == Current(Tracking(p, blocks, envs, a))
    ensures Untouched(Tracking(p, blocks, envs, a))
  {
    TrackGivenIsFold(p, AllGiven(blocks, envs, a));
  }

  // ---------- event history to served liquidity ----------

  /** Whatever the blocks, what is served at every tick is what the base served there, plus the applied mints covering
      it minus the applied burns. */
  lemma ServedAfterBlocks(p: Pool, blocks: seq<BlockReceipt>, envs: seq<Env>, a: Address, t: int)
    requires |blocks| == |envs|
    requires var k := Tracking(p, blocks, envs, a); Balanced(k.base.ticks) && AllProper(k.applied)
    ensures var k := Tracking(p, blocks, envs, a);
            LiquidityAt(Served(Fold(p, blocks, envs, a).ticks), t) ==
                LiquidityAt(Served(k.base.ticks), t) + Coverage(k.applied, t)
  {
    var k := Tracking(p, blocks, envs, a);
    TrackingIsFold(p, blocks, envs, a);
    HistoryServed(k.base, k.applied, t);
  }

  /** What the handler renders: the pool's state for the liquidity kind, token amounts for the two others. */
  datatype Response = StateOf(s: PoolState) | AmountsOf(s: PoolState, amounts: seq<RangeAmount>)

  /** The query handler; a pool that is stored is answered from the bytes. */
  method HandlerPoolState(getter: PoolStateGetter, addr: Address, params: PoolStateParams, env: Env, sp: SqrtPrice)
    returns (r: Result<Response>)
    requires getter.db.Valid()
    requires params.kind in {TYPE_LIQUIDITY, TYPE_TOKEN_AMOUNT, TYPE_TOKEN_AMOUNT_DETAIL}
    requires var q := QueryAnswer(getter.db.View(addr), env, addr);
             q.Ok? && params.kind != TYPE_LIQUIDITY ==> Servable(q.value)
    modifies getter.db, getter.db.db
    ensures getter.db.Valid() && getter.db.finish == old(getter.db.finish)
    ensures OnlyAt(old(getter.db.pools), getter.db.pools, addr, Loaded(old(getter.db.View(addr)), Lookup(env, addr)))
    ensures match QueryAnswer(old(getter.db.View(addr)), env, addr)
            case Err(e) => r == Err(e)
            case Ok(s) => IsResponse(r, s, params.tickOffset, params.kind, sp)
  {
    var got := getter.GetPoolState(addr, env);
    match got {
      case Err(e) => r := Err(e);
      case Ok(s) =>
        if params.kind == TYPE_LIQUIDITY {
          r := Ok(StateOf(s));
        } else {
          var rs := AnswerRanges(s, params.tickOffset, params.kind == TYPE_TOKEN_AMOUNT_DETAIL);
          var amounts := CalcRangeAmountArray(rs, s.token0.value.decimals, s.token1.value.decimals, sp);
          r := Ok(AmountsOf(s, amounts));
        }
    }
  }

  /** Kind "1" is answered with the state; "2" and "3" with the amounts of the answered ranges, scaled by the
      decimals of the pool's own first and second token. */
  ghost predicate IsResponse(r: Result<Response>, s: PoolState, offset: uint64, kind: string, sp: SqrtPrice) {
    if kind == "1" then r == Ok(StateOf(s))
    else
      && (kind == "2" || kind == "3") && Servable(s) && s.token0.Some? && s.token1.Some?
      && r.Ok? && r.value.AmountsOf? && r.value.s == s
      && var rs := Answer(s, offset, kind == "3");
         && |r.value.amounts| == |rs|
         && forall i :: 0 <= i < |rs| ==>
              r.value.amounts[i] == AmountOf(rs[i], s.token0.value.decimals, s.token1.value.decimals, sp)
  }

  /** Blocks, then a query: from parsed logs through byte keys, scan, prefix sums, window and split, the answer for a
      tracked pool has at every tick of the window the sum of the positions covering it. */
  lemma AnswerAfterBlocks(p: Pool, blocks: seq<BlockReceipt>, envs: seq<Env>, a: Address, env: Env,
                          offset: uint64, detail: bool, t: int)
    requires |blocks| == |envs| && PairOf(env, a).Ok?
    requires var k := Tracking(p, blocks, envs, a); k.height > 0 && Balanced(k.base.ticks) && AllProper(k.applied)
    requires 0 < Fold(p, blocks, envs, a).spacing < 0x80_0000
    ensures var k := Tracking(p, blocks, envs, a);
            var r := QueryAnswer(Fold(p, blocks, envs, a), env, a);
            && r.Ok? && Servable(r.value)
            && var w := Window(r.value, offset);
               w.0 <= t < w.1 ==>
                 LiquidityAt(Answer(r.value, offset, detail), t) ==
                     LiquidityAt(Served(k.base.ticks), t) + Coverage(k.applied, t)
  {
    var q := Fold(p, blocks, envs, a);
    TrackingIsFold(p, blocks, envs, a);
    AscListLists(q.ticks, MIN_TICK, MAX_TICK);
    ServedAfterBlocks(p, blocks, envs, a, t);
    AnswerMeaning(QueryAnswer(q, env, a).value, offset, detail, t);
  }

  // ---------- blocks and the attempts of a restart ----------

  /** What happened, as events. */
  function AsEvents(actions: seq<Action>): seq<Event> {
    seq(|actions|, i requires 0 <= i < |actions| => AsEvent(actions[i]))
  }

  /** Two lists of events with the same effects on a pool, one by one. */
  ghost predicate Alike(es: seq<Event>, fs: seq<Event>) {
    && |es| == |fs|
    && (forall i :: 0 <= i < |es| ==> es[i].address == fs[i].address)
    && (forall i, p :: 0 <= i < |es| ==> Apply(p, es[i]) == Apply(p, fs[i]))
  }

  lemma {:induction false} AlikeForPool(es: seq<Event>, fs: seq<Event>, a: Address)
    requires Alike(es, fs)
    ensures Alike(EventsOf(es, a), EventsOf(fs, a))
  {
    if es != [] {
      var n := |es| - 1;
      AlikeForPool(es[..n], fs[..n], a);
      InitLast(es);
      InitLast(fs);
      EventsOfAppend(es[..n], es[n], a);
      EventsOfAppend(fs[..n], fs[n], a);
    }
  }

  lemma AlikeReact(es: seq<Event>, fs: seq<Event>, p: Pool, a: Address, h: uint64, lookup: Result<PoolState>)
    requires Alike(es, fs)
    ensures PoolSpec(p, EventsOf(es, a), h, lookup) == PoolSpec(p, EventsOf(fs, a), h, lookup)
  {
    AlikeForPool(es, fs, a);
    AlikeFirst(EventsOf(es, a), EventsOf(fs, a), p, h, lookup);
  }

  lemma AlikeFirst(es: seq<Event>, fs: seq<Event>, p: Pool, h: uint64, lookup: Result<PoolState>)
    requires Alike(es, fs)
    ensures PoolSpec(p, es, h, lookup) == PoolSpec(p, fs, h, lookup)
  {
    if es != [] {
      var q := Loaded(p, lookup);
      assert Apply(q, es[0]) == Apply(q, fs[0]);
    }
  }

  /** A block processed whole is to every pool a finished attempt at what happened in it on chain, and one cut short
      an unfinished one. */
  lemma BlockIsAttempt(before: World, after: World, block: BlockReceipt, actions: seq<seq<Action>>, env: Env,
                       whole: bool, restart: Option<uint64>, chain: Chain) returns (t: Attempt)
    requires RecordBlock(block.receipts, actions)
    requires Block(chain, block.height) == AsEvents(Did(block.receipts, actions))
    requires if whole then Processed(before, after, [block], [env]) else CutShort(before, after, block, env)
    ensures t.restart == restart && t.height == block.height && t.finished == whole
    ensures t.upTo <= |Block(chain, t.height)| && (whole ==> t.upTo == |Block(chain, t.height)|)
    ensures forall a: Address :: At(after, a) == AttemptOn(At(before, a), t, chain, a, env)
  {
    var es, fs := LogEvents(BlockLogs(block.receipts)), Block(chain, block.height);
    ReceiptsDecode(block.receipts, actions);
    assert Alike(es, fs);
    if whole {
      t := Attempt(restart, block.height, |es|, true);
      WholeIsAttempt(before, after, block, env, t, chain);
    } else {
      var k :| 0 <= k < |es| && FatalAt(before, es, env, k) &&
        forall a: Address :: At(after, a) == EventReactors.After(before, es[..k], block.height, env, a);
      t := Attempt(restart, block.height, k, false);
      CutIsAttempt(before, after, block, env, t, chain);
    }
  }

  lemma WholeIsAttempt(before: World, after: World, block: BlockReceipt, env: Env, t: Attempt, chain: Chain)
    requires var es := LogEvents(BlockLogs(block.receipts));
             Alike(es, Block(chain, block.height)) && t.height == block.height && t.upTo == |es|
    requires Processed(before, after, [block], [env])
    ensures forall a: Address :: At(after, a) == AttemptOn(At(before, a), t, chain, a, env)
  {
    var es, fs := LogEvents(BlockLogs(block.receipts)), Block(chain, block.height);
    assert Take(fs, |es|) == fs;
    forall a: Address ensures At(after, a) == AttemptOn(At(before, a), t, chain, a, env) {
      FoldOne(At(before, a), block, env, a);
      AlikeReact(es, fs, At(before, a), a, block.height, Lookup(env, a));
    }
  }

  lemma CutIsAttempt(before: World, after: World, block: BlockReceipt, env: Env, t: Attempt, chain: Chain)
    requires var es := LogEvents(BlockLogs(block.receipts));
             Alike(es, Block(chain, block.height)) && t.height == block.height && t.upTo <= |es|
    requires forall a: Address :: At(after, a) ==
               EventReactors.After(before, LogEvents(BlockLogs(block.receipts))[..t.upTo], block.height, env, a)
    ensures forall a: Address :: At(after, a) == AttemptOn(At(before, a), t, chain, a, env)
  {
    var es, fs := LogEvents(BlockLogs(block.receipts)), Block(chain, block.height);
    assert Alike(es[..t.upTo], fs[..t.upTo]);
    forall a: Address ensures At(after, a) == AttemptOn(At(before, a), t, chain, a, env) {
      AlikeReact(es[..t.upTo], fs[..t.upTo], At(before, a), a, block.height, Lookup(env, a));
    }
  }

  ghost function AttemptOn(p: Pool, t: Attempt, chain: Chain, a: Address, env: Env): Pool {
    PoolSpec(p, EventsOf(Take(Block(chain, t.height), t.upTo), a), t.height, Lookup(env, a))
  }

  /** What happened to the store, the latest last: blocks, whole or cut short, the first of a process with the head
      it saw; and API queries of a pool, whole, or storing late a snapshot fetched before. */
  datatype StoreHistory =
    | Opened
    | Blocked(before: StoreHistory, restart: Option<uint64>, block: BlockReceipt, actions: seq<seq<Action>>, env: Env,
              whole: bool, after: World)
    | Queried(before: StoreHistory, addr: Address, env: Env, after: World)
    | StoredLate(before: StoreHistory, addr: Address, s: PoolState, after: World)

  ghost function StoreAfter(w0: World, sh: StoreHistory): World {
    if sh.Opened? then w0 else sh.after
  }

  /** The recorded finish height. */
  function FinishAfter(finish0: uint64, sh: StoreHistory): uint64 {
    match sh
    case Opened => finish0
    case Blocked(before, _, block, _, _, whole, _) => if whole then block.height else FinishAfter(finish0, before)
    case Queried(before, _, _, _) => FinishAfter(finish0, before)
    case StoredLate(before, _, _, _) => FinishAfter(finish0, before)
  }

  /** The last block was processed whole, and `h` is the height of the next. */
  predicate GoesOn(sh: StoreHistory, h: int) {
    match sh
    case Opened => false
    case Blocked(_, _, block, _, _, whole, _) => whole && h == block.height + 1
    case Queried(before, _, _, _) => GoesOn(before, h)
    case StoredLate(before, _, _, _) => GoesOn(before, h)
  }

  /** Each step is what the contracts of PutInput, GetPoolState and SetPoolState say; the chain's blocks are
      what happened in the transactions that succeeded, as their receipts record it; a process
      begins where the restart rule says and goes on with the next block. */
  ghost predicate Happened(w0: World, sh: StoreHistory, config: uint64, finish0: uint64, chain: Chain) {
    match sh
    case Opened => true
    case Blocked(before, restart, block, actions, env, whole, after) =>
      && Happened(w0, before, config, finish0, chain)
      && RecordBlock(block.receipts, actions)
      && Block(chain, block.height) == AsEvents(Did(block.receipts, actions))
      && (if whole then Processed(StoreAfter(w0, before), after, [block], [env])
          else CutShort(StoreAfter(w0, before), after, block, env))
      && (match restart
          case Some(head) => block.height == GetFromHeight(config, FinishAfter(finish0, before), head)
          case None => GoesOn(before, block.height))
    case Queried(before, addr, env, after) =>
      var w := StoreAfter(w0, before);
      Happened(w0, before, config, finish0, chain) && OnlyAt(w, after, addr, Loaded(At(w, addr), Lookup(env, addr)))
    case StoredLate(before, addr, s, after) =>
      var w := StoreAfter(w0, before);
      Happened(w0, before, config, finish0, chain) && OnlyAt(w, after, addr, StoreSnapshot(At(w, addr), s))
  }

  /** The store's history is to every pool a run: the pool is what the run leads to, the attempts are those of
      restarts, and the finish height is the one recorded. So what is proved of runs and attempts holds of the
      store. */
  lemma {:induction false} StoreHistoryIsRun(w0: World, sh: StoreHistory, config: uint64, finish0: uint64, c: OnChain)
    returns (run: ChainRefinement.History)
    requires Happened(w0, sh, config, finish0, c.chain)
    ensures RunHistory(At(w0, c.a), run, c) == At(StoreAfter(w0, sh), c.a)
    ensures Legal(AttemptsOf(run), config, finish0, c.chain)
    ensures Recorded(AttemptsOf(run), finish0) == FinishAfter(finish0, sh)
    ensures forall h :: GoesOn(sh, h) ==> EndsWith(AttemptsOf(run), h)
    ensures Mirrors(run, sh, c.a)
  {
    match sh {
      case Opened => run := ChainRefinement.Start;
      case Blocked(before, restart, block, actions, env, whole, after) =>
        var prior := StoreHistoryIsRun(w0, before, config, finish0, c);
        var t := BlockIsAttempt(StoreAfter(w0, before), after, block, actions, env, whole, restart, c.chain);
        run := Attempted(prior, t, env);
        assert At(after, c.a) == AttemptOn(At(StoreAfter(w0, before), c.a), t, c.chain, c.a, env);
      case Queried(before, addr, env, after) =>
        run := StoreHistoryIsRun(w0, before, config, finish0, c);
        if addr == c.a {
          run := ApiQuery(run, env);
        }
      case StoredLate(before, addr, s, after) =>
        run := StoreHistoryIsRun(w0, before, config, finish0, c);
        if addr == c.a {
          run := LateStore(run, s);
        }
    }
  }

  /** The last attempt finished the block below `h`. */
  predicate EndsWith(ts: Replay.History, h: int) {
    ts.Then? && ts.last.finished && h == ts.last.height + 1
  }

  /** The run has the steps that concern the pool, with their lookups and snapshots. */
  predicate Mirrors(run: ChainRefinement.History, sh: StoreHistory, a: Address) {
    match sh
    case Opened => run.Start?
    case Blocked(before, restart, block, _, env, whole, _) =>
      && run.Attempted? && run.env == env && Mirrors(run.before, before, a)
      && run.t.restart == restart && run.t.height == block.height && run.t.finished == whole
    case Queried(before, addr, env, _) =>
      if addr == a then run.ApiQuery? && run.env == env && Mirrors(run.before, before, a) else Mirrors(run, before, a)
    case StoredLate(before, addr, s, _) =>
      if addr == a then run.LateStore? && run.s == s && Mirrors(run.before, before, a) else Mirrors(run, before, a)
  }

  /** To each pool of the store the exact condition of runs applies, over all its processes, queries and late
      stores. */
  lemma StoreRightIff(w0: World, sh: StoreHistory, config: uint64, finish0: uint64, c: OnChain)
    returns (run: ChainRefinement.History)
    requires Happened(w0, sh, config, finish0, c.chain)
    requires (config != 0 || finish0 != 0) && Base(config, finish0) + BlockCount(sh) + 1 < TWO_64
    ensures Mirrors(run, sh, c.a) && RunHistory(At(w0, c.a), run, c) == At(StoreAfter(w0, sh), c.a)
    ensures var base := Base(config, finish0);
            Refines(At(w0, c.a), base, c) && FreshLookups(base, run, c) ==>
              (AlwaysRight(At(w0, c.a), base, run, c) <==> StepsKeep(At(w0, c.a), base, run, c))
  {
    run := StoreHistoryIsRun(w0, sh, config, finish0, c);
    AsManyAttempts(run, sh, c.a);
    if Refines(At(w0, c.a), Base(config, finish0), c) && FreshLookups(Base(config, finish0), run, c) {
      RestartsRefine(At(w0, c.a), config, finish0, run, c);
    }
  }

  /** Blocks only, each with the same answers: what RestartsExactlyOnce asks. */
  predicate BlocksOnly(sh: StoreHistory, env: Env) {
    sh.Opened? || (sh.Blocked? && sh.env == env && BlocksOnly(sh.before, env))
  }

  lemma {:induction false} SameAnswers(p: Pool, run: ChainRefinement.History, sh: StoreHistory, c: OnChain, env: Env)
    requires BlocksOnly(sh, env) && Mirrors(run, sh, c.a)
    ensures RunHistory(p, run, c) == RunAttempts(p, AttemptsOf(run), c.chain, c.a, env)
  {
    if sh.Blocked? {
      SameAnswers(p, run.before, sh.before, c, env);
      RunOneMore(p, AttemptsOf(run.before), run.t, c.chain, c.a, env);
    }
  }

  /** After any number of processes and blocks, each pool of the store is that of one uninterrupted run, plus the
      prefix reached of the next block. */
  lemma StoreExactlyOnce(w0: World, sh: StoreHistory, config: uint64, finish0: uint64, c: OnChain, env: Env)
    returns (ts: Replay.History)
    requires Happened(w0, sh, config, finish0, c.chain) && BlocksOnly(sh, env)
    requires (config != 0 || finish0 != 0) && Base(config, finish0) + BlockCount(sh) + 1 < TWO_64
    ensures Recorded(ts, finish0) == FinishAfter(finish0, sh)
    ensures var base := Base(config, finish0);
            && Top(ts, base) + 1 < TWO_64
            && At(StoreAfter(w0, sh), c.a) ==
                OneRun(At(w0, c.a), Top(ts, base), Partial(ts, base), base, c.chain, c.a, env)
  {
    var run := StoreHistoryIsRun(w0, sh, config, finish0, c);
    ts := AttemptsOf(run);
    SameAnswers(At(w0, c.a), run, sh, c, env);
    AsManyAttempts(run, sh, c.a);
    RestartsExactlyOnce(At(w0, c.a), ts, config, finish0, c.chain, c.a, env);
  }

  function BlockCount(sh: StoreHistory): nat {
    match sh
    case Opened => 0
    case Blocked(before, _, _, _, _, _, _) => BlockCount(before) + 1
    case Queried(before, _, _, _) => BlockCount(before)
    case StoredLate(before, _, _, _) => BlockCount(before)
  }

  lemma {:induction false} AsManyAttempts(run: ChainRefinement.History, sh: StoreHistory, a: Address)
    requires Mirrors(run, sh, a)
    ensures Attempts(AttemptsOf(run)) == BlockCount(sh)
  {
    match sh {
      case Opened =>
      case Blocked(before, _, _, _, _, _, _) => AsManyAttempts(run.before, before, a);
      case Queried(before, addr, _, _) => AsManyAttempts(if addr == a then run.before else run, before, a);
      case StoredLate(before, addr, _, _) => AsManyAttempts(if addr == a then run.before else run, before, a);
    }
  }

  // ---------- against the chain ----------

  /** Every event of the pool up to block `b`. */
  ghost function ChainHistory(c: OnChain, b: nat): seq<Event> {
    if b == 0 then [] else ChainHistory(c, b - 1) + EventsIn(c, b)
  }

  lemma ApplyAllOneMore(p: Pool, evs: seq<Event>, e: Event)
    ensures ApplyAll(p, evs + [e]) == Apply(ApplyAll(p, evs), e)
  {
    assert (evs + [e])[..|evs|] == evs;
  }

  lemma {:induction false} ApplyAllConcat(p: Pool, evs: seq<Event>, more: seq<Event>)
    ensures ApplyAll(p, evs + more) == ApplyAll(ApplyAll(p, evs), more)
  {
    if more == [] {
      assert evs + more == evs;
    } else {
      var n := |more| - 1;
      ApplyAllConcat(p, evs, more[..n]);
      ApplyAllOneMore(p, evs + more[..n], more[n]);
      ApplyAllOneMore(ApplyAll(p, evs), more[..n], more[n]);
      InitLast(more);
      ConcatAssociates(evs, more[..n], [more[n]]);
    }
  }

  lemma {:induction false} TicksOnly(p: Pool, q: Pool, evs: seq<Event>)
    requires p.ticks == q.ticks
    ensures ApplyAll(p, evs).ticks == ApplyAll(q, evs).ticks
  {
    if evs != [] {
      TicksOnly(p, q, evs[..|evs| - 1]);
    }
  }

  /** The ticks of the chain's pool are those of its whole history. */
  lemma {:induction false} TruthIsHistory(c: OnChain, b: nat)
    ensures Truth(c, b).ticks == ApplyAll(EMPTY_POOL, ChainHistory(c, b)).ticks
  {
    if b > 0 {
      TruthIsHistory(c, b - 1);
      var before, all := Truth(c, b - 1), ApplyAll(EMPTY_POOL, ChainHistory(c, b - 1));
      ApplyAllConcat(EMPTY_POOL, ChainHistory(c, b - 1), EventsIn(c, b));
      TicksOnly(before.(tick := OpenTick(c, b, before.tick)), all, EventsIn(c, b));
    }
  }

  lemma {:induction false} SumAgrees(m: map<int, int>, n: map<int, int>, hi: int)
    requires forall t :: Net(m, t) == Net(n, t)
    ensures SumNet(m, hi) == SumNet(n, hi)
    decreases hi - MIN_TICK
  {
    if MIN_TICK <= hi {
      SumAgrees(m, n, hi - 1);
    }
  }

  /** Ticks that agree with the chain's at block `b` serve, at every tick, all mints of the chain covering it minus
      all burns covering it. */
  lemma AgreeingTicksServe(m: map<int, int>, c: OnChain, b: nat, t: int)
    requires forall t :: Net(m, t) == Net(Truth(c, b).ticks, t)
    requires AllProper(ChainHistory(c, b))
    ensures LiquidityAt(Served(m), t) == Coverage(ChainHistory(c, b), t)
  {
    var hist := ChainHistory(c, b);
    var q := ApplyAll(EMPTY_POOL, hist);
    TruthIsHistory(c, b);
    EmptySum(MAX_TICK);
    BalancedStays(EMPTY_POOL, hist);
    SumAgrees(m, q.ticks, MAX_TICK);
    SumAgrees(m, q.ticks, UpTo(t));
    ServedIsSum(m, t);
    ServedIsSum(q.ticks, t);
    ServedIsCoverage(hist, t);
  }

  /** The block that a query's answer is about. */
  ghost function AnswerHeight(p: Pool, b: nat, env: Env, c: OnChain): nat
    requires Faithful(Lookup(env, c.a), c, b)
  {
    if p.height > 0 || Lookup(env, c.a).Err? then Later(p.height, b) else Lookup(env, c.a).value.height
  }

  lemma AnswerTicks(p: Pool, b: nat, env: Env, c: OnChain, t: int)
    requires Refines(p, b, c) && Faithful(Lookup(env, c.a), c, b)
    requires QueryAnswer(p, env, c.a).Ok? && Servable(QueryAnswer(p, env, c.a).value)
    requires AllProper(ChainHistory(c, AnswerHeight(p, b, env, c)))
    ensures LiquidityAt(Build(QueryAnswer(p, env, c.a).value.ticks), t) ==
            Coverage(ChainHistory(c, AnswerHeight(p, b, env, c)), t)
  {
    if p.height > 0 {
      AgreeingTicksServe(p.ticks, c, Later(p.height, b), t);
    } else {
      var s := Lookup(env, c.a).value;
      WriteThenList(s.ticks, MIN_TICK, MAX_TICK);
      forall t ensures Net(Listed(s), t) == Net(Truth(c, s.height).ticks, t) {
        SnapshotNet(s, c, t);
      }
      AgreeingTicksServe(Listed(s), c, s.height, t);
    }
  }

  /** Answered from the store or from the chain, with whole or split ranges, a query shows at every tick of its
      window the chain's positions covering it. */
  lemma QueryServesTheChain(p: Pool, b: nat, env: Env, c: OnChain, offset: uint64, detail: bool, t: int)
    requires Refines(p, b, c) && Faithful(Lookup(env, c.a), c, b)
    requires QueryAnswer(p, env, c.a).Ok? && Servable(QueryAnswer(p, env, c.a).value)
    requires AllProper(ChainHistory(c, AnswerHeight(p, b, env, c)))
    ensures var s := QueryAnswer(p, env, c.a).value;
            Window(s, offset).0 <= t < Window(s, offset).1 ==>
              LiquidityAt(Answer(s, offset, detail), t) == Coverage(ChainHistory(c, AnswerHeight(p, b, env, c)), t)
  {
    AnswerTicks(p, b, env, c, t);
    AnswerMeaning(QueryAnswer(p, env, c.a).value, offset, detail, t);
  }

  /** If no position on chain is over-burned, no answered range has negative liquidity. */
  lemma QueryNotNegative(p: Pool, b: nat, env: Env, c: OnChain, offset: uint64, detail: bool, r: Range)
    requires Refines(p, b, c) && Faithful(Lookup(env, c.a), c, b)
    requires QueryAnswer(p, env, c.a).Ok? && Servable(QueryAnswer(p, env, c.a).value)
    requires var hist := ChainHistory(c, AnswerHeight(p, b, env, c));
             AllProper(hist) && forall l, u :: PositionNet(hist, l, u) >= 0
    requires r in Answer(QueryAnswer(p, env, c.a).value, offset, detail)
    ensures r.liq >= 0
  {
    var s := QueryAnswer(p, env, c.a).value;
    StagesLiquidity(s.ticks, s.spacing, Window(s, offset).0, Window(s, offset).1, detail, r);
    AnswerTicks(p, b, env, c, r.lower);
    NotOverBurned(ChainHistory(c, AnswerHeight(p, b, env, c)), r.lower);
  }

  /** After every run of attempts, crashes, restarts, queries and late stores whose steps drop, undo and repeat
      nothing that counts, a query shows at every tick of its window all mints of the chain covering it minus all
      burns, although the store only saw a snapshot, if any, and the events after it. */
  lemma RunServesTheChain(p: Pool, base: nat, run: ChainRefinement.History, c: OnChain, env: Env,
                          offset: uint64, detail: bool, t: int)
    requires Refines(p, base, c) && ChainRefinement.Possible(base, run, c) && StepsKeep(p, base, run, c)
    requires Faithful(Lookup(env, c.a), c, TopAfter(base, run))
    requires var q := RunHistory(p, run, c);
             && QueryAnswer(q, env, c.a).Ok? && Servable(QueryAnswer(q, env, c.a).value)
             && AllProper(ChainHistory(c, AnswerHeight(q, TopAfter(base, run), env, c)))
    ensures var q := RunHistory(p, run, c);
            var s := QueryAnswer(q, env, c.a).value;
            Window(s, offset).0 <= t < Window(s, offset).1 ==>
              LiquidityAt(Answer(s, offset, detail), t) ==
              Coverage(ChainHistory(c, AnswerHeight(q, TopAfter(base, run), env, c)), t)
  {
    RunRefines(p, base, run, c);
    QueryServesTheChain(RunHistory(p, run, c), TopAfter(base, run), env, c, offset, detail, t);
  }

  // ---------- any schedule of the pipeline ----------

  /** What the receiver was handed after a run of the pipeline. */
  function Delivered(from: uint64, head: nat, run: Pipeline.Run, poolSize: nat): seq<nat> {
    Pipeline.After(Pipeline.Start(from, head), run, poolSize).delivered
  }

  /** The receipts of every height, and the answers of the lookups made while it is processed. */
  datatype Feed = Feed(receipts: imap<nat, seq<Receipt>>, envs: imap<nat, Env>)

  ghost function Blocks(heights: seq<nat>, feed: Feed): (blocks: seq<BlockReceipt>)
    ensures |blocks| == |heights|
  {
    seq(|heights|, i requires 0 <= i < |heights| =>
      BlockReceipt(Uint64(heights[i]), if heights[i] in feed.receipts then feed.receipts[heights[i]] else []))
  }

  ghost function Envs(heights: seq<nat>, feed: Feed): (envs: seq<Env>)
    ensures |envs| == |heights|
  {
    seq(|heights|, i requires 0 <= i < |heights| =>
      if heights[i] in feed.envs then feed.envs[heights[i]] else Env(map[], map[]))
  }

  predicate Contiguous(heights: seq<nat>, from: nat) {
    && from + |heights| < TWO_64
    && forall i :: 0 <= i < |heights| ==> heights[i] == from + i
  }

  lemma DeliveredContiguous(from: uint64, head: nat, run: Pipeline.Run, poolSize: nat)
    requires head + 1 < TWO_64 && Pipeline.Possible(Pipeline.Start(from, head), run, poolSize)
    ensures Contiguous(Delivered(from, head, run, poolSize), from)
  {
    Pipeline.DeliveredInOrder(from, head, run, poolSize);
  }

  /** Of two contiguous deliveries from one height, the longer goes on where the shorter ends. */
  lemma LongerGoesOn(xs: seq<nat>, ys: seq<nat>, from: nat, feed: Feed, w0: World, w1: World, w2: World)
    requires Contiguous(xs, from) && Contiguous(ys, from) && |xs| <= |ys|
    requires Processed(w0, w1, Blocks(xs, feed), Envs(xs, feed)) && Processed(w0, w2, Blocks(ys, feed), Envs(ys, feed))
    ensures Processed(w1, w2, Blocks(ys[|xs|..], feed), Envs(ys[|xs|..], feed))
  {
    var rest := ys[|xs|..];
    assert Blocks(ys, feed) == Blocks(xs, feed) + Blocks(rest, feed);
    assert Envs(ys, feed) == Envs(xs, feed) + Envs(rest, feed);
    ProcessedConcat(w0, w1, w2, Blocks(xs, feed), Envs(xs, feed), Blocks(rest, feed), Envs(rest, feed));
  }

  /** However two crawls from one height are scheduled, with whatever heads and pool sizes, the stores they lead to
      are those of one and the same sequence of blocks: the one with more blocks delivered is the other processed
      further, and with equally many they are the same. */
  lemma AnySchedule(from: uint64, head1: nat, run1: Pipeline.Run, size1: nat, head2: nat, run2: Pipeline.Run,
      size2: nat,
                    feed: Feed, w0: World, w1: World, w2: World)
    requires head1 + 1 < TWO_64 && Pipeline.Possible(Pipeline.Start(from, head1), run1, size1)
    requires head2 + 1 < TWO_64 && Pipeline.Possible(Pipeline.Start(from, head2), run2, size2)
    requires var xs, ys := Delivered(from, head1, run1, size1), Delivered(from, head2, run2, size2);
             && |xs| <= |ys|
             && Processed(w0, w1, Blocks(xs, feed), Envs(xs, feed)) &&
                 Processed(w0, w2, Blocks(ys, feed), Envs(ys, feed))
    ensures var xs, ys := Delivered(from, head1, run1, size1), Delivered(from, head2, run2, size2);
            && Contiguous(xs, from) && Contiguous(ys, from)
            && Processed(w1, w2, Blocks(ys[|xs|..], feed), Envs(ys[|xs|..], feed))
            && (|xs| == |ys| ==> forall a: Address :: At(w1, a) == At(w2, a))
  {
    var xs, ys := Delivered(from, head1, run1, size1), Delivered(from, head2, run2, size2);
    DeliveredContiguous(from, head1, run1, size1);
    DeliveredContiguous(from, head2, run2, size2);
    LongerGoesOn(xs, ys, from, feed, w0, w1, w2);
    if |xs| == |ys| {
      assert ys[|xs|..] == [];
    }
  }
}
