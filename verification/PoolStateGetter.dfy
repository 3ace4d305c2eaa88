/** Reading a pool through the store, loading it from the chain on a miss (pool_state_getter.go). */
module PoolStateGetters {
  import opened Ints
  import opened TickKey
  import opened Types
  import opened DbWrap

  /** The answers of the pair cache and of the lens contract; a pool the lens cannot answer for is absent. */
  datatype Env = Env(pairs: map<Address, Pair>, chain: map<Address, PoolState>)

  function PairOf(env: Env, a: Address): Result<Pair> {
    if a !in env.pairs then Err(PairNotFound)
    else if env.pairs[a].filtered then Err(PairFiltered)
    else if env.pairs[a].protocolId != 3 then Err(NotV3Pool)
    else Ok(env.pairs[a])
  }

  function ChainAnswer(env: Env, a: Address): Result<PoolState> {
    if a in env.chain then Ok(env.chain[a]) else Err(CallFailed)
  }

  /** What an absent pool is looked up as. */
  function Lookup(env: Env, a: Address): Result<PoolState> {
    match PairOf(env, a)
    case Err(e) => Err(e)
    case Ok(_) => ChainAnswer(env, a)
  }

  /** The pool after a lookup: a snapshot is stored only on a miss. */
  function Loaded(p: Pool, lookup: Result<PoolState>): Pool {
    if p.height == 0 && lookup.Ok? then StoreSnapshot(p, lookup.value) else p
  }

  /** token0 and token1 of the pool are the pair's, exchanged when the pair is reversed. */
  function Decorated(s: PoolState, pair: Pair): PoolState {
    if pair.reversed then s.(token0 := Some(pair.token1), token1 := Some(pair.token0))
    else s.(token0 := Some(pair.token0), token1 := Some(pair.token1))
  }

  function QueryAnswer(p: Pool, env: Env, a: Address): Result<PoolState> {
    match PairOf(env, a)
    case Err(e) => Err(e)
    case Ok(pair) =>
      match ReadPool(p)
      case Some(s) => Ok(Decorated(s, pair))
      case None =>
        match ChainAnswer(env, a)
        case Err(e) => Err(e)
        case Ok(s) => Ok(Decorated(s, pair))
  }

  class PoolStateGetter {
    const db: RocksDBWrap

    constructor (db: RocksDBWrap)
      ensures this.db == db
    {
      this.db := db;
    }

    static method DecoratePoolState(s: PoolState, pair: Pair) returns (r: PoolState)
      ensures r == Decorated(s, pair)
    {
      r := s;
      r := r.(token0 := Some(pair.token0));
      r := r.(token1 := Some(pair.token1));
      if pair.reversed {
        r := r.(token0 := r.token1, token1 := r.token0);
      }
    }

    method GetPoolState(addr: Address, env: Env) returns (r: Result<PoolState>)
      requires db.Valid()
      modifies db, db.db
      ensures db.Valid() && db.finish == old(db.finish)
      ensures r == QueryAnswer(old(db.View(addr)), env, addr)
      ensures OnlyAt(old(db.pools), db.pools, addr, Loaded(old(db.View(addr)), Lookup(env, addr)))
    {
      var pair: Pair;
      match PairOf(env, addr) {
        case Err(e) => return Err(e);
        case Ok(found) => pair := found;
      }
      var stored := db.GetPoolState(addr);
      if stored.Some? {
        var s := DecoratePoolState(stored.value, pair);
        return Ok(s);
      }
      var fetched := ChainAnswer(env, addr);
      if fetched.Err? {
        return fetched;
      }
      db.SetPoolState(addr, fetched.value);
      var s := DecoratePoolState(fetched.value, pair);
      r := Ok(s);
    }
  }

  // ---------- who is answered what ----------

  /** The errors of a query, and what an answer holds: in terms of the pair cache, the store and the lens contract. */
  lemma QueryAnswers(p: Pool, env: Env, a: Address)
    ensures var r := QueryAnswer(p, env, a);
            var cached := a in env.pairs;
            && (r == Err(PairNotFound) <==> !cached)
            && (r == Err(PairFiltered) <==> cached && env.pairs[a].filtered)
            && (r == Err(NotV3Pool) <==> cached && !env.pairs[a].filtered && env.pairs[a].protocolId != 3)
            && (r == Err(CallFailed) <==> cached && !env.pairs[a].filtered && env.pairs[a].protocolId == 3 &&
                                          p.height == 0 && a !in env.chain)
    ensures var r := QueryAnswer(p, env, a);
            r.Ok? ==>
              && a in env.pairs
              && (if env.pairs[a].reversed
                  then r.value.token0 == Some(env.pairs[a].token1) && r.value.token1 == Some(env.pairs[a].token0)
                  else r.value.token0 == Some(env.pairs[a].token0) && r.value.token1 == Some(env.pairs[a].token1))
              && (p.height == 0 ==> a in env.chain && WithoutTokens(r.value) == WithoutTokens(env.chain[a]))
              && (p.height > 0 ==>
                    && r.value.height == Int64(p.height) && r.value.spacing == p.spacing && r.value.tick == p.tick
                    && Lists(r.value.ticks, p.ticks, MIN_TICK, MAX_TICK))
  {
    AscListLists(p.ticks, MIN_TICK, MAX_TICK);
  }

  /** A stored pool is never loaded again, and an absent one only from an answer of the lens for a served pair. */
  lemma LoadsOnlyOnMiss(p: Pool, env: Env, a: Address)
    ensures var served := a in env.pairs && !env.pairs[a].filtered && env.pairs[a].protocolId == 3 && a in env.chain;
            Loaded(p, Lookup(env, a)) == if p.height == 0 && served then StoreSnapshot(p, env.chain[a]) else p
  {
  }

  // ---------- read-through transparency ----------

  /** A pool that reads as absent has no tick left behind. */
  predicate Clean(p: Pool) {
    p.height == 0 ==> p.ticks == map[]
  }

  lemma LoadKeepsClean(p: Pool, lookup: Result<PoolState>)
    requires Clean(p)
    requires lookup.Ok? ==> BigUint64(lookup.value.height) != 0
    ensures Clean(Loaded(p, lookup))
  {
  }

  /** The second query, answered by the store, repeats the first one, answered by the chain, exactly when the
      snapshot is storable and writes over every tick that the absent pool had left. */
  lemma SecondQueryAgrees(p: Pool, a: Address, env: Env, later: Env)
    requires p.height == 0
    requires PairOf(env, a).Ok? && PairOf(later, a) == PairOf(env, a)
    requires a in env.chain && BigUint64(env.chain[a].height) != 0
    ensures QueryAnswer(Loaded(p, Lookup(env, a)), later, a) == QueryAnswer(p, env, a) <==>
            Storable(env.chain[a]) && Overwrites(env.chain[a], p)
  {
    var s, pair := env.chain[a], PairOf(env, a).value;
    var q := StoreSnapshot(p, s);
    SnapshotReadBack(p, s);
    var back := ReadPool(q).value;
    assert back.token0 == back.token1 == None;
    if Decorated(back, pair) == Decorated(s, pair) {
      assert back == WithoutTokens(s);
    }
  }

  /** A clean pool has nothing left, so there only the snapshot matters; after a deletion the tick at MaxTick does
      too. */
  lemma LeftOver(p: Pool, s: PoolState)
    ensures Clean(p) && p.height == 0 ==> Overwrites(s, p)
    ensures Overwrites(s, Deleted(p)) <==> (MAX_TICK in p.ticks ==> MAX_TICK in Listed(s))
  {
  }
}
