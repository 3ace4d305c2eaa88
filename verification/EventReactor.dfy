/** Folding block events into the store, gated by pool heights (event_reactor.go). */
module EventReactors {
  import opened Ints
  import opened TickKey
  import opened Types
  import opened DbWrap
  import opened PoolStateGetters

  /** int32(x.Int64()): how the reactor narrows a tick. */
  function Narrow(x: int): int32 {
    Int32(Int64(x))
  }

  function AddTick(m: map<int, int>, t: int, amount: int): map<int, int> {
    m[t := Net(m, t) + amount]
  }

  function Apply(p: Pool, e: Event): Pool {
    match e
    case Mint(_, lower, upper, amount) =>
      p.(ticks := AddTick(AddTick(p.ticks, Narrow(lower), amount), Narrow(upper), -amount))
    case Burn(_, lower, upper, amount) =>
      p.(ticks := AddTick(AddTick(p.ticks, Narrow(lower), -amount), Narrow(upper), amount))
    case Swap(_, tick) =>
      p.(tick := Narrow(tick))
  }

  predicate Ignorable(e: Error) {
    e != CallFailed
  }

  /** A lookup failure that aborts the block. */
  predicate Fatal(p: Pool, lookup: Result<PoolState>) {
    p.height == 0 && lookup.Err? && !Ignorable(lookup.error)
  }

  /** One pool across one block: load it if absent; if it is then behind the block, apply its first event, and only
      that. */
  function PoolSpec(p: Pool, evs: seq<Event>, h: uint64, lookup: Result<PoolState>): Pool {
    if evs == [] || (p.height == 0 && lookup.Err?) then p
    else
      var q := Loaded(p, lookup);
      if q.height >= h then q else Apply(q, evs[0]).(height := h)
  }

  /** Storing one snapshot twice is storing it once. */
  lemma LoadIdempotent(p: Pool, lookup: Result<PoolState>)
    ensures Loaded(Loaded(p, lookup), lookup) == Loaded(p, lookup)
  {
    if lookup.Ok? {
      var ts := lookup.value.ticks;
      var w := WriteTicks(map[], ts);
      WriteTicksOverrides(p.ticks, ts);
      WriteTicksOverrides(p.ticks + w, ts);
      assert (p.ticks + w) + w == p.ticks + w;
    }
  }

  /** The events of a block can be taken one group at a time. */
  lemma PoolSpecSplit(p: Pool, evs: seq<Event>, more: seq<Event>, h: uint64, lookup: Result<PoolState>)
    ensures PoolSpec(p, evs + more, h, lookup) == PoolSpec(PoolSpec(p, evs, h, lookup), more, h, lookup)
  {
    LoadIdempotent(p, lookup);
    if evs == [] {
      assert evs + more == more;
    }
  }

  lemma FatalStays(p: Pool, evs: seq<Event>, h: uint64, lookup: Result<PoolState>)
    ensures Fatal(PoolSpec(p, evs, h, lookup), lookup) <==> Fatal(p, lookup)
  {
  }

  /** Which lookups abort a block: those of an absent pool that has a cached, unfiltered pair of protocol 3 and that
      the lens contract does not answer for. All other failures skip only their own event. */
  lemma FatalIff(p: Pool, env: Env, a: Address)
    ensures Fatal(p, Lookup(env, a)) <==>
            && p.height == 0
            && a in env.pairs && !env.pairs[a].filtered && env.pairs[a].protocolId == 3
            && a !in env.chain
  {
  }

  /** An event whose pair is unknown, filtered or of another protocol leaves an absent pool as it is. */
  lemma SkippedEvents(p: Pool, evs: seq<Event>, h: uint64, env: Env, a: Address)
    requires p.height == 0
    requires a !in env.pairs || env.pairs[a].filtered || env.pairs[a].protocolId != 3
    ensures PoolSpec(p, evs, h, Lookup(env, a)) == p && !Fatal(p, Lookup(env, a))
  {
  }

  /** An event changes what it is about, and nothing else of the pool. */
  lemma ApplyFrame(p: Pool, e: Event)
    ensures var q := Apply(p, e);
            && q.height == p.height && q.spacing == p.spacing
            && (e.Swap? ==> q.ticks == p.ticks && q.tick == Narrow(e.tick))
            && (!e.Swap? ==> q.tick == p.tick &&
                             q.ticks.Keys == p.ticks.Keys + {Narrow(e.tickLower) as int, Narrow(e.tickUpper) as int})
  {
  }

  /** The pool of `a` after the events `es` of a block at height `h`. */
  ghost function After(before: World, es: seq<Event>, h: uint64, env: Env, a: Address): Pool {
    PoolSpec(At(before, a), EventsOf(es, a), h, Lookup(env, a))
  }

  /** The lookup of the i-th event's pool aborts the block. */
  ghost predicate FatalAt(before: World, es: seq<Event>, env: Env, i: nat)
    requires i < |es|
  {
    Fatal(At(before, es[i].address), Lookup(env, es[i].address))
  }

  /** Whether a block aborts, in terms of the raw answers. */
  lemma AbortsIff(before: World, es: seq<Event>, env: Env)
    ensures (exists i :: 0 <= i < |es| && FatalAt(before, es, env, i)) <==>
            exists i :: 0 <= i < |es| &&
              var a := es[i].address;
              && At(before, a).height == 0
              && a in env.pairs && !env.pairs[a].filtered && env.pairs[a].protocolId == 3 && a !in env.chain
  {
    if i :| 0 <= i < |es| && FatalAt(before, es, env, i) {
      FatalIff(At(before, es[i].address), env, es[i].address);
    }
    if i :| && 0 <= i < |es| && At(before, es[i].address).height == 0
            && es[i].address in env.pairs && !env.pairs[es[i].address].filtered
            && env.pairs[es[i].address].protocolId == 3 && es[i].address !in env.chain
    {
      FatalIff(At(before, es[i].address), env, es[i].address);
      assert FatalAt(before, es, env, i);
    }
  }

  class EventReactor {
    const db: RocksDBWrap
    const poolStateGetter: PoolStateGetter

    constructor (db: RocksDBWrap, poolStateGetter: PoolStateGetter)
      requires poolStateGetter.db == db
      ensures this.db == db && this.poolStateGetter == poolStateGetter
    {
      this.db := db;
      this.poolStateGetter := poolStateGetter;
    }

    method GetOrNewTickState(addr: Address, tick: int32) returns (ts: TickState)
      requires db.Valid()
      ensures ts == TickState(tick, Net(db.View(addr).ticks, tick))
    {
      var found := db.GetTickState(addr, tick);
      ts := match found case None => TickState(tick, 0) case Some(t) => t;
    }

    method ReactTick(addr: Address, tick: int32, amount: int)
      requires db.Valid()
      modifies db, db.db
      ensures db.Valid() && db.finish == old(db.finish)
      ensures var p := old(db.View(addr));
              OnlyAt(old(db.pools), db.pools, addr, p.(ticks := AddTick(p.ticks, tick, amount)))
    {
      var ts := GetOrNewTickState(addr, tick);
      db.SetTickState(addr, ts.(net := ts.net + amount));
    }

    /** Adds `amount` at the lower tick and takes it away at the upper one. */
    method ReactPosition(addr: Address, lower: int32, upper: int32, amount: int)
      requires db.Valid()
      modifies db, db.db
      ensures db.Valid() && db.finish == old(db.finish)
      ensures var p := old(db.View(addr));
              OnlyAt(old(db.pools), db.pools, addr,
                     p.(ticks := AddTick(AddTick(p.ticks, lower, amount), upper, -amount)))
    {
      ReactTick(addr, lower, amount);
      ReactTick(addr, upper, -amount);
    }

    method ReactEvent(e: Event)
      requires db.Valid()
      modifies db, db.db
      ensures db.Valid() && db.finish == old(db.finish)
      ensures OnlyAt(old(db.pools), db.pools, e.address, Apply(old(db.View(e.address)), e))
    {
      match e {
        case Mint(addr, lower, upper, amount) =>
          ReactPosition(addr, Narrow(lower), Narrow(upper), amount);
        case Burn(addr, lower, upper, amount) =>
          ReactPosition(addr, Narrow(lower), Narrow(upper), -amount);
        case Swap(addr, tick) =>
          db.SetCurrentTick(addr, Narrow(tick));
      }
    }

    /** One event of a block, up to the next event boundary; a returned error aborts the block. */
    method ReactOne(e: Event, h: uint64, env: Env) returns (err: Option<Error>)
      requires db.Valid() && poolStateGetter.db == db
      modifies db, db.db
      ensures db.Valid() && db.finish == old(db.finish)
      ensures OnlyAt(old(db.pools), db.pools, e.address,
                     PoolSpec(old(db.View(e.address)), [e], h, Lookup(env, e.address)))
      ensures err.Some? <==> Fatal(old(db.View(e.address)), Lookup(env, e.address))
      ensures err.Some? ==> Lookup(env, e.address) == Err(err.value)
    {
      var height := db.GetHeight(e.address);
      if height == 0 {
        var r := poolStateGetter.GetPoolState(e.address, env);
        if r.Err? {
          return if Ignorable(r.error) then None else Some(r.error);
        }
        height := BigUint64(r.value.height);
      }
      if height >= h {
        return None;
      }
      ReactEvent(e);
      db.SetHeight(e.address, h);
      err := None;
    }

    /** Every pool ends as PoolSpec says of the events before the first fatal one; without a fatal one the block is
        recorded as finished. */
    method ReactBlockEvent(be: BlockEvent, env: Env) returns (err: Option<Error>)
      requires db.Valid() && poolStateGetter.db == db
      modifies db, db.db
      ensures db.Valid()
      ensures err.Some? <==>
          exists i :: 0 <= i < |be.events| &&
            var a := be.events[i].address;
            && old(db.View(a)).height == 0
            && a in env.pairs && !env.pairs[a].filtered && env.pairs[a].protocolId == 3 && a !in env.chain
      ensures err.None? ==>
          && db.finish == be.height
          && (forall a: Address :: db.View(a) == After(old(db.pools), be.events, be.height, env, a))
          && (forall i :: 0 <= i < |be.events| ==> !FatalAt(old(db.pools), be.events, env, i))
      ensures err.Some? ==>
          && db.finish == old(db.finish)
          && exists n :: 0 <= n < |be.events| && FatalAt(old(db.pools), be.events, env, n)
               && Lookup(env, be.events[n].address) == Err(err.value)
               && (forall i :: 0 <= i < n ==> !FatalAt(old(db.pools), be.events, env, i))
               && (forall a: Address :: db.View(a) == After(old(db.pools), be.events[..n], be.height, env, a))
    {
      ghost var before := db.pools;
      for i := 0 to |be.events|
        invariant db.Valid() && db.finish == old(db.finish)
        invariant forall a: Address :: db.View(a) == After(before, be.events[..i], be.height, env, a)
        invariant forall j :: 0 <= j < i ==> !FatalAt(before, be.events, env, j)
      {
        var e := be.events[i];
        FatalStays(At(before, e.address), EventsOf(be.events[..i], e.address), be.height, Lookup(env, e.address));
        err := ReactOne(e, be.height, env);
        if err.Some? {
          assert FatalAt(before, be.events, env, i);
          AbortsIff(before, be.events, env);
          return;
        }
        forall a: Address ensures db.View(a) == After(before, be.events[..i + 1], be.height, env, a) {
          AfterOne(before, be.events[..i], e, be.height, env, a);
          assert be.events[..i + 1] == be.events[..i] + [e];
        }
      }
      assert be.events[..|be.events|] == be.events;
      AbortsIff(before, be.events, env);
      db.SetFinishHeight(be.height);
      err := None;
    }
  }

  lemma AfterOne(before: World, es: seq<Event>, e: Event, h: uint64, env: Env, a: Address)
    ensures After(before, es + [e], h, env, a) ==
            if a == e.address then PoolSpec(After(before, es, h, env, a), [e], h, Lookup(env, a))
            else After(before, es, h, env, a)
  {
    EventsOfAppend(es, e, a);
    if a == e.address {
      PoolSpecSplit(At(before, a), EventsOf(es, a), [e], h, Lookup(env, a));
    }
  }

  lemma ReactKeepsClean(p: Pool, evs: seq<Event>, h: uint64, lookup: Result<PoolState>)
    requires Clean(p)
    requires lookup.Ok? ==> BigUint64(lookup.value.height) != 0
    ensures Clean(PoolSpec(p, evs, h, lookup))
  {
  }
}
