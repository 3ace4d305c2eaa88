/** From the lens contract's answer to a stored snapshot (contract_caller.go). */
module Snapshot {
  import opened Ints
  import opened Types
  import opened TickKey
  import opened DbWrap
  import opened EventReactors
  import opened ChainRefinement
  import Lens

  function TickStatesOf(ticks: seq<Lens.Tick>): seq<TickState> {
    seq(|ticks|, i requires 0 <= i < |ticks| => TickState(Narrow(ticks[i].index), ticks[i].net))
  }

  /** The lens contract's full answer for a pool whose current tick is `tick`, read at block `height`. */
  function SnapshotOf(pool: Lens.Pool, height: int, tick: int): PoolState
    requires pool.spacing > 0
  {
    PoolState(None, None, height, pool.spacing, tick, TickStatesOf(Lens.FullScan(pool)))
  }

  method GetPoolState(pool: Lens.Pool, height: int, tick: int) returns (s: PoolState)
    requires Lens.WellFormed(pool)
    ensures s == SnapshotOf(pool, height, tick)
  {
    var ticks := Lens.GetAllTicks(pool);
    var states := [];
    for i := 0 to ticks.Length
      modifies {}
      invariant states == TickStatesOf(ticks[..i])
    {
      states := states + [TickState(Narrow(ticks[i].index), ticks[i].net)];
    }
    assert ticks[..ticks.Length] == ticks[..];
    s := PoolState(None, None, height, pool.spacing, tick, states);
  }

  /** Every scanned tick is a real one, so narrowing keeps it. */
  lemma ScannedTick(pool: Lens.Pool, i: nat)
    requires Lens.WellFormed(pool) && i < |Lens.FullScan(pool)|
    ensures var x := Lens.FullScan(pool)[i];
            MIN_TICK <= x.index <= MAX_TICK && Narrow(x.index) == x.index && Lens.Initialized(pool, x.index) &&
                x.net == pool.net(x.index)
  {
    var c := Lens.ListedIsInitialized(pool, Lens.ScanLo(pool.spacing), Lens.ScanHi(pool.spacing), i);
  }

  /** A scan of the bitmap is what the store asks of a snapshot: whatever the lens answers survives being stored. */
  lemma ScanIsStorable(pool: Lens.Pool, height: int, tick: int24)
    requires Lens.WellFormed(pool) && 0 < height < 0x8000_0000_0000_0000
    ensures Storable(SnapshotOf(pool, height, tick))
  {
    Lens.FullScanExact(pool);
    var ts := TickStatesOf(Lens.FullScan(pool));
    forall i | 0 <= i < |ts| ensures ts[i].tick == Lens.FullScan(pool)[i].index && MIN_TICK <= ts[i].tick <= MAX_TICK {
      ScannedTick(pool, i);
    }
  }

  /** A stored lens answer has the pool's own spacing, its current tick, and the height it was read at. */
  lemma StoredGlobals(p: Pool, pool: Lens.Pool, height: nat, tick: int24)
    requires Lens.WellFormed(pool) && height < TWO_64
    ensures var q := StoreSnapshot(p, SnapshotOf(pool, height, tick));
            q.spacing == pool.spacing && q.tick == tick && q.height == height
  {
    WrapNear(height, TWO_64);
  }

  /** The contract's view of a pool: its ticks' net liquidity, and no liquidity where no tick is initialized. */
  ghost predicate Shows(pool: Lens.Pool, tick: int24, truth: Pool) {
    && Lens.WellFormed(pool)
    && tick == truth.tick
    && forall t: int :: Net(truth.ticks, t) == if Lens.Initialized(pool, t) then pool.net(t) else 0
  }

  /** Storing the scan into an empty pool stores the net liquidity of every tick. */
  lemma StoredScan(pool: Lens.Pool, t: int)
    requires Lens.WellFormed(pool)
    ensures Net(WriteTicks(map[], TickStatesOf(Lens.FullScan(pool))), t) ==
            if Lens.Initialized(pool, t) then pool.net(t) else 0
  {
    var scan := Lens.FullScan(pool);
    var ts := TickStatesOf(scan);
    ScanIsStorable(pool, 1, 0);
    WriteTicksLists(ts);
    if Lens.Initialized(pool, t) {
      Lens.InitializedIsScanned(pool, t);
      var i :| 0 <= i < |scan| && scan[i] == Lens.Tick(t, pool.gross(t), pool.net(t));
      ScannedTick(pool, i);
      assert ts[i] == TickState(t, pool.net(t));
    } else if i :| 0 <= i < |ts| && ts[i].tick == t {
      ScannedTick(pool, i);
      assert false;
    }
  }

  /** A lens answer for a pool of the chain is a snapshot of it: what the refinement of the chain needs of a lookup. */
  lemma ScanIsSnapshot(pool: Lens.Pool, tick: int24, c: OnChain, height: nat)
    requires 0 < height < TWO_64 && Shows(pool, tick, Truth(c, height))
    ensures IsSnapshot(SnapshotOf(pool, height, tick), c)
  {
    var p := StoreSnapshot(EMPTY_POOL, SnapshotOf(pool, height, tick));
    forall t ensures Net(p.ticks, t) == Net(Truth(c, height).ticks, t) {
      StoredScan(pool, t);
    }
  }
}
