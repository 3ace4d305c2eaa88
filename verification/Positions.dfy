/** Liquidity positions: what stored tick deltas mean (section 6.3 of the Uniswap v3 Core whitepaper). */
module Positions {
  import opened TickKey
  import opened Types
  import opened EventReactors
  import opened ChainRefinement
  import opened Liquidity

  /** A Mint or Burn of a real position. */
  predicate Proper(e: Event) {
    match e
    case Mint(_, lower, upper, _) => MIN_TICK <= Narrow(lower) < Narrow(upper) <= MAX_TICK
    case Burn(_, lower, upper, _) => MIN_TICK <= Narrow(lower) < Narrow(upper) <= MAX_TICK
    case Swap(_, _) => true
  }

  predicate AllProper(hist: seq<Event>) {
    forall i :: 0 <= i < |hist| ==> Proper(hist[i])
  }

  function EventCover(e: Event, t: int): int {
    match e
    case Mint(_, lower, upper, amount) => if Narrow(lower) <= t < Narrow(upper) then amount else 0
    case Burn(_, lower, upper, amount) => if Narrow(lower) <= t < Narrow(upper) then -amount else 0
    case Swap(_, _) => 0
  }

  /** The mints whose position covers `t`, minus the burns. */
  function Coverage(hist: seq<Event>, t: int): int {
    if hist == [] then 0 else Coverage(hist[..|hist| - 1], t) + EventCover(hist[|hist| - 1], t)
  }

  // ---------- sums of deltas ----------

  /** The sum of LiquidityNet over all ticks from MIN_TICK to `hi`. */
  function SumNet(m: map<int, int>, hi: int): int
    decreases hi - MIN_TICK
  {
    if hi < MIN_TICK then 0 else SumNet(m, hi - 1) + Net(m, hi)
  }

  function UpTo(t: int): int {
    if t < MAX_TICK then t else MAX_TICK
  }

  /** The deltas of a pool sum to zero over the whole tick range. */
  predicate Balanced(m: map<int, int>) {
    SumNet(m, MAX_TICK) == 0
  }

  lemma {:induction false} SumAfterEvent(p: Pool, e: Event, hi: int)
    requires Proper(e)
    ensures SumNet(Apply(p, e).ticks, hi) == SumNet(p.ticks, hi) + EventCover(e, hi)
    decreases hi - MIN_TICK
  {
    if MIN_TICK <= hi {
      SumAfterEvent(p, e, hi - 1);
      ApplyNet(p, e, hi);
    }
  }

  lemma {:induction false} SumAfterHistory(p: Pool, hist: seq<Event>, hi: int)
    requires AllProper(hist)
    ensures SumNet(ApplyAll(p, hist).ticks, hi) == SumNet(p.ticks, hi) + Coverage(hist, hi)
  {
    if hist != [] {
      var init := hist[..|hist| - 1];
      SumAfterHistory(p, init, hi);
      SumAfterEvent(ApplyAll(p, init), hist[|hist| - 1], hi);
    }
  }

  lemma {:induction false} NoCoverOutside(hist: seq<Event>, t: int)
    requires AllProper(hist) && (t < MIN_TICK || MAX_TICK <= t)
    ensures Coverage(hist, t) == 0
  {
    if hist != [] {
      NoCoverOutside(hist[..|hist| - 1], t);
    }
  }

  /** Conservation: whole positions come and go, so the deltas of a pool keep summing to zero. */
  lemma BalancedStays(p: Pool, hist: seq<Event>)
    requires AllProper(hist)
    ensures Balanced(ApplyAll(p, hist).ticks) <==> Balanced(p.ticks)
  {
    SumAfterHistory(p, hist, MAX_TICK);
    NoCoverOutside(hist, MAX_TICK);
  }

  /** Summing the listed entries is summing over all ticks. */
  lemma {:induction false} ListSum(m: map<int, int>, hi: int, t: int)
    requires hi <= MAX_TICK
    ensures NetUpTo(AscList(m, MIN_TICK, hi), t) == SumNet(m, if t < hi then t else hi)
    decreases hi - MIN_TICK
  {
    if MIN_TICK <= hi {
      ListSum(m, hi - 1, t);
      if hi in m {
        NetUpToAppend(AscList(m, MIN_TICK, hi - 1), TickState(hi, m[hi]), t);
      }
    } else {
      SumBelow(m, if t < hi then t else hi);
    }
  }

  lemma SumBelow(m: map<int, int>, hi: int)
    requires hi < MIN_TICK
    ensures SumNet(m, hi) == 0
  {
  }

  lemma NetUpToAppend(ts: seq<TickState>, x: TickState, t: int)
    ensures NetUpTo(ts + [x], t) == NetUpTo(ts, t) + if x.tick <= t then x.net else 0
  {
    assert (ts + [x])[..|ts|] == ts;
  }

  /** The ranges served for stored ticks. */
  function Served(m: map<int, int>): seq<Range> {
    Build(AscList(m, MIN_TICK, MAX_TICK))
  }

  /** For balanced deltas, scanning and prefix-summing gives at every tick the sum of the deltas up to it. */
  lemma ServedIsSum(m: map<int, int>, t: int)
    requires Balanced(m)
    ensures LiquidityAt(Served(m), t) == SumNet(m, UpTo(t))
  {
    var ts := AscList(m, MIN_TICK, MAX_TICK);
    AscListLists(m, MIN_TICK, MAX_TICK);
    ListSum(m, MAX_TICK, t);
    ListSum(m, MAX_TICK, MAX_TICK);
    PrefixIsNetUpTo(ts, MAX_TICK);
    BuildBalanced(ts, t);
  }

  /** A history of whole positions adds, at every tick, what its positions covering the tick hold. */
  lemma HistoryServed(p: Pool, hist: seq<Event>, t: int)
    requires Balanced(p.ticks) && AllProper(hist)
    ensures LiquidityAt(Served(ApplyAll(p, hist).ticks), t) == LiquidityAt(Served(p.ticks), t) + Coverage(hist, t)
  {
    BalancedStays(p, hist);
    ServedIsSum(p.ticks, t);
    ServedIsSum(ApplyAll(p, hist).ticks, t);
    SumAfterHistory(p, hist, UpTo(t));
    if MAX_TICK <= t {
      NoCoverOutside(hist, t);
      NoCoverOutside(hist, MAX_TICK);
    }
  }

  /** From an empty pool: mints covering the tick minus burns covering it. */
  lemma ServedIsCoverage(hist: seq<Event>, t: int)
    requires AllProper(hist)
    ensures LiquidityAt(Served(ApplyAll(EMPTY_POOL, hist).ticks), t) == Coverage(hist, t)
  {
    EmptySum(MAX_TICK);
    EmptySum(UpTo(t));
    HistoryServed(EMPTY_POOL, hist, t);
    ServedIsSum(map[], t);
  }

  lemma {:induction false} EmptySum(hi: int)
    ensures SumNet(map[], hi) == 0
    decreases hi - MIN_TICK
  {
    if MIN_TICK <= hi {
      EmptySum(hi - 1);
    }
  }

  // ---------- positions that are not over-burned ----------

  predicate IsAt(e: Event, lower: int, upper: int) {
    match e
    case Mint(_, l, u, _) => Narrow(l) == lower && Narrow(u) == upper
    case Burn(_, l, u, _) => Narrow(l) == lower && Narrow(u) == upper
    case Swap(_, _) => false
  }

  function SignedAmount(e: Event): int {
    match e case Mint(_, _, _, amount) => amount case Burn(_, _, _, amount) => -amount case Swap(_, _) => 0
  }

  /** What is left of the position (lower, upper). */
  function PositionNet(hist: seq<Event>, lower: int, upper: int): int {
    if hist == [] then 0
    else
      PositionNet(hist[..|hist| - 1], lower, upper) +
      if IsAt(hist[|hist| - 1], lower, upper) then SignedAmount(hist[|hist| - 1]) else 0
  }

  function Without(hist: seq<Event>, lower: int, upper: int): seq<Event> {
    if hist == [] then []
    else
      var rest := Without(hist[..|hist| - 1], lower, upper);
      if IsAt(hist[|hist| - 1], lower, upper) then rest else rest + [hist[|hist| - 1]]
  }

  lemma {:induction false} WithoutPosition(hist: seq<Event>, lower: int, upper: int, l: int, u: int)
    ensures |Without(hist, lower, upper)| <= |hist|
    ensures PositionNet(Without(hist, lower, upper), l, u) ==
            if l == lower && u == upper then 0 else PositionNet(hist, l, u)
  {
    if hist != [] {
      WithoutPosition(hist[..|hist| - 1], lower, upper, l, u);
      var rest := Without(hist[..|hist| - 1], lower, upper);
      assert (rest + [hist[|hist| - 1]])[..|rest|] == rest;
    }
  }

  lemma {:induction false} CoverageByPosition(hist: seq<Event>, lower: int, upper: int, t: int)
    ensures Coverage(hist, t) ==
            Coverage(Without(hist, lower, upper), t) + if lower <= t < upper then PositionNet(hist, lower, upper) else 0
  {
    if hist != [] {
      CoverageByPosition(hist[..|hist| - 1], lower, upper, t);
      var rest := Without(hist[..|hist| - 1], lower, upper);
      assert (rest + [hist[|hist| - 1]])[..|rest|] == rest;
    }
  }

  /** If no position is over-burned, liquidity is nowhere negative. */
  lemma {:induction false} NotOverBurned(hist: seq<Event>, t: int)
    requires forall l, u :: PositionNet(hist, l, u) >= 0
    ensures Coverage(hist, t) >= 0
    decreases |hist|
  {
    if hist != [] {
      var e := hist[|hist| - 1];
      if e.Swap? {
        var init := hist[..|hist| - 1];
        forall l, u ensures PositionNet(init, l, u) >= 0 {
          assert PositionNet(hist, l, u) >= 0;
        }
        NotOverBurned(init, t);
      } else {
        var lower, upper := Narrow(e.tickLower), Narrow(e.tickUpper);
        var rest := Without(hist, lower, upper);
        forall l, u ensures PositionNet(rest, l, u) >= 0 {
          WithoutPosition(hist, lower, upper, l, u);
          assert PositionNet(hist, l, u) >= 0;
        }
        WithoutPosition(hist[..|hist| - 1], lower, upper, 0, 0);
        NotOverBurned(rest, t);
        CoverageByPosition(hist, lower, upper, t);
        assert PositionNet(hist, lower, upper) >= 0;
      }
    }
  }

  /** Then every served range has liquidity that is not negative. */
  lemma ServedNotNegative(hist: seq<Event>, i: nat)
    requires AllProper(hist)
    requires forall l, u :: PositionNet(hist, l, u) >= 0
    requires i < |Served(ApplyAll(EMPTY_POOL, hist).ticks)|
    ensures Served(ApplyAll(EMPTY_POOL, hist).ticks)[i].liq >= 0
  {
    var m := ApplyAll(EMPTY_POOL, hist).ticks;
    var r := Served(m)[i];
    AscListLists(m, MIN_TICK, MAX_TICK);
    BuildSorted(AscList(m, MIN_TICK, MAX_TICK));
    TheCoveringRange(Served(m), i, r.lower);
    ServedIsCoverage(hist, r.lower);
    NotOverBurned(hist, r.lower);
  }
}
