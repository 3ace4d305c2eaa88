/** Answering a pool query (api_server.go, CalculateTickRange in liquidity_to_amount.go). */
module ApiServer {
  import opened Ints
  import opened TickKey
  import opened Types
  import opened Liquidity

  const TYPE_LIQUIDITY: string := "1"
  const TYPE_TOKEN_AMOUNT: string := "2"
  const TYPE_TOKEN_AMOUNT_DETAIL: string := "3"

  class PoolStateParams {
    var tickOffset: uint64
    var kind: string
    var format: string

    constructor (tickOffset: uint64, kind: string, format: string)
      ensures this.tickOffset == tickOffset && this.kind == kind && this.format == format
    {
      this.tickOffset, this.kind, this.format := tickOffset, kind, format;
    }

    /** Unknown kinds mean liquidity, which is answered in JSON only; offset 0 means 10. */
    method Arrange()
      modifies this
      ensures kind == if old(kind) in {TYPE_TOKEN_AMOUNT, TYPE_TOKEN_AMOUNT_DETAIL} then old(kind) else TYPE_LIQUIDITY
      ensures format == if old(format) == "html" && kind != TYPE_LIQUIDITY then "html" else "json"
      ensures tickOffset == if old(tickOffset) == 0 then 10 else old(tickOffset)
    {
      if kind != TYPE_LIQUIDITY && kind != TYPE_TOKEN_AMOUNT && kind != TYPE_TOKEN_AMOUNT_DETAIL {
        kind := TYPE_LIQUIDITY;
      }
      if format != "json" && format != "html" {
        format := "json";
      }
      if kind == TYPE_LIQUIDITY {
        format := "json";
      }
      if tickOffset == 0 {
        tickOffset := 10;
      }
    }
  }

  // ---------- the window ----------

  /** fromTick and toTick, in wrapping int32 arithmetic. */
  function CalculateTickRange(currentTick: int32, offset: int32, spacing: int32): (int32, int32)
    requires spacing != 0
  {
    var center := Int32(Int32(TruncDiv(currentTick, spacing)) * spacing);
    (Int32(center - Int32(offset * spacing)), Int32(center + Int32(Int32(offset + 1) * spacing)))
  }

  predicate IsInt32(x: int) {
    -0x8000_0000 <= x < 0x8000_0000
  }

  /** The tick that the window is centered on: the multiple of the spacing next to the current tick, toward zero. */
  function Center(currentTick: int, spacing: int): int
    requires spacing != 0
  {
    TruncDiv(currentTick, spacing) * spacing
  }

  lemma WrappedEnd(q: int, k: int, s: int)
    ensures Int32(Int32(Int32(q) * s) - Int32(k * s)) == Int32(q * s - k * s)
    ensures Int32(Int32(Int32(q) * s) + Int32(Int32(k) * s)) == Int32(q * s + k * s)
  {
    Int32Ring(q, s);
    Int32Ring(k, s);
    Int32Ring(q * s, k * s);
  }

  /** For all arguments the window is the exact one, with both ends wrapped; what wraps on the way does not show. */
  lemma WindowEnds(currentTick: int32, offset: int32, spacing: int32)
    requires spacing != 0
    ensures CalculateTickRange(currentTick, offset, spacing) ==
            (Int32(Center(currentTick, spacing) - offset * spacing),
                Int32(Center(currentTick, spacing) + (offset + 1) * spacing))
  {
    WrappedEnd(TruncDiv(currentTick, spacing), offset, spacing);
    WrappedEnd(TruncDiv(currentTick, spacing), offset + 1, spacing);
  }

  /** Both ends of the exact window fit in 32 bits. */
  predicate EndsFit(currentTick: int32, offset: int32, spacing: int32)
    requires spacing > 0
  {
    IsInt32(Center(currentTick, spacing) - offset * spacing) &&
        IsInt32(Center(currentTick, spacing) + (offset + 1) * spacing)
  }

  lemma MultipleHasNoRemainder(q: int, s: int)
    requires s > 0
    ensures (q * s) % s == 0
  {
    QuotientUnique(q * s, s, q, 0);
  }

  lemma WindowBounds(c: int, r: int, o: int, s: int)
    requires s > 0 && -s < r < s
    ensures c - o * s <= c + r < c + (o + 1) * s <==> o >= 1 || (o == 0 && r >= 0)
  {
    MultipleOf(o, s);
    MultipleOf(o + 1, s);
  }

  lemma WindowMultiples(q: int, o: int, s: int)
    requires s > 0
    ensures (q * s - o * s) % s == 0 && (q * s + (o + 1) * s) % s == 0
  {
    assert q * s - o * s == (q - o) * s && q * s + (o + 1) * s == (q + o + 1) * s;
    MultipleHasNoRemainder(q - o, s);
    MultipleHasNoRemainder(q + o + 1, s);
  }

  /** When its ends fit, the window holds the current tick exactly when the offset is positive, or it is zero and
      truncation did not round up. */
  lemma WindowHoldsCurrent(currentTick: int32, offset: int32, spacing: int32)
    requires spacing > 0 && EndsFit(currentTick, offset, spacing)
    ensures var w := CalculateTickRange(currentTick, offset, spacing);
            && w.0 % spacing == 0 && w.1 % spacing == 0
            && (w.0 <= currentTick < w.1 <==> ShowsCurrent(currentTick, offset, spacing))
  {
    var c := Center(currentTick, spacing);
    WindowEnds(currentTick, offset, spacing);
    TruncDivRemainder(currentTick, spacing);
    WindowBounds(c, currentTick - c, offset, spacing);
    WindowMultiples(TruncDiv(currentTick, spacing), offset, spacing);
  }

  predicate ShowsCurrent(currentTick: int32, offset: int32, spacing: int32)
    requires spacing > 0
  {
    offset >= 1 || (offset == 0 && (currentTick >= 0 || currentTick % spacing == 0))
  }

  /** An offset so large that an end does not fit: the window misses the current tick. */
  lemma WrappedWindowMisses()
    ensures !EndsFit(0, 50_000_000, 60) && ShowsCurrent(0, 50_000_000, 60)
    ensures var w := CalculateTickRange(0, 50_000_000, 60); !(w.0 <= 0 < w.1)
  {
    WindowEnds(0, 50_000_000, 60);
    WrapNear(-3_000_000_000, TWO_32);
    WrapNear(3_000_000_060, TWO_32);
  }

  /** An offset from 2^31 on narrows to a negative one: both ends fit, and the window is empty. */
  lemma NarrowedWindowMisses()
    ensures Int32(0xFFFF_FFFF) == -1 && EndsFit(0, -1, 60)
    ensures CalculateTickRange(0, Int32(0xFFFF_FFFF), 60) == (60, 0)
  {
    WrapNear(0xFFFF_FFFF, TWO_32);
    WindowEnds(0, -1, 60);
  }

  // ---------- the stages ----------

  ghost predicate Servable(s: PoolState) {
    && Ascending(s.ticks) && InRange(s.ticks, MIN_TICK, MAX_TICK)
    && 0 < s.spacing < 0x80_0000
  }

  function Window(s: PoolState, offset: uint64): (int32, int32)
    requires 0 < s.spacing < 0x80_0000
  {
    CalculateTickRange(Int32(Int64(s.tick)), Int32(offset), Int32(Int64(s.spacing)))
  }

  /** Building, and splitting for the detailed kind. */
  function Unfiltered(ts: seq<TickState>, spacing: int, detail: bool): seq<Range>
    requires spacing > 0
  {
    if detail then Split(Build(ts), spacing) else Build(ts)
  }

  /** And one filter at the end. */
  function Stages(ts: seq<TickState>, spacing: int, a: int, b: int, detail: bool): seq<Range>
    requires spacing > 0
  {
    Filter(Unfiltered(ts, spacing, detail), a, b)
  }

  ghost function Answer(s: PoolState, offset: uint64, detail: bool): seq<Range>
    requires Servable(s)
  {
    Stages(s.ticks, s.spacing, Window(s, offset).0, Window(s, offset).1, detail)
  }

  /** The window is computed from the pool's tick and spacing and the offset asked for. */
  lemma WindowIs(s: PoolState, offset: uint64)
    requires 0 < s.spacing < 0x80_0000 && IsInt32(s.tick)
    ensures Window(s, offset) ==
            (Int32(TruncDiv(s.tick, s.spacing) * s.spacing - Int32(offset) * s.spacing),
             Int32(TruncDiv(s.tick, s.spacing) * s.spacing + (Int32(offset) + 1) * s.spacing))
  {
    WindowEnds(s.tick, Int32(offset), s.spacing);
  }

  /** What is answered meets the window, explicitly: no range outside it. The plain kind answers built ranges, and
      all of them that meet it; the detailed kind pieces no wider than the spacing, inside a built range and with
      its liquidity. */
  lemma AnswerMembers(s: PoolState, offset: uint64, detail: bool, r: Range)
    requires Servable(s) && IsInt32(s.tick)
    ensures var from := Int32(TruncDiv(s.tick, s.spacing) * s.spacing - Int32(offset) * s.spacing);
            var till := Int32(TruncDiv(s.tick, s.spacing) * s.spacing + (Int32(offset) + 1) * s.spacing);
            && (r in Answer(s, offset, detail) ==> r.upper > from && r.lower < till)
            && (!detail ==>
                  (r in Answer(s, offset, detail) <==> r in Build(s.ticks) && r.upper > from && r.lower < till))
            && (detail && r in Answer(s, offset, detail) ==>
                  && 0 < r.upper - r.lower <= s.spacing
                  && exists b :: b in Build(s.ticks) && b.lower <= r.lower && r.upper <= b.upper && b.liq == r.liq)
  {
    var w := Window(s, offset);
    WindowIs(s, offset);
    FilterMembers(Unfiltered(s.ticks, s.spacing, detail), w.0, w.1, r);
    if detail && r in Answer(s, offset, detail) {
      BuildSorted(s.ticks);
      SplitMembers(Build(s.ticks), s.spacing, r);
    }
  }

  /** The ranges of a token-amount answer: built, filtered, and for the detailed kind split and filtered again. The
      early filter does not show in the result. */
  method AnswerRanges(s: PoolState, offset: uint64, detail: bool) returns (rs: seq<Range>)
    requires Servable(s)
    ensures rs == Answer(s, offset, detail)
  {
    var currentTick := Int32(Int64(s.tick));
    var spacing := Int32(Int64(s.spacing));
    var (fromTick, toTick) := CalculateTickRange(currentTick, Int32(offset), spacing);
    rs := BuildRangeLiquidityArray(s.ticks);
    BuildSorted(s.ticks);
    rs := FilterRangeLiquidityArray(rs, fromTick, toTick);
    if detail {
      forall i | 0 <= i < |rs| ensures Splittable(rs[i].lower, rs[i].upper, spacing) {
        FilterMembers(Build(s.ticks), fromTick, toTick, rs[i]);
      }
      rs := SplitRangeLiquidityArray(rs, spacing);
      rs := FilterRangeLiquidityArray(rs, fromTick, toTick);
      FilterSplitFilter(Build(s.ticks), spacing, fromTick, toTick);
    }
  }

  lemma UnfilteredMeaning(ts: seq<TickState>, spacing: int, detail: bool, t: int)
    requires Ascending(ts) && spacing > 0
    ensures LiquidityAt(Unfiltered(ts, spacing, detail), t) == LiquidityAt(Build(ts), t)
  {
    if detail {
      SplitMeaning(Build(ts), spacing, t);
    }
  }

  lemma UnfilteredSorted(ts: seq<TickState>, spacing: int, detail: bool)
    requires Ascending(ts) && spacing > 0
    ensures Sorted(Unfiltered(ts, spacing, detail))
  {
    BuildSorted(ts);
    if detail {
      SplitSorted(Build(ts), spacing);
    }
  }

  lemma UnfilteredCovers(ts: seq<TickState>, spacing: int, detail: bool, t: int) returns (r: Range)
    requires Ascending(ts) && spacing > 0 && ts != [] && ts[0].tick <= t < ts[|ts| - 1].tick
    ensures Covers(r, t) && r in Unfiltered(ts, spacing, detail)
  {
    r := BuildCovers(ts, t);
    if detail {
      r := SplitCovers(Build(ts), spacing, r, t);
    }
  }

  lemma StagesMeaning(ts: seq<TickState>, spacing: int, a: int, b: int, detail: bool, t: int)
    requires Ascending(ts) && spacing > 0 && a <= t < b
    ensures LiquidityAt(Stages(ts, spacing, a, b, detail), t) == LiquidityAt(Build(ts), t)
  {
    FilterMeaning(Unfiltered(ts, spacing, detail), a, b, t);
    UnfilteredMeaning(ts, spacing, detail, t);
  }

  lemma StagesSorted(ts: seq<TickState>, spacing: int, a: int, b: int, detail: bool)
    requires Ascending(ts) && spacing > 0
    ensures Sorted(Stages(ts, spacing, a, b, detail))
  {
    UnfilteredSorted(ts, spacing, detail);
    FilterSorted(Unfiltered(ts, spacing, detail), a, b);
  }

  lemma StagesCover(ts: seq<TickState>, spacing: int, a: int, b: int, detail: bool, t: int) returns (r: Range)
    requires Ascending(ts) && spacing > 0 && ts != [] && ts[0].tick <= t < ts[|ts| - 1].tick
    ensures Covers(r, t) && (a <= t < b ==> r in Stages(ts, spacing, a, b, detail))
  {
    r := UnfilteredCovers(ts, spacing, detail, t);
    FilterMembers(Unfiltered(ts, spacing, detail), a, b, r);
  }

  /** Inside the window the answer has the pool's liquidity, whichever kind was asked for. */
  lemma AnswerMeaning(s: PoolState, offset: uint64, detail: bool, t: int)
    requires Servable(s)
    ensures Window(s, offset).0 <= t < Window(s, offset).1 ==>
              LiquidityAt(Answer(s, offset, detail), t) == LiquidityAt(Build(s.ticks), t)
  {
    var w := Window(s, offset);
    if w.0 <= t < w.1 {
      StagesMeaning(s.ticks, s.spacing, w.0, w.1, detail, t);
    }
  }

  lemma AnswerSorted(s: PoolState, offset: uint64, detail: bool)
    requires Servable(s)
    ensures Sorted(Answer(s, offset, detail))
  {
    StagesSorted(s.ticks, s.spacing, Window(s, offset).0, Window(s, offset).1, detail);
  }

  /** A tick of the window that the stored ticks surround is covered by an answered range. */
  lemma AnswerCovers(s: PoolState, offset: uint64, detail: bool, t: int) returns (r: Range)
    requires Servable(s) && s.ticks != [] && s.ticks[0].tick <= t < s.ticks[|s.ticks| - 1].tick
    ensures Covers(r, t)
    ensures Window(s, offset).0 <= t < Window(s, offset).1 ==> r in Answer(s, offset, detail)
  {
    r := StagesCover(s.ticks, s.spacing, Window(s, offset).0, Window(s, offset).1, detail, t);
  }

  lemma MemberLiquidity(rs: seq<Range>, r: Range, t: int)
    requires Sorted(rs) && r in rs && Covers(r, t)
    ensures LiquidityAt(rs, t) == r.liq
  {
    var i :| 0 <= i < |rs| && rs[i] == r;
    TheCoveringRange(rs, i, t);
  }

  /** An answered range has the liquidity that the built ranges have at its lower end, in the window or not. */
  lemma StagesLiquidity(ts: seq<TickState>, spacing: int, a: int, b: int, detail: bool, r: Range)
    requires Ascending(ts) && spacing > 0 && r in Stages(ts, spacing, a, b, detail)
    ensures r.liq == LiquidityAt(Build(ts), r.lower)
  {
    FilterMembers(Unfiltered(ts, spacing, detail), a, b, r);
    UnfilteredSorted(ts, spacing, detail);
    UnfilteredMeaning(ts, spacing, detail, r.lower);
    MemberLiquidity(Unfiltered(ts, spacing, detail), r, r.lower);
  }

  /** The answer shows the current price: when the stored ticks surround it, an answered range covers it, with the
      pool's liquidity there. */
  lemma AnswerShowsPrice(s: PoolState, offset: uint64, detail: bool) returns (r: Range)
    requires Servable(s) && IsInt32(s.tick)
    requires EndsFit(s.tick, Int32(offset), s.spacing) && ShowsCurrent(s.tick, Int32(offset), s.spacing)
    requires s.ticks != [] && s.ticks[0].tick <= s.tick < s.ticks[|s.ticks| - 1].tick
    ensures r in Answer(s, offset, detail) && Covers(r, s.tick)
    ensures r.liq == LiquidityAt(Build(s.ticks), s.tick)
  {
    WindowHoldsCurrent(s.tick, Int32(offset), s.spacing);
    r := AnswerCovers(s, offset, detail, s.tick);
    AnswerSorted(s, offset, detail);
    MemberLiquidity(Answer(s, offset, detail), r, s.tick);
    AnswerMeaning(s, offset, detail, s.tick);
  }
}
