/** From tick deltas to liquidity ranges (liquidity_to_amount.go). Each stage is read as a function from ticks to
    liquidity. */
module Liquidity {
  import opened Ints
  import opened Types

  datatype Range = Range(lower: int32, upper: int32, liq: int)

  predicate Covers(r: Range, t: int) {
    r.lower <= t < r.upper
  }

  /** The liquidity that the ranges give to tick `t`. */
  function LiquidityAt(rs: seq<Range>, t: int): int {
    if rs == [] then 0
    else LiquidityAt(rs[..|rs| - 1], t) + if Covers(rs[|rs| - 1], t) then rs[|rs| - 1].liq else 0
  }

  lemma LiquidityAppend(rs: seq<Range>, r: Range, t: int)
    ensures LiquidityAt(rs + [r], t) == LiquidityAt(rs, t) + if Covers(r, t) then r.liq else 0
  {
    assert (rs + [r])[..|rs|] == rs;
  }

  lemma {:induction false} LiquidityConcat(rs: seq<Range>, ss: seq<Range>, t: int)
    ensures LiquidityAt(rs + ss, t) == LiquidityAt(rs, t) + LiquidityAt(ss, t)
  {
    if ss == [] {
      assert rs + ss == rs;
    } else {
      var n := |ss| - 1;
      LiquidityConcat(rs, ss[..n], t);
      LiquidityAppend(rs + ss[..n], ss[n], t);
      InitLast(ss);
      ConcatAssociates(rs, ss[..n], [ss[n]]);
    }
  }

  /** Ranges are non-empty, in order, and do not overlap. */
  predicate Sorted(rs: seq<Range>) {
    && (forall i :: 0 <= i < |rs| ==> rs[i].lower < rs[i].upper)
    && (forall i, j :: 0 <= i < j < |rs| ==> rs[i].upper <= rs[j].lower)
  }

  lemma {:induction false} NothingBefore(rs: seq<Range>, t: int)
    requires forall i :: 0 <= i < |rs| ==> rs[i].upper <= t
    ensures LiquidityAt(rs, t) == 0
  {
    if rs != [] {
      NothingBefore(rs[..|rs| - 1], t);
    }
  }

  /** In sorted ranges, the liquidity at a tick is that of the one range that covers it. */
  lemma {:induction false} TheCoveringRange(rs: seq<Range>, i: nat, t: int)
    requires Sorted(rs) && i < |rs| && Covers(rs[i], t)
    ensures LiquidityAt(rs, t) == rs[i].liq
  {
    var n := |rs| - 1;
    if i == n {
      NothingBefore(rs[..n], t);
    } else {
      TheCoveringRange(rs[..n], i, t);
    }
  }

  // ---------- prefix sums ----------

  /** The sum of the first `n` deltas. */
  function Prefix(ts: seq<TickState>, n: nat): int
    requires n <= |ts|
  {
    if n == 0 then 0 else Prefix(ts, n - 1) + ts[n - 1].net
  }

  function Build(ts: seq<TickState>): seq<Range> {
    if |ts| < 2 then []
    else
      var n := |ts| - 1;
      Build(ts[..n]) + [Range(ts[n - 1].tick, ts[n].tick, Prefix(ts, n))]
  }

  lemma {:induction false} PrefixOfPrefix(ts: seq<TickState>, m: nat, n: nat)
    requires n <= m <= |ts|
    ensures Prefix(ts[..m], n) == Prefix(ts, n)
  {
    if n > 0 {
      PrefixOfPrefix(ts, m, n - 1);
    }
  }

  method TickBoundaries(ts: seq<TickState>) returns (b: array<int32>)
    ensures fresh(b) && b.Length == |ts| && forall j :: 0 <= j < |ts| ==> b[j] == ts[j].tick
  {
    b := new int32[|ts|](i => 0);
    for i := 0 to |ts|
      invariant forall j :: 0 <= j < i ==> b[j] == ts[j].tick
    {
      b[i] := ts[i].tick;
    }
  }

  method PrefixLiquidity(ts: seq<TickState>) returns (p: array<int>)
    ensures fresh(p) && p.Length == |ts| && forall j :: 0 <= j < |ts| ==> p[j] == Prefix(ts, j + 1)
  {
    p := new int[|ts|](i => 0);
    var current := 0;
    for i := 0 to |ts|
      invariant current == Prefix(ts, i)
      invariant forall j :: 0 <= j < i ==> p[j] == Prefix(ts, j + 1)
    {
      current := current + ts[i].net;
      p[i] := current;
    }
  }

  method BuildRangeLiquidityArray(ts: seq<TickState>) returns (rs: seq<Range>)
    ensures rs == Build(ts)
  {
    rs := [];
    if |ts| == 0 {
      return;
    }
    var boundaries := TickBoundaries(ts);
    var prefix := PrefixLiquidity(ts);
    for i := 0 to |ts| - 1
      modifies {}
      invariant rs == Build(ts[..i + 1])
      invariant forall j :: 0 <= j < |ts| ==> boundaries[j] == ts[j].tick && prefix[j] == Prefix(ts, j + 1)
    {
      BuildStep(ts, i);
      rs := rs + [Range(boundaries[i], boundaries[i + 1], prefix[i])];
    }
    assert ts[..|ts|] == ts;
  }

  lemma BuildStep(ts: seq<TickState>, i: nat)
    requires i + 1 < |ts|
    ensures Build(ts[..i + 2]) == Build(ts[..i + 1]) + [Range(ts[i].tick, ts[i + 1].tick, Prefix(ts, i + 1))]
  {
    assert ts[..i + 2][..i + 1] == ts[..i + 1];
    PrefixOfPrefix(ts, i + 2, i + 1);
  }

  /** The sum of the deltas at ticks up to and including `t`. */
  function NetUpTo(ts: seq<TickState>, t: int): int {
    if ts == [] then 0
    else NetUpTo(ts[..|ts| - 1], t) + if ts[|ts| - 1].tick <= t then ts[|ts| - 1].net else 0
  }

  lemma {:induction false} PrefixIsNetUpTo(ts: seq<TickState>, t: int)
    requires forall i :: 0 <= i < |ts| ==> ts[i].tick <= t
    ensures NetUpTo(ts, t) == Prefix(ts, |ts|)
  {
    if ts != [] {
      PrefixIsNetUpTo(ts[..|ts| - 1], t);
      PrefixOfPrefix(ts, |ts| - 1, |ts| - 1);
    }
  }

  lemma {:induction false} NoneUpTo(ts: seq<TickState>, t: int)
    requires forall i :: 0 <= i < |ts| ==> t < ts[i].tick
    ensures NetUpTo(ts, t) == 0
  {
    if ts != [] {
      NoneUpTo(ts[..|ts| - 1], t);
    }
  }

  /** Between the first and the last tick, the built ranges give the sum of the deltas up to the tick; outside they
      give nothing. */
  lemma {:induction false} BuildMeaning(ts: seq<TickState>, t: int)
    requires Ascending(ts)
    ensures LiquidityAt(Build(ts), t) ==
            if ts != [] && ts[0].tick <= t < ts[|ts| - 1].tick then NetUpTo(ts, t) else 0
  {
    if |ts| >= 2 {
      var n := |ts| - 1;
      BuildMeaning(ts[..n], t);
      LiquidityAppend(Build(ts[..n]), Range(ts[n - 1].tick, ts[n].tick, Prefix(ts, n)), t);
      if ts[n - 1].tick <= t {
        PrefixIsNetUpTo(ts[..n], t);
        PrefixOfPrefix(ts, n, n);
      }
    }
  }

  /** When the deltas sum to zero, nothing lies outside and the ranges give the sum at every tick. */
  lemma BuildBalanced(ts: seq<TickState>, t: int)
    requires Ascending(ts) && Prefix(ts, |ts|) == 0
    ensures LiquidityAt(Build(ts), t) == NetUpTo(ts, t)
  {
    BuildMeaning(ts, t);
    if ts != [] {
      if t < ts[0].tick {
        NoneUpTo(ts, t);
      } else if ts[|ts| - 1].tick <= t {
        PrefixIsNetUpTo(ts, t);
      }
    }
  }

  lemma {:induction false} BuildSorted(ts: seq<TickState>)
    requires Ascending(ts)
    ensures Sorted(Build(ts))
    ensures forall i :: 0 <= i < |Build(ts)| ==>
            ts != [] && ts[0].tick <= Build(ts)[i].lower && Build(ts)[i].upper <= ts[|ts| - 1].tick
  {
    if |ts| >= 2 {
      BuildSorted(ts[..|ts| - 1]);
    }
  }

  // ---------- window ----------

  predicate Kept(r: Range, fromTick: int, toTick: int) {
    r.upper > fromTick && r.lower < toTick
  }

  function Filter(rs: seq<Range>, fromTick: int, toTick: int): seq<Range> {
    if rs == [] then []
    else
      var rest := Filter(rs[..|rs| - 1], fromTick, toTick);
      if Kept(rs[|rs| - 1], fromTick, toTick) then rest + [rs[|rs| - 1]] else rest
  }

  method FilterRangeLiquidityArray(rs: seq<Range>, fromTick: int32, toTick: int32) returns (r: seq<Range>)
    ensures r == Filter(rs, fromTick, toTick)
  {
    r := [];
    for i := 0 to |rs|
      invariant r == Filter(rs[..i], fromTick, toTick)
    {
      assert rs[..i + 1][..i] == rs[..i];
      if rs[i].upper > fromTick && rs[i].lower < toTick {
        r := r + [rs[i]];
      }
    }
    assert rs[..|rs|] == rs;
  }

  lemma {:induction false} FilterConcat(rs: seq<Range>, ss: seq<Range>, a: int, b: int)
    ensures Filter(rs + ss, a, b) == Filter(rs, a, b) + Filter(ss, a, b)
  {
    if ss == [] {
      assert rs + ss == rs;
    } else {
      var n := |ss| - 1;
      FilterConcat(rs, ss[..n], a, b);
      assert (rs + ss)[..|rs| + n] == rs + ss[..n];
    }
  }

  /** Filtering changes nothing inside the window. */
  lemma {:induction false} FilterMeaning(rs: seq<Range>, a: int, b: int, t: int)
    requires a <= t < b
    ensures LiquidityAt(Filter(rs, a, b), t) == LiquidityAt(rs, t)
  {
    if rs != [] {
      var n := |rs| - 1;
      FilterMeaning(rs[..n], a, b, t);
      LiquidityAppend(Filter(rs[..n], a, b), rs[n], t);
    }
  }

  /** The kept ranges are exactly those that meet the window. */
  lemma {:induction false} FilterMembers(rs: seq<Range>, a: int, b: int, r: Range)
    ensures r in Filter(rs, a, b) <==> r in rs && r.upper > a && r.lower < b
  {
    if rs != [] {
      FilterMembers(rs[..|rs| - 1], a, b, r);
      assert r in rs <==> r in rs[..|rs| - 1] || r == rs[|rs| - 1];
    }
  }

  lemma {:induction false} FilterSorted(rs: seq<Range>, a: int, b: int)
    requires Sorted(rs)
    ensures Sorted(Filter(rs, a, b))
  {
    if rs != [] {
      var n := |rs| - 1;
      FilterSorted(rs[..n], a, b);
      var f := Filter(rs[..n], a, b);
      forall i | 0 <= i < |f| ensures f[i].upper <= rs[n].lower {
        FilterMembers(rs[..n], a, b, f[i]);
      }
    }
  }

  // ---------- splitting ----------

  /** The pieces of [lo, hi): steps of `s`, the last one cut at `hi`. */
  function Pieces(lo: int32, hi: int32, s: int): seq<(int32, int32)>
    requires s > 0
    decreases hi - lo
  {
    if lo >= hi then []
    else if lo + s >= hi then [(lo, hi)]
    else [(lo, lo + s)] + Pieces(lo + s, hi, s)
  }

  /** The pieces follow each other without gap from `lo` to `hi`; all have width `s` except that the last may be
      narrower. */
  predicate Partition(ps: seq<(int32, int32)>, lo: int, hi: int, s: int) {
    && ps != [] && ps[0].0 == lo && ps[|ps| - 1].1 == hi
    && (forall i :: 0 <= i < |ps| - 1 ==> ps[i].1 == ps[i + 1].0 == ps[i].0 + s)
    && ps[|ps| - 1].0 < ps[|ps| - 1].1 <= ps[|ps| - 1].0 + s
  }

  lemma PartitionCons(rest: seq<(int32, int32)>, lo: int32, mid: int32, hi: int, s: int)
    requires mid == lo + s && Partition(rest, mid, hi, s)
    ensures Partition([(lo, mid)] + rest, lo, hi, s)
  {
    var ps := [(lo, mid)] + rest;
    forall i | 0 <= i < |ps| - 1 ensures ps[i].1 == ps[i + 1].0 == ps[i].0 + s {
      if i > 0 {
        assert ps[i] == rest[i - 1] && ps[i + 1] == rest[i];
      }
    }
  }

  lemma {:induction false} PiecesPartition(lo: int32, hi: int32, s: int)
    requires s > 0 && lo < hi
    ensures Partition(Pieces(lo, hi, s), lo, hi, s)
    decreases hi - lo
  {
    if lo + s < hi {
      PiecesPartition(lo + s, hi, s);
      PartitionCons(Pieces(lo + s, hi, s), lo, lo + s, hi, s);
    }
  }

  lemma PiecesStep(t: int32, next: int32, upper: int32, s: int)
    requires s > 0 && t < upper && t + s < 0x8000_0000 && next == (if t + s > upper then upper else t + s)
    ensures Pieces(t, upper, s) == [(t, next)] + Pieces(t + s, upper, s)
  {
  }

  /** Where the loop variable ends: the first step from `lower` that reaches `upper`. */
  function LoopEnd(lower: int, upper: int, s: int): (e: int)
    requires s > 0 && lower < upper
    ensures lower + s <= e && upper <= e < upper + s
    decreases upper - lower
  {
    if lower + s >= upper then lower + s else LoopEnd(lower + s, upper, s)
  }

  lemma {:induction false} LoopEndIs(lower: int, upper: int, s: int)
    requires s > 0 && lower < upper
    ensures LoopEnd(lower, upper, s) == lower + ((upper - 1 - lower) / s + 1) * s
    decreases upper - lower
  {
    var n := upper - 1 - lower;
    QuotientStep(n, s);
    if lower + s < upper {
      LoopEndIs(lower + s, upper, s);
      var q := (n - s) / s;
      assert (q + 2) * s == (q + 1) * s + s;
    } else {
      assert (0 + 1) * s == s;
    }
  }

  /** The loop variable never wraps around. */
  predicate Splittable(lower: int32, upper: int32, s: int32) {
    lower < upper ==> s > 0 && LoopEnd(lower, upper, s) < 0x8000_0000
  }

  lemma Int24Splittable(lower: int24, upper: int24, s: int24)
    requires s > 0
    ensures Splittable(lower, upper, s)
  {
  }

  method SplitToTickSpacingRanges(lower: int32, upper: int32, s: int32) returns (ps: seq<(int32, int32)>)
    requires Splittable(lower, upper, s)
    ensures lower < upper ==> ps == Pieces(lower, upper, s)
    ensures lower >= upper ==> ps == []
  {
    ps := [];
    var t: int32 := lower;
    while t < upper
      invariant lower < upper ==> s > 0 && ps + Pieces(t, upper, s) == Pieces(lower, upper, s)
      invariant lower >= upper ==> ps == [] && t == lower
      invariant Splittable(t, upper, s)
      decreases upper - t
    {
      var next := Int32(t + s);
      if next > upper {
        next := upper;
      }
      PiecesStep(t, next, upper, s);
      ConcatAssociates(ps, [(t, next)], Pieces(t + s, upper, s));
      ps := ps + [(t, next)];
      t := Int32(t + s);
    }
  }

  /** The loop in wrapping arithmetic, for all arguments, given up after `rounds` rounds. */
  function SplitLoop(t: int32, upper: int32, s: int32, rounds: nat): Option<seq<(int32, int32)>>
    decreases rounds
  {
    if t >= upper then Some([])
    else if rounds == 0 then None
    else
      var next := Int32(t + s);
      match SplitLoop(next, upper, s, rounds - 1)
      case None => None
      case Some(rest) => Some([(t, if next > upper then upper else next)] + rest)
  }

  /** The loop ends after some number of rounds, with a partition of [lower, upper). */
  ghost predicate SplitsWell(lower: int32, upper: int32, s: int32) {
    exists rounds: nat, ps :: SplitLoop(lower, upper, s, rounds) == Some(ps) && Partition(ps, lower, upper, s)
  }

  lemma {:induction false} LoopMakesPieces(lower: int32, upper: int32, s: int32) returns (rounds: nat)
    requires lower < upper && Splittable(lower, upper, s)
    ensures SplitLoop(lower, upper, s, rounds) == Some(Pieces(lower, upper, s))
    decreases upper - lower
  {
    if lower + s >= upper {
      rounds := 1;
      assert SplitLoop(lower + s, upper, s, 0) == Some([]);
      assert [(lower, upper)] + [] == [(lower, upper)];
    } else {
      rounds := LoopMakesPieces(lower + s, upper, s);
      rounds := rounds + 1;
    }
  }

  lemma WrappedStep(t: int32, s: int32)
    requires s > 0
    ensures Int32(t + s) == if t + s < 0x8000_0000 then t + s else t + s - TWO_32
  {
    WrapNear(t + s, TWO_32);
  }

  lemma PartitionTail(p: (int32, int32), rest: seq<(int32, int32)>, lo: int, hi: int, s: int)
    requires rest != [] && Partition([p] + rest, lo, hi, s)
    ensures p == (lo, lo + s) && Partition(rest, lo + s, hi, s)
  {
    var ps := [p] + rest;
    assert ps[0].1 == ps[1].0 == ps[0].0 + s;
    forall i | 0 <= i < |rest| - 1 ensures rest[i].1 == rest[i + 1].0 == rest[i].0 + s {
      assert ps[i + 1].1 == ps[i + 2].0 == ps[i + 1].0 + s;
    }
  }

  lemma {:induction false} PartitionNeedsNoWrap(lower: int32, upper: int32, s: int32, rounds: nat,
      ps: seq<(int32, int32)>)
    requires lower < upper
    requires SplitLoop(lower, upper, s, rounds) == Some(ps) && Partition(ps, lower, upper, s)
    ensures Splittable(lower, upper, s)
    decreases rounds
  {
    var next := Int32(lower + s);
    var rest := SplitLoop(next, upper, s, rounds - 1).value;
    WrappedStep(lower, s);
    if rest != [] {
      PartitionTail(ps[0], rest, lower, upper, s);
      PartitionNeedsNoWrap(next, upper, s, rounds - 1, rest);
    }
  }

  /** The loop ends with a partition exactly when its variable does not wrap around. */
  lemma SplitsWellIff(lower: int32, upper: int32, s: int32)
    requires lower < upper
    ensures SplitsWell(lower, upper, s) <==> Splittable(lower, upper, s)
  {
    if Splittable(lower, upper, s) {
      var rounds := LoopMakesPieces(lower, upper, s);
      PiecesPartition(lower, upper, s);
    }
    if SplitsWell(lower, upper, s) {
      var rounds: nat, ps :| SplitLoop(lower, upper, s, rounds) == Some(ps) && Partition(ps, lower, upper, s);
      PartitionNeedsNoWrap(lower, upper, s, rounds, ps);
    }
  }

  function Labelled(ps: seq<(int32, int32)>, liq: int): seq<Range> {
    seq(|ps|, i requires 0 <= i < |ps| => Range(ps[i].0, ps[i].1, liq))
  }

  function Split(rs: seq<Range>, s: int): seq<Range>
    requires s > 0
  {
    if rs == [] then []
    else
      var r := rs[|rs| - 1];
      Split(rs[..|rs| - 1], s) + Labelled(Pieces(r.lower, r.upper, s), r.liq)
  }

  method SplitRangeLiquidityArray(rs: seq<Range>, s: int32) returns (r: seq<Range>)
    requires forall i :: 0 <= i < |rs| ==> Splittable(rs[i].lower, rs[i].upper, s)
    ensures s > 0 ==> r == Split(rs, s)
    ensures s <= 0 ==> r == []
  {
    r := [];
    for i := 0 to |rs|
      invariant if s > 0 then r == Split(rs[..i], s) else r == []
    {
      assert rs[..i + 1][..i] == rs[..i];
      var ps := SplitToTickSpacingRanges(rs[i].lower, rs[i].upper, s);
      r := AppendPieces(r, ps, rs[i].liq);
    }
    assert rs[..|rs|] == rs;
  }

  /** The inner loop: the pieces of one range, each with its liquidity. */
  method AppendPieces(rs: seq<Range>, ps: seq<(int32, int32)>, liq: int) returns (r: seq<Range>)
    ensures r == rs + Labelled(ps, liq)
  {
    r := rs;
    for j := 0 to |ps|
      invariant r == rs + Labelled(ps[..j], liq)
    {
      assert Labelled(ps[..j + 1], liq) == Labelled(ps[..j], liq) + [Range(ps[j].0, ps[j].1, liq)];
      r := r + [Range(ps[j].0, ps[j].1, liq)];
    }
    assert ps[..|ps|] == ps;
  }

  lemma LabelledStep(lo: int32, hi: int32, s: int, liq: int)
    requires s > 0 && lo + s < hi
    ensures Labelled(Pieces(lo, hi, s), liq) == [Range(lo, lo + s, liq)] + Labelled(Pieces(lo + s, hi, s), liq)
  {
  }

  lemma {:induction false} PiecesMeaning(lo: int32, hi: int32, s: int, liq: int, t: int)
    requires s > 0
    ensures LiquidityAt(Labelled(Pieces(lo, hi, s), liq), t) == if lo <= t < hi then liq else 0
    decreases hi - lo
  {
    if lo < hi {
      if lo + s < hi {
        LabelledStep(lo, hi, s, liq);
        PiecesMeaning(lo + s, hi, s, liq, t);
        LiquidityAppend([], Range(lo, lo + s, liq), t);
        LiquidityConcat([] + [Range(lo, lo + s, liq)], Labelled(Pieces(lo + s, hi, s), liq), t);
        assert [] + [Range(lo, lo + s, liq)] == [Range(lo, lo + s, liq)];
      } else {
        assert Labelled(Pieces(lo, hi, s), liq) == [] + [Range(lo, hi, liq)];
        LiquidityAppend([], Range(lo, hi, liq), t);
      }
    }
  }

  /** Splitting changes nothing anywhere. */
  lemma {:induction false} SplitMeaning(rs: seq<Range>, s: int, t: int)
    requires s > 0
    ensures LiquidityAt(Split(rs, s), t) == LiquidityAt(rs, t)
  {
    if rs != [] {
      var r := rs[|rs| - 1];
      SplitMeaning(rs[..|rs| - 1], s, t);
      PiecesMeaning(r.lower, r.upper, s, r.liq, t);
      LiquidityConcat(Split(rs[..|rs| - 1], s), Labelled(Pieces(r.lower, r.upper, s), r.liq), t);
    }
  }

  lemma {:induction false} PiecesInside(lo: int32, hi: int32, s: int)
    requires s > 0
    ensures forall i :: 0 <= i < |Pieces(lo, hi, s)| ==>
        lo <= Pieces(lo, hi, s)[i].0 < Pieces(lo, hi, s)[i].1 <= hi
    ensures Sorted(Labelled(Pieces(lo, hi, s), 0))
    decreases hi - lo
  {
    if lo + s < hi {
      PiecesInside(lo + s, hi, s);
      LabelledStep(lo, hi, s, 0);
    }
  }

  /** Pieces of a range outside the window are outside the window. */
  lemma {:induction false} FilterDropsPieces(r: Range, s: int, a: int, b: int)
    requires s > 0 && !Kept(r, a, b)
    ensures Filter(Labelled(Pieces(r.lower, r.upper, s), r.liq), a, b) == []
  {
    PiecesInside(r.lower, r.upper, s);
    NoneKept(Labelled(Pieces(r.lower, r.upper, s), r.liq), a, b);
  }

  lemma {:induction false} NoneKept(rs: seq<Range>, a: int, b: int)
    requires forall i :: 0 <= i < |rs| ==> !Kept(rs[i], a, b)
    ensures Filter(rs, a, b) == []
  {
    if rs != [] {
      NoneKept(rs[..|rs| - 1], a, b);
    }
  }

  /** Filtering before splitting only saves work. */
  lemma {:induction false} FilterSplitFilter(rs: seq<Range>, s: int, a: int, b: int)
    requires s > 0
    ensures Filter(Split(Filter(rs, a, b), s), a, b) == Filter(Split(rs, s), a, b)
  {
    if rs != [] {
      var init, r := rs[..|rs| - 1], rs[|rs| - 1];
      var pieces := Labelled(Pieces(r.lower, r.upper, s), r.liq);
      FilterSplitFilter(init, s, a, b);
      FilterConcat(Split(init, s), pieces, a, b);
      if Kept(r, a, b) {
        var f := Filter(init, a, b);
        assert (f + [r])[..|f|] == f;
        FilterConcat(Split(f, s), pieces, a, b);
      } else {
        FilterDropsPieces(r, s, a, b);
      }
    }
  }

  lemma {:induction false} PieceMembers(lo: int32, hi: int32, s: int, k: nat)
    requires s > 0 && k < |Pieces(lo, hi, s)|
    ensures var p := Pieces(lo, hi, s)[k]; lo <= p.0 < p.1 <= hi && p.1 - p.0 <= s
    decreases hi - lo
  {
    if lo + s < hi && k > 0 {
      PieceMembers(lo + s, hi, s, k - 1);
    }
  }

  /** A split range lies within one of the ranges, with its liquidity, and is not wider than the spacing. */
  lemma {:induction false} SplitMembers(rs: seq<Range>, s: int, r: Range)
    requires s > 0 && r in Split(rs, s)
    ensures 0 < r.upper - r.lower <= s
    ensures exists b :: b in rs && b.lower <= r.lower && r.upper <= b.upper && b.liq == r.liq
  {
    var n := |rs| - 1;
    var last := Labelled(Pieces(rs[n].lower, rs[n].upper, s), rs[n].liq);
    if r in last {
      var k :| 0 <= k < |last| && last[k] == r;
      PieceMembers(rs[n].lower, rs[n].upper, s, k);
      assert rs[n] in rs;
    } else {
      SplitMembers(rs[..n], s, r);
      var b :| b in rs[..n] && b.lower <= r.lower && r.upper <= b.upper && b.liq == r.liq;
      assert b in rs;
    }
  }

  lemma {:induction false} SplitSorted(rs: seq<Range>, s: int)
    requires s > 0 && Sorted(rs)
    ensures Sorted(Split(rs, s))
    ensures rs != [] ==> forall i :: 0 <= i < |Split(rs, s)| ==> Split(rs, s)[i].upper <= rs[|rs| - 1].upper
  {
    if rs != [] {
      var init, r := rs[..|rs| - 1], rs[|rs| - 1];
      SplitSorted(init, s);
      PiecesInside(r.lower, r.upper, s);
      var before, pieces := Split(init, s), Labelled(Pieces(r.lower, r.upper, s), r.liq);
      assert Sorted(pieces) by {
        var zero := Labelled(Pieces(r.lower, r.upper, s), 0);
        assert forall i :: 0 <= i < |pieces| ==> pieces[i].lower == zero[i].lower && pieces[i].upper == zero[i].upper;
      }
    }
  }

  // ---------- the ranges that cover a tick ----------

  lemma {:induction false} BuildCovers(ts: seq<TickState>, t: int) returns (r: Range)
    requires ts != [] && ts[0].tick <= t < ts[|ts| - 1].tick
    ensures r in Build(ts) && Covers(r, t)
  {
    var n := |ts| - 1;
    var last := Range(ts[n - 1].tick, ts[n].tick, Prefix(ts, n));
    if ts[n - 1].tick <= t {
      r := last;
    } else {
      r := BuildCovers(ts[..n], t);
    }
    assert Build(ts) == Build(ts[..n]) + [last];
  }

  lemma {:induction false} PieceCovers(lo: int32, hi: int32, s: int, liq: int, t: int) returns (p: Range)
    requires s > 0 && lo <= t < hi
    ensures p in Labelled(Pieces(lo, hi, s), liq) && Covers(p, t)
    decreases hi - lo
  {
    if lo + s >= hi {
      p := Range(lo, hi, liq);
      assert Labelled(Pieces(lo, hi, s), liq)[0] == p;
    } else {
      LabelledStep(lo, hi, s, liq);
      if t < lo + s {
        p := Range(lo, lo + s, liq);
      } else {
        p := PieceCovers(lo + s, hi, s, liq, t);
      }
    }
  }

  /** Splitting loses no covered tick. */
  lemma {:induction false} SplitCovers(rs: seq<Range>, s: int, r: Range, t: int) returns (p: Range)
    requires s > 0 && r in rs && Covers(r, t)
    ensures p in Split(rs, s) && Covers(p, t)
  {
    var n := |rs| - 1;
    if r == rs[n] {
      p := PieceCovers(r.lower, r.upper, s, r.liq, t);
    } else {
      p := SplitCovers(rs[..n], s, r, t);
    }
  }
}
