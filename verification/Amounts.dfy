/** Token amounts of liquidity ranges over exact reals (liquidity_to_amount.go, section 6.3 of the Uniswap v3 Core
    whitepaper). */
module Amounts {
  import opened Ints
  import opened Liquidity

  type Positive = x: real | x > 0.0 witness 1.0

  /** sqrt(1.0001^tick), of which only the sign and, where stated, monotonicity are used. */
  type SqrtPrice = int -> Positive

  const Q96: Positive := 79228162514264337593543950336.0

  function Pow10(d: int): Positive
    decreases if d < 0 then -d else d
  {
    if d == 0 then 1.0 else if d > 0 then Pow10(d - 1) * 10.0 else Pow10(d + 1) / 10.0
  }

  datatype RangeAmount = RangeAmount(lower: int32, upper: int32, liq: int, amount0: real, amount1: real)

  /** `liqQ96` is the liquidity times 2^96. */
  function Amount0(liqQ96: real, sqrtA: Positive, sqrtB: Positive, pow10: Positive): real {
    liqQ96 * (sqrtB - sqrtA) / sqrtB / sqrtA / pow10
  }

  function Amount1(liq: real, q96: Positive, sqrtA: Positive, sqrtB: Positive, pow10: Positive): real {
    liq * (sqrtB - sqrtA) / q96 / pow10
  }

  function Scaled(p: Positive): Positive {
    p * Q96
  }

  function CalcRangeAmount(liq: int, lower: int32, upper: int32, decimals0: int, decimals1: int,
      sp: SqrtPrice): RangeAmount {
    var sqrtA, sqrtB := Scaled(sp(lower)), Scaled(sp(upper));
    RangeAmount(lower, upper, liq,
                Amount0(liq as real * Q96, sqrtA, sqrtB, Pow10(decimals0)),
                Amount1(liq as real, Q96, sqrtA, sqrtB, Pow10(decimals1)))
  }

  function AmountOf(r: Range, d0: int, d1: int, sp: SqrtPrice): RangeAmount {
    CalcRangeAmount(r.liq, r.lower, r.upper, d0, d1, sp)
  }

  method CalcRangeAmountArray(rs: seq<Range>, d0: int, d1: int, sp: SqrtPrice) returns (amounts: seq<RangeAmount>)
    ensures |amounts| == |rs| && forall i :: 0 <= i < |rs| ==> amounts[i] == AmountOf(rs[i], d0, d1, sp)
  {
    amounts := [];
    for i := 0 to |rs|
      invariant |amounts| == i && forall j :: 0 <= j < i ==> amounts[j] == AmountOf(rs[j], d0, d1, sp)
    {
      amounts := amounts + [AmountOf(rs[i], d0, d1, sp)];
    }
  }

  /** Powers of ten, for negative exponents too. */
  lemma PowersOfTen(d: int)
    ensures Pow10(0) == 1.0 && Pow10(d + 1) == 10.0 * Pow10(d)
  {
    if d < 0 {
      QuotientIs(Pow10(d + 1), 10.0, Pow10(d));
    }
  }

  /** An amount is labelled with its range. */
  lemma AmountLabels(r: Range, d0: int, d1: int, sp: SqrtPrice)
    ensures var x := AmountOf(r, d0, d1, sp); x.lower == r.lower && x.upper == r.upper && x.liq == r.liq
  {
  }

  // ---------- real arithmetic ----------

  lemma QuotientIs(y: real, b: Positive, z: real)
    requires y == z * b
    ensures y / b == z
  {
  }

  lemma QuotientOfDifference(u: real, v: real, p: Positive)
    ensures (u - v) / p == u / p - v / p
  {
  }

  lemma QuotientOfDifferenceIs(y: real, u: real, v: real, p: Positive)
    requires y == u - v
    ensures y / p == u / p - v / p
  {
  }

  /** x (b - a) / b / a is the difference of x / a and x / b. */
  lemma DifferenceOfQuotients(x: real, a: Positive, b: Positive)
    ensures x * (b - a) / b / a == x / a - x / b
  {
    var u, v := x / a, x / b;
    assert x == u * a && x == v * b;
    calc {
      x * (b - a);
      x * b - x * a;
      u * a * b - v * b * a;
      (u - v) * a * b;
    }
    QuotientIs(x * (b - a), b, (u - v) * a);
    QuotientIs((u - v) * a, a, u - v);
  }

  lemma Amount0Steps(x: real, a: Positive, b: Positive, p: Positive, y: real)
    requires y == x * (b - a) / b / a
    ensures Amount0(x, a, b, p) == y / p
  {
  }

  lemma Amount0Difference(x: real, a: Positive, b: Positive, p: Positive)
    ensures Amount0(x, a, b, p) == x / a / p - x / b / p
  {
    var y := x * (b - a) / b / a;
    Amount0Steps(x, a, b, p, y);
    Amount0Ends(x, a, b, p, y);
  }

  lemma Amount0Ends(x: real, a: Positive, b: Positive, p: Positive, y: real)
    requires y == x * (b - a) / b / a
    ensures y / p == x / a / p - x / b / p
  {
    DifferenceOfQuotients(x, a, b);
    QuotientOfDifferenceIs(y, x / a, x / b, p);
  }

  lemma Amount1Difference(l: real, q: Positive, a: Positive, b: Positive, p: Positive)
    ensures Amount1(l, q, a, b, p) == l * b / q / p - l * a / q / p
  {
    assert l * (b - a) == l * b - l * a;
    QuotientOfDifference(l * b, l * a, q);
    QuotientOfDifference(l * b / q, l * a / q, p);
  }

  lemma Amount0Adds(x: real, a: Positive, b: Positive, c: Positive, p: Positive)
    ensures Amount0(x, a, b, p) + Amount0(x, b, c, p) == Amount0(x, a, c, p)
  {
    Amount0Difference(x, a, b, p);
    Amount0Difference(x, b, c, p);
    Amount0Difference(x, a, c, p);
  }

  lemma Amount1Adds(l: real, q: Positive, a: Positive, b: Positive, c: Positive, p: Positive)
    ensures Amount1(l, q, a, b, p) + Amount1(l, q, b, c, p) == Amount1(l, q, a, c, p)
  {
    Amount1Difference(l, q, a, b, p);
    Amount1Difference(l, q, b, c, p);
    Amount1Difference(l, q, a, c, p);
  }

  lemma ScaleCancels(l: real, s: Positive, q: Positive)
    ensures l * q / (s * q) == l / s
  {
    var u := l / s;
    assert l == u * s;
    assert l * q == u * (s * q);
    QuotientIs(l * q, s * q, u);
  }

  lemma FactorCancels(l: real, s: Positive, q: Positive)
    ensures l * (s * q) / q == l * s
  {
    assert l * (s * q) == l * s * q;
    QuotientIs(l * (s * q), q, l * s);
  }

  lemma Amount0Unscaled(l: real, q: Positive, s: Positive, t: Positive, p: Positive)
    ensures Amount0(l * q, s * q, t * q, p) == l / s / p - l / t / p
  {
    Amount0Difference(l * q, s * q, t * q, p);
    ScaleCancels(l, s, q);
    ScaleCancels(l, t, q);
  }

  lemma Amount1Ends(l: real, q: Positive, a: Positive, b: Positive, p: Positive, u: real, v: real)
    requires l * b / q == u && l * a / q == v
    ensures Amount1(l, q, a, b, p) == u / p - v / p
  {
    Amount1Difference(l, q, a, b, p);
  }

  lemma Amount1Unscaled(l: real, q: Positive, s: Positive, t: Positive, p: Positive)
    ensures Amount1(l, q, s * q, t * q, p) == l * t / p - l * s / p
  {
    FactorCancels(l, s, q);
    FactorCancels(l, t, q);
    Amount1Ends(l, q, s * q, t * q, p, l * t, l * s);
  }

  /** The scaling by 2^96 cancels out: these are the whitepaper's amounts, in units of whole tokens. */
  lemma AmountsAreTheWhitepapers(r: Range, d0: int, d1: int, sp: SqrtPrice)
    ensures var l, x := r.liq as real, AmountOf(r, d0, d1, sp);
            && x.amount0 == l / sp(r.lower) / Pow10(d0) - l / sp(r.upper) / Pow10(d0)
            && x.amount1 == l * sp(r.upper) / Pow10(d1) - l * sp(r.lower) / Pow10(d1)
  {
    Amount0Unscaled(r.liq as real, Q96, sp(r.lower), sp(r.upper), Pow10(d0));
    Amount1Unscaled(r.liq as real, Q96, sp(r.lower), sp(r.upper), Pow10(d1));
  }

  // ---------- conservation ----------

  /** Cutting a range in two adds up. */
  ghost predicate Additive(g: Range -> real) {
    forall liq: int, lo: int32, mid: int32, hi: int32 {:trigger g(Range(lo, mid, liq)), g(Range(mid, hi, liq))} ::
      g(Range(lo, mid, liq)) + g(Range(mid, hi, liq)) == g(Range(lo, hi, liq))
  }

  function Total(rs: seq<Range>, g: Range -> real): real {
    if rs == [] then 0.0 else Total(rs[..|rs| - 1], g) + g(rs[|rs| - 1])
  }

  lemma {:induction false} TotalConcat(rs: seq<Range>, ss: seq<Range>, g: Range -> real)
    ensures Total(rs + ss, g) == Total(rs, g) + Total(ss, g)
  {
    if ss == [] {
      assert rs + ss == rs;
    } else {
      var n := |ss| - 1;
      TotalConcat(rs, ss[..n], g);
      assert (rs + ss)[..|rs| + n] == rs + ss[..n];
    }
  }

  lemma TotalOfOne(r: Range, g: Range -> real)
    ensures Total([r], g) == g(r)
  {
    assert [r][..0] == [];
  }

  /** The pieces of a range hold together what the whole range holds. */
  lemma {:induction false} PiecesConserve(lo: int32, hi: int32, s: int, liq: int, g: Range -> real)
    requires Additive(g) && s > 0 && lo < hi
    ensures Total(Labelled(Pieces(lo, hi, s), liq), g) == g(Range(lo, hi, liq))
    decreases hi - lo
  {
    if lo + s >= hi {
      assert Labelled(Pieces(lo, hi, s), liq) == [Range(lo, hi, liq)];
      TotalOfOne(Range(lo, hi, liq), g);
    } else {
      var first, rest := Range(lo, lo + s, liq), Labelled(Pieces(lo + s, hi, s), liq);
      LabelledStep(lo, hi, s, liq);
      PiecesConserve(lo + s, hi, s, liq, g);
      TotalOfOne(first, g);
      TotalConcat([first], rest, g);
    }
  }

  lemma {:induction false} SplitConservesTotal(rs: seq<Range>, s: int, g: Range -> real)
    requires Additive(g) && s > 0 && Sorted(rs)
    ensures Total(Split(rs, s), g) == Total(rs, g)
  {
    if rs != [] {
      var init, r := rs[..|rs| - 1], rs[|rs| - 1];
      SplitConservesTotal(init, s, g);
      PiecesConserve(r.lower, r.upper, s, r.liq, g);
      TotalConcat(Split(init, s), Labelled(Pieces(r.lower, r.upper, s), r.liq), g);
    }
  }

  /** Splitting by tick spacing conserves both token totals. */
  lemma SplitConserves(rs: seq<Range>, s: int, d0: int, d1: int, sp: SqrtPrice)
    requires s > 0 && Sorted(rs)
    ensures var amount0 := (r: Range) => AmountOf(r, d0, d1, sp).amount0;
            Total(Split(rs, s), amount0) == Total(rs, amount0)
    ensures var amount1 := (r: Range) => AmountOf(r, d0, d1, sp).amount1;
            Total(Split(rs, s), amount1) == Total(rs, amount1)
  {
    var amount0 := (r: Range) => AmountOf(r, d0, d1, sp).amount0;
    var amount1 := (r: Range) => AmountOf(r, d0, d1, sp).amount1;
    forall liq: int, lo: int32, mid: int32, hi: int32
      ensures amount0(Range(lo, mid, liq)) + amount0(Range(mid, hi, liq)) == amount0(Range(lo, hi, liq))
      ensures amount1(Range(lo, mid, liq)) + amount1(Range(mid, hi, liq)) == amount1(Range(lo, hi, liq))
    {
      Amount0Adds(liq as real * Q96, Scaled(sp(lo)), Scaled(sp(mid)), Scaled(sp(hi)), Pow10(d0));
      Amount1Adds(liq as real, Q96, Scaled(sp(lo)), Scaled(sp(mid)), Scaled(sp(hi)), Pow10(d1));
    }
    SplitConservesTotal(rs, s, amount0);
    SplitConservesTotal(rs, s, amount1);
  }

  // ---------- sign ----------

  lemma ProductNotNegative(x: real, y: Positive)
    requires x >= 0.0
    ensures x * y >= 0.0 && x / y >= 0.0
  {
  }

  lemma Amount0Sign(x: real, a: Positive, b: Positive, p: Positive)
    requires x >= 0.0 && a < b
    ensures Amount0(x, a, b, p) >= 0.0
  {
    ProductNotNegative(x, b - a);
    ProductNotNegative(x * (b - a), b);
    ProductNotNegative(x * (b - a) / b, a);
    ProductNotNegative(x * (b - a) / b / a, p);
  }

  lemma Amount1Sign(l: real, q: Positive, a: Positive, b: Positive, p: Positive)
    requires l >= 0.0 && a < b
    ensures Amount1(l, q, a, b, p) >= 0.0
  {
    ProductNotNegative(l, b - a);
    ProductNotNegative(l * (b - a), q);
    ProductNotNegative(l * (b - a) / q, p);
  }

  lemma ScaledIncreases(p: Positive, r: Positive)
    requires p < r
    ensures Scaled(p) < Scaled(r)
  {
  }

  /** Where the price grows over the range and liquidity is not negative, neither are the token amounts. */
  lemma AmountsNotNegative(r: Range, d0: int, d1: int, sp: SqrtPrice)
    requires r.liq >= 0 && sp(r.lower) < sp(r.upper)
    ensures AmountOf(r, d0, d1, sp).amount0 >= 0.0 && AmountOf(r, d0, d1, sp).amount1 >= 0.0
  {
    var l := r.liq as real;
    ScaledIncreases(sp(r.lower), sp(r.upper));
    ProductNotNegative(l, Q96);
    Amount0Sign(l * Q96, Scaled(sp(r.lower)), Scaled(sp(r.upper)), Pow10(d0));
    Amount1Sign(l, Q96, Scaled(sp(r.lower)), Scaled(sp(r.upper)), Pow10(d1));
  }
}
