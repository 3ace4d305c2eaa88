/** Fixed-width integers as subset types of the unbounded `int`, with the wrapping conversions written out. */
module Ints {

  const TWO_32: int := 0x1_0000_0000
  const TWO_64: int := 0x1_0000_0000_0000_0000
  const TWO_256: int := TWO_64 * TWO_64 * TWO_64 * TWO_64

  type byte = x: int | 0 <= x < 256
  type int24 = x: int | -0x80_0000 <= x < 0x80_0000
  type int32 = x: int | -0x8000_0000 <= x < 0x8000_0000
  type uint64 = x: int | 0 <= x < 0x1_0000_0000_0000_0000

  /** `x` wrapped around into [0, m): the low bits of `x`, for m a power of two. */
  function Wrap(x: int, m: int): (w: int)
    requires m > 0
    ensures 0 <= w < m
    decreases if x < 0 then m - x else x
  {
    if x < 0 then Wrap(x + m, m) else if x >= m then Wrap(x - m, m) else x
  }

  lemma {:induction false} WrapIsModulo(x: int, m: int)
    requires m > 0
    ensures Wrap(x, m) == x % m
    decreases if x < 0 then m - x else x
  {
    if x < 0 {
      WrapIsModulo(x + m, m);
      ModuloShift(x, m);
    } else if x >= m {
      WrapIsModulo(x - m, m);
      ModuloShift(x - m, m);
    }
  }

  lemma ModuloShift(x: int, m: int)
    requires m > 0
    ensures (x + m) % m == x % m
  {
    var q, r := x / m, x % m;
    assert x + m == m * (q + 1) + r;
    QuotientUnique(x + m, m, q + 1, r);
  }

  lemma QuotientUnique(x: int, m: int, q: int, r: int)
    requires m > 0 && 0 <= r < m && x == m * q + r
    ensures x % m == r
  {
    var d := x / m - q;
    assert m * d == r - x % m;
    MultipleOf(d, m);
  }

  lemma MultipleOf(d: int, m: int)
    requires m > 0
    ensures d > 0 ==> m * d >= m
    ensures d < 0 ==> m * d <= -m
  {
    if d > 0 {
      MulGrows(d - 1, m);
      assert m * d == m * (d - 1) + m;
    } else if d < 0 {
      MulGrows(-d - 1, m);
      assert m * -d == m * (-d - 1) + m;
      assert m * d == -(m * -d);
    }
  }

  lemma MulGrows(n: nat, m: nat)
    ensures m * n >= 0
  {
  }

  lemma WrapNear(x: int, m: int)
    requires m > 0 && -m <= x < m
    ensures Wrap(x, m) == if x < 0 then x + m else x
  {
  }

  /** `low`, a value in [0, m), read in two's complement. */
  function Signed(low: int, m: int): int {
    if low < m / 2 then low else low - m
  }

  /** The low 32 bits of `x`, read in two's complement: a Go conversion to int32. */
  function Int32(x: int): int32 {
    if -0x8000_0000 <= x < 0x8000_0000 then x else Signed(Wrap(x, TWO_32), TWO_32)
  }

  /** The low 64 bits of `x`, read in two's complement: a Go conversion to int64, or big.Int.Int64. */
  function Int64(x: int): int {
    if -0x8000_0000_0000_0000 <= x < 0x8000_0000_0000_0000 then x else Signed(Wrap(x, TWO_64), TWO_64)
  }

  /** The low 64 bits of `x`: a Go conversion to uint64. */
  function Uint64(x: int): uint64 {
    Wrap(x, TWO_64)
  }

  /** big.Int.Uint64, which drops the sign: the low 64 bits of the magnitude. */
  function BigUint64(x: int): uint64 {
    Uint64(if x < 0 then -x else x)
  }

  /** Division rounding toward zero, as in Go and Solidity. */
  function TruncDiv(a: int, b: int): int
    requires b != 0
    decreases if b < 0 then 1 else 0
  {
    if b < 0 then -TruncDiv(a, -b) else if a >= 0 then a / b else -(-a / b)
  }

  lemma QuotientOf(n: nat, s: int)
    requires s > 0
    ensures 0 <= n / s * s <= n < n / s * s + s
    ensures n % s == n - n / s * s
  {
    assert n == n / s * s + n % s;
  }

  /** Truncation leaves a remainder with the sign of the dividend. */
  lemma TruncDivRemainder(t: int, s: int)
    requires s > 0
    ensures -s < t - TruncDiv(t, s) * s < s
    ensures t - TruncDiv(t, s) * s >= 0 <==> t >= 0 || t % s == 0
    ensures t >= 0 ==> 0 <= TruncDiv(t, s) * s <= t
    ensures t < 0 ==> t <= TruncDiv(t, s) * s <= 0
  {
    if t >= 0 {
      QuotientOf(t, s);
      assert TruncDiv(t, s) == t / s;
    } else {
      QuotientOf(-t, s);
      NegatedRemainder(t, s);
      NegatedProduct(-t / s, s);
      assert TruncDiv(t, s) == -(-t / s);
    }
  }

  lemma NegatedProduct(q: int, s: int)
    ensures -q * s == -(q * s)
  {
  }

  lemma NegatedRemainder(t: int, s: int)
    requires s > 0
    ensures (-t) % s == 0 <==> t % s == 0
  {
    var q, r := t / s, (-t) / s;
    assert t == q * s + t % s && -t == r * s + (-t) % s;
    assert (q + r) * s == -(t % s) - (-t) % s;
    MultipleOf(q + r, s);
  }

  /** Taking off one divisor takes one off the quotient. */
  lemma QuotientStep(n: nat, s: int)
    requires s > 0
    ensures n < s ==> n / s == 0
    ensures n >= s ==> n / s == (n - s) / s + 1
  {
    if n >= s {
      var q := (n - s) / s;
      QuotientOf(n, s);
      QuotientOf(n - s, s);
      assert (q + 1) * s == q * s + s;
      SameQuotient(n, s, n / s, q + 1);
    } else {
      QuotientOf(n, s);
      SameQuotient(n, s, n / s, 0);
    }
  }

  lemma SameQuotient(n: int, s: int, q: int, r: int)
    requires s > 0 && q * s <= n < q * s + s && r * s <= n < r * s + s
    ensures q == r
  {
    MultipleOf(q - r, s);
    assert s * (q - r) == q * s - r * s;
  }

  /** The conversion to int32 adds a multiple of 2^32. */
  lemma Int32Shift(x: int) returns (k: int)
    ensures Int32(x) == x + k * TWO_32
  {
    k := 0;
    if !(-0x8000_0000 <= x < 0x8000_0000) {
      var w := Wrap(x, TWO_32);
      WrapIsModulo(x, TWO_32);
      k := -(x / TWO_32);
      if w >= TWO_32 / 2 {
        k := k - 1;
      }
    }
  }

  /** Numbers that differ by a multiple of 2^32 convert to the same int32. */
  lemma Int32Congruent(x: int, y: int, k: int)
    requires y == x + k * TWO_32
    ensures Int32(x) == Int32(y)
  {
    var i := Int32Shift(x);
    var j := Int32Shift(y);
    MultipleOf(i - j - k, TWO_32);
  }

  /** Wrapping intermediate results does not show in a wrapped sum, difference or product. */
  lemma Int32Ring(x: int, y: int)
    ensures Int32(Int32(x) + Int32(y)) == Int32(x + y)
    ensures Int32(Int32(x) - Int32(y)) == Int32(x - y)
    ensures Int32(Int32(x) * y) == Int32(x * y)
  {
    var i := Int32Shift(x);
    var j := Int32Shift(y);
    Int32Congruent(x + y, Int32(x) + Int32(y), i + j);
    Int32Congruent(x - y, Int32(x) - Int32(y), i - j);
    Int32Product(x, y, i);
  }

  lemma Int32Product(x: int, y: int, i: int)
    requires Int32(x) == x + i * TWO_32
    ensures Int32(Int32(x) * y) == Int32(x * y)
  {
    assert Int32(x) * y == x * y + i * y * TWO_32 by {
      assert (x + i * TWO_32) * y == x * y + i * TWO_32 * y;
      assert i * TWO_32 * y == i * y * TWO_32;
    }
    Int32Congruent(x * y, Int32(x) * y, i * y);
  }
}
