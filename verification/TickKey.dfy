/** Byte keys of the store (tick_key.go): big-endian integers, sign flip, and their lexicographic order. */
module TickKey {
  import opened Ints

  type Bytes = seq<byte>
  type Address = a: Bytes | |a| == 20 witness seq(20, i => 0)

  const MIN_TICK: int32 := -887272
  const MAX_TICK: int32 := 887272

  // ---------- big-endian integers ----------

  function Pow256(len: nat): nat {
    if len == 0 then 1 else 256 * Pow256(len - 1)
  }

  lemma Pow256Values()
    ensures Pow256(4) == TWO_32 && Pow256(8) == TWO_64
  {
    assert Pow256(3) == 0x100_0000;
    assert Pow256(4) == 0x1_0000_0000;
    assert Pow256(6) == 0x1_0000_0000_0000;
  }

  /** `n` in `len` big-endian bytes, dropping what does not fit. */
  function BigEndian(n: nat, len: nat): (b: Bytes)
    ensures |b| == len
  {
    if len == 0 then [] else BigEndian(n / 256, len - 1) + [n % 256]
  }

  function FromBigEndian(b: Bytes): nat {
    if b == [] then 0 else FromBigEndian(b[..|b| - 1]) * 256 + b[|b| - 1]
  }

  lemma {:induction false} BigEndianRoundTrip(n: nat, len: nat)
    requires n < Pow256(len)
    ensures FromBigEndian(BigEndian(n, len)) == n
  {
    if len > 0 {
      BigEndianRoundTrip(n / 256, len - 1);
      assert BigEndian(n, len)[..len - 1] == BigEndian(n / 256, len - 1);
    }
  }

  lemma {:induction false} FromBigEndianRoundTrip(b: Bytes)
    ensures FromBigEndian(b) < Pow256(|b|)
    ensures BigEndian(FromBigEndian(b), |b|) == b
  {
    if b != [] {
      FromBigEndianRoundTrip(b[..|b| - 1]);
      assert b == b[..|b| - 1] + [b[|b| - 1]];
    }
  }

  // ---------- lexicographic order: Go's comparison of byte strings ----------

  predicate LexLe(a: Bytes, b: Bytes) {
    a == [] || (b != [] && (a[0] < b[0] || (a[0] == b[0] && LexLe(a[1..], b[1..]))))
  }

  predicate LexLt(a: Bytes, b: Bytes) {
    LexLe(a, b) && a != b
  }

  lemma {:induction false} LexTotal(a: Bytes, b: Bytes)
    ensures LexLe(a, b) || LexLe(b, a)
    ensures LexLe(a, b) && LexLe(b, a) <==> a == b
  {
    if a != [] && b != [] {
      assert a == [a[0]] + a[1..] && b == [b[0]] + b[1..];
      LexTotal(a[1..], b[1..]);
    }
  }

  lemma {:induction false} LexTransitive(a: Bytes, b: Bytes, c: Bytes)
    requires LexLe(a, b) && LexLe(b, c)
    ensures LexLe(a, c)
  {
    if a != [] && a[0] == b[0] == c[0] {
      LexTransitive(a[1..], b[1..], c[1..]);
    }
  }

  /** Equal prefixes do not matter. */
  lemma {:induction false} LexPrefix(p: Bytes, a: Bytes, b: Bytes)
    ensures LexLe(p + a, p + b) <==> LexLe(a, b)
  {
    if p == [] {
      assert p + a == a && p + b == b;
    } else {
      assert (p + a)[1..] == p[1..] + a && (p + b)[1..] == p[1..] + b;
      LexPrefix(p[1..], a, b);
    }
  }

  /** Two blocks of equal length decide the order; what follows only breaks ties. */
  lemma {:induction false} LexBlocks(a: Bytes, b: Bytes, x: Bytes, y: Bytes)
    requires |a| == |b|
    ensures LexLe(a + x, b + y) <==> LexLt(a, b) || (a == b && LexLe(x, y))
  {
    if a == [] {
      assert a + x == x && b + y == y;
    } else {
      assert (a + x)[1..] == a[1..] + x && (b + y)[1..] == b[1..] + y;
      assert a == [a[0]] + a[1..] && b == [b[0]] + b[1..];
      LexBlocks(a[1..], b[1..], x, y);
    }
  }

  /** A string between two strings with a common prefix has that prefix, whatever its length. */
  lemma {:induction false} LexSandwich(p: Bytes, x: Bytes, k: Bytes, y: Bytes)
    requires LexLe(p + x, k) && LexLe(k, p + y)
    ensures p <= k && LexLe(x, k[|p|..]) && LexLe(k[|p|..], y)
  {
    if p == [] {
      assert p + x == x && p + y == y && k[0..] == k;
    } else {
      assert (p + x)[1..] == p[1..] + x && (p + y)[1..] == p[1..] + y;
      LexSandwich(p[1..], x, k[1..], y);
      assert k[1..][|p| - 1..] == k[|p|..];
      assert p == [p[0]] + p[1..] && k == [k[0]] + k[1..];
    }
  }

  lemma LastDigitOrder(n: nat, m: nat)
    ensures n <= m <==> n / 256 < m / 256 || (n / 256 == m / 256 && n % 256 <= m % 256)
  {
  }

  /** Big-endian bytes of one length sort as the numbers do. */
  lemma {:induction false} BigEndianOrder(n: nat, m: nat, len: nat)
    requires n < Pow256(len) && m < Pow256(len)
    ensures LexLe(BigEndian(n, len), BigEndian(m, len)) <==> n <= m
  {
    if len > 0 {
      BigEndianOrder(n / 256, m / 256, len - 1);
      BigEndianRoundTrip(n / 256, len - 1);
      BigEndianRoundTrip(m / 256, len - 1);
      LexBlocks(BigEndian(n / 256, len - 1), BigEndian(m / 256, len - 1), [n % 256], [m % 256]);
      LastDigitOrder(n, m);
    }
  }

  // ---------- tick keys ----------

  /** PutUint32(uint32(n) + 0x80000000): adding 2^31 modulo 2^32 flips the sign bit. */
  function Int32ToOrderedBytes(n: int32): Bytes {
    BigEndian((n % TWO_32 + 0x8000_0000) % TWO_32, 4)
  }

  function OrderedBytesToInt32(b: Bytes): int32 {
    if |b| != 4 then 0 else Int32(FromBigEndian(b) - 0x8000_0000)
  }

  /** On int32 values the wrapped sum is the plain one, and Int32 undoes the flip. */
  lemma SignFlip(n: int32)
    ensures (n % TWO_32 + 0x8000_0000) % TWO_32 == n + 0x8000_0000 < Pow256(4)
    ensures Int32(n) == n
  {
    Pow256Values();
  }

  lemma OrderedBytesRoundTrip(n: int32)
    ensures OrderedBytesToInt32(Int32ToOrderedBytes(n)) == n
  {
    SignFlip(n);
    BigEndianRoundTrip(n + 0x8000_0000, 4);
  }

  lemma OrderedBytesOnto(b: Bytes)
    requires |b| == 4
    ensures Int32ToOrderedBytes(OrderedBytesToInt32(b)) == b
  {
    Pow256Values();
    FromBigEndianRoundTrip(b);
    SignFlip(FromBigEndian(b) - 0x8000_0000);
  }

  /** The sign flip makes byte order agree with signed order: negative ticks first. */
  lemma OrderedBytesOrder(n: int32, m: int32)
    ensures LexLe(Int32ToOrderedBytes(n), Int32ToOrderedBytes(m)) <==> n <= m
  {
    SignFlip(n);
    SignFlip(m);
    BigEndianOrder(n + 0x8000_0000, m + 0x8000_0000, 4);
  }

  const PREFIX_TICK_STATE: Bytes := [50, 58]  // "2:"

  function TickPrefix(addr: Address): Bytes {
    PREFIX_TICK_STATE + addr
  }

  function TickStateKey(addr: Address, tick: int32): Bytes {
    TickPrefix(addr) + Int32ToOrderedBytes(tick)
  }

  function KeyAddress(k: Bytes): Address
    requires |k| == 26
  {
    k[2..22]
  }

  function KeyTick(k: Bytes): int32
    requires |k| == 26
  {
    OrderedBytesToInt32(k[22..26])
  }

  lemma TickStateKeyRoundTrip(addr: Address, tick: int32)
    ensures var k := TickStateKey(addr, tick);
            |k| == 26 && KeyAddress(k) == addr && KeyTick(k) == tick
  {
    var k := TickStateKey(addr, tick);
    assert k[2..22] == addr && k[22..26] == Int32ToOrderedBytes(tick);
    OrderedBytesRoundTrip(tick);
  }

  /** Scanning keys in byte order visits (address, tick) pairs in their own order. */
  lemma TickStateKeyOrder(a: Address, t: int32, b: Address, u: int32)
    ensures LexLe(TickStateKey(a, t), TickStateKey(b, u)) <==> LexLt(a, b) || (a == b && t <= u)
  {
    var x, y := Int32ToOrderedBytes(t), Int32ToOrderedBytes(u);
    assert TickStateKey(a, t) == PREFIX_TICK_STATE + (a + x);
    assert TickStateKey(b, u) == PREFIX_TICK_STATE + (b + y);
    LexPrefix(PREFIX_TICK_STATE, a + x, b + y);
    LexBlocks(a, b, x, y);
    OrderedBytesOrder(t, u);
  }

  lemma KeyWithPrefix(addr: Address, k: Bytes)
    requires |k| == 26 && TickPrefix(addr) <= k
    ensures k == TickStateKey(addr, KeyTick(k))
  {
    var p := TickPrefix(addr);
    OrderedBytesOnto(k[22..26]);
    assert k == p + k[22..26];
  }

  /** Any 26-byte key inside a pool's scan bounds is that pool's key for a tick inside the bounds. */
  lemma TickScanBounds(addr: Address, lo: int32, hi: int32, k: Bytes)
    requires LexLe(TickStateKey(addr, lo), k) && LexLe(k, TickStateKey(addr, hi))
    ensures TickPrefix(addr) <= k
    ensures |k| == 26 ==> k == TickStateKey(addr, KeyTick(k)) && lo <= KeyTick(k) <= hi
  {
    LexSandwich(TickPrefix(addr), Int32ToOrderedBytes(lo), k, Int32ToOrderedBytes(hi));
    if |k| == 26 {
      KeyWithPrefix(addr, k);
      TickStateKeyOrder(addr, lo, addr, KeyTick(k));
      TickStateKeyOrder(addr, KeyTick(k), addr, hi);
    }
  }

  /** copy(dst[at..], src): writes `src` into `dst` from index `at`. */
  method CopyInto(dst: array<byte>, at: nat, src: Bytes)
    requires at + |src| <= dst.Length
    modifies dst
    ensures dst[..] == old(dst[..at]) + src + old(dst[at + |src|..])
  {
    for i := 0 to |src|
      invariant forall k :: 0 <= k < i ==> dst[at + k] == src[k]
      invariant forall k :: 0 <= k < dst.Length && !(at <= k < at + i) ==> dst[k] == old(dst[k])
    {
      dst[at + i] := src[i];
    }
    assert dst[..] == dst[..at] + dst[at..at + |src|] + dst[at + |src|..];
    assert dst[at..at + |src|] == src;
  }

  /** The 26-byte buffer, filled piece by piece. */
  method GetTickStateKey(addr: Address, tick: int32) returns (key: Bytes)
    ensures key == TickStateKey(addr, tick)
  {
    var buf := new byte[26](i => 0);
    CopyInto(buf, 0, PREFIX_TICK_STATE);
    CopyInto(buf, 2, addr);
    CopyInto(buf, 22, Int32ToOrderedBytes(tick));
    key := buf[..];
  }
}
