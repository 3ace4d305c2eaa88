/** Scanning the tick bitmap of a pool (UniswapV3Lens.sol, section 6.2.4 of the Uniswap v3 Core whitepaper). */
module Lens {
  import opened Ints
  import opened Types

  const MIN_TICK: int := -887272
  const MAX_TICK: int := 887272

  /** A 256-bit word, as the set of its set bits; a word never written is empty. */
  type Word = set<int>

  datatype Pool = Pool(spacing: int, words: map<int, Word>, gross: int -> int, net: int -> int)

  datatype Tick = Tick(index: int, gross: int, net: int)

  const NO_TICK: Tick := Tick(0, 0, 0)

  function WordAt(p: Pool, word: int): Word {
    if word in p.words then p.words[word] else {}
  }

  /** The bit of a compressed tick (a tick divided by the spacing). */
  predicate Flagged(p: Pool, c: int) {
    c % 256 in WordAt(p, c / 256)
  }

  /** Bits are set only for multiples of the spacing inside the tick range, and only in the 256 places of a word. */
  ghost predicate WellFormed(p: Pool) {
    && 0 < p.spacing < 0x80_0000
    && (forall word, bit {:trigger BitOk(p, word, bit)} :: bit in WordAt(p, word) ==> BitOk(p, word, bit))
  }

  predicate BitOk(p: Pool, word: int, bit: int) {
    0 <= bit < 256 && MIN_TICK <= (word * 256 + bit) * p.spacing <= MAX_TICK
  }

  /** A tick that the pool has initialized. */
  predicate Initialized(p: Pool, t: int)
    requires p.spacing > 0
  {
    t % p.spacing == 0 && Flagged(p, t / p.spacing)
  }

  function TickAt(p: Pool, c: int): Tick {
    Tick(c * p.spacing, p.gross(c * p.spacing), p.net(c * p.spacing))
  }

  /** The flagged ticks with compressed index in [lo, hi), ascending. */
  function Ticks(p: Pool, lo: int, hi: int): seq<Tick>
    decreases hi - lo
  {
    if hi <= lo then []
    else if Flagged(p, hi - 1) then Ticks(p, lo, hi - 1) + [TickAt(p, hi - 1)]
    else Ticks(p, lo, hi - 1)
  }

  lemma {:induction false} TicksConcat(p: Pool, lo: int, mid: int, hi: int)
    requires lo <= mid <= hi
    ensures Ticks(p, lo, hi) == Ticks(p, lo, mid) + Ticks(p, mid, hi)
    decreases hi - mid
  {
    if mid < hi {
      TicksConcat(p, lo, mid, hi - 1);
    } else {
      assert Ticks(p, mid, hi) == [];
    }
  }

  lemma TicksPrefix(p: Pool, lo: int, mid: int, hi: int)
    requires lo <= mid <= hi
    ensures |Ticks(p, lo, mid)| <= |Ticks(p, lo, hi)|
    ensures forall n :: 0 <= n <= |Ticks(p, lo, mid)| ==> Ticks(p, lo, hi)[..n] == Ticks(p, lo, mid)[..n]
  {
    TicksConcat(p, lo, mid, hi);
  }

  lemma {:induction false} NoTicks(p: Pool, lo: int, hi: int)
    requires forall c :: lo <= c < hi ==> !Flagged(p, c)
    ensures Ticks(p, lo, hi) == []
    decreases hi - lo
  {
    if lo < hi {
      NoTicks(p, lo, hi - 1);
    }
  }

  lemma BitOfWord(p: Pool, word: int, bit: int)
    requires 0 <= bit < 256
    ensures Flagged(p, word * 256 + bit) <==> bit in WordAt(p, word)
  {
    assert (word * 256 + bit) / 256 == word && (word * 256 + bit) % 256 == bit;
  }

  lemma EmptyWord(p: Pool, word: int, from: int)
    requires WordAt(p, word) == {} && 0 <= from
    ensures Ticks(p, word * 256 + from, word * 256 + 256) == []
  {
    forall c | word * 256 + from <= c < word * 256 + 256 ensures !Flagged(p, c) {
      BitOfWord(p, word, c - word * 256);
    }
    NoTicks(p, word * 256 + from, word * 256 + 256);
  }

  // ---------- machine arithmetic ----------

  /** int16(x). */
  function Int16(x: int): int {
    Signed(Wrap(x, 0x1_0000), 0x1_0000)
  }

  /** int24(x). */
  function ToInt24(x: int): int {
    Signed(Wrap(x, 0x100_0000), 0x100_0000)
  }

  /** x >> 8 on a signed value: division by 256 rounding down. */
  function ShiftRight8(x: int): int {
    x / 256
  }

  /** x % 256 with the sign of x, as Solidity's remainder has. */
  function Rem256(x: int): int {
    if x >= 0 then x % 256 else -(-x % 256)
  }

  /** The remainder belongs to the division that rounds toward zero. */
  lemma Rem256OfTruncation(x: int)
    ensures x == TruncDiv(x, 256) * 256 + Rem256(x)
  {
  }

  /** uint8(uint24(x % 256)). */
  function BitStart(x: int): int {
    Wrap(Wrap(Rem256(x), 0x100_0000), 256)
  }

  /** The two conversions turn Solidity's remainder into the remainder of rounding down. */
  lemma BitStartIsFloorMod(x: int)
    ensures BitStart(x) == x % 256
  {
    var r := Rem256(x);
    WrapNear(r, 0x100_0000);
    WrapIsModulo(Wrap(r, 0x100_0000), 256);
    if x < 0 {
      var q, m := -x / 256, -x % 256;
      assert -x == 256 * q + m;
    }
  }

  /** The first and one past the last compressed index that the word loop of a full scan visits. */
  function ScanLo(spacing: int): int
    requires spacing > 0
  {
    Int16(ShiftRight8(TruncDiv(MIN_TICK, spacing))) * 256
  }

  function ScanHi(spacing: int): int
    requires spacing > 0
  {
    (Int16(ShiftRight8(TruncDiv(MAX_TICK, spacing))) + 1) * 256
  }

  lemma DivBetween(n: nat, s: int)
    requires s > 0
    ensures 0 <= n / s <= n && n / s * s <= n < n / s * s + s
  {
    assert n == n / s * s + n % s;
    MulGrows(n / s, s - 1);
    assert n / s * s == n / s + (s - 1) * (n / s);
  }

  /** The word bounds fit in int16 and miss no compressed tick of the range. */
  lemma WordBounds(spacing: int)
    requires spacing > 0
    ensures ScanLo(spacing) == ShiftRight8(TruncDiv(MIN_TICK, spacing)) * 256 <= TruncDiv(MIN_TICK, spacing)
    ensures TruncDiv(MAX_TICK, spacing) < ScanHi(spacing)
    ensures -0x8000 <= ShiftRight8(TruncDiv(MIN_TICK, spacing)) <= ShiftRight8(TruncDiv(MAX_TICK, spacing)) < 0x8000
  {
    DivBetween(MAX_TICK, spacing);
    var q := MAX_TICK / spacing;
    assert TruncDiv(MAX_TICK, spacing) == q && TruncDiv(MIN_TICK, spacing) == -q;
    WrapNear(q / 256, 0x1_0000);
    WrapNear(-q / 256, 0x1_0000);
  }

  lemma ScaleOrder(c: int, d: int, s: int)
    requires s > 0
    ensures c <= d <==> c * s <= d * s
  {
    MultipleOf(d - c, s);
    assert s * (d - c) == d * s - c * s;
  }

  /** Compressed indices of in-range ticks lie between the truncated quotients of the bounds. */
  lemma CompressedBounds(spacing: int, c: int)
    requires spacing > 0
    ensures MIN_TICK <= c * spacing <= MAX_TICK <==> TruncDiv(MIN_TICK, spacing) <= c <= TruncDiv(MAX_TICK, spacing)
  {
    DivBetween(MAX_TICK, spacing);
    var q := MAX_TICK / spacing;
    assert TruncDiv(MAX_TICK, spacing) == q && TruncDiv(MIN_TICK, spacing) == -q;
    ScaleOrder(c, q, spacing);
    ScaleOrder(-q, c, spacing);
    ScaleOrder(q + 1, c, spacing);
    ScaleOrder(c, -q - 1, spacing);
    assert (q + 1) * spacing == q * spacing + spacing && (-q - 1) * spacing == -(q * spacing) - spacing;
    assert -q * spacing == -(q * spacing);
  }

  lemma FlaggedInBounds(p: Pool, c: int)
    requires WellFormed(p) && Flagged(p, c)
    ensures TruncDiv(MIN_TICK, p.spacing) <= c <= TruncDiv(MAX_TICK, p.spacing)
    ensures MIN_TICK <= c * p.spacing <= MAX_TICK
  {
    assert BitOk(p, c / 256, c % 256);
    assert c / 256 * 256 + c % 256 == c;
    CompressedBounds(p.spacing, c);
  }

  /** The compressed index computed from a word and a bit is not truncated, and its product with the spacing fits
      int24. */
  lemma TickFits(p: Pool, word: int, bit: int)
    requires WellFormed(p) && bit in WordAt(p, word)
    ensures ToInt24(word * 256 + bit) == word * 256 + bit
    ensures -0x80_0000 <= (word * 256 + bit) * p.spacing < 0x80_0000
  {
    assert BitOk(p, word, bit);
    BitOfWord(p, word, bit);
    FlaggedInBounds(p, word * 256 + bit);
    WordBounds(p.spacing);
    WrapNear(word * 256 + bit, 0x100_0000);
  }

  // ---------- getAllTicks ----------

  /** First pass: the number of set bits in the words from minWord to maxWord. */
  method CountTicks(p: Pool, minWord: int, maxWord: int) returns (numTicks: nat)
    requires WellFormed(p) && minWord <= maxWord + 1
    ensures numTicks == |Ticks(p, minWord * 256, (maxWord + 1) * 256)|
  {
    numTicks := 0;
    var word := minWord;
    while word <= maxWord
      invariant minWord <= word <= maxWord + 1
      invariant numTicks == |Ticks(p, minWord * 256, word * 256)|
    {
      var bitmap := WordAt(p, word);
      if bitmap == {} {
        EmptyWord(p, word, 0);
        TicksConcat(p, minWord * 256, word * 256, word * 256 + 256);
      } else {
        var bit := 0;
        while bit < 256
          invariant 0 <= bit <= 256
          invariant numTicks == |Ticks(p, minWord * 256, word * 256 + bit)|
        {
          BitOfWord(p, word, bit);
          if bit in bitmap {
            numTicks := numTicks + 1;
          }
          bit := bit + 1;
        }
      }
      word := word + 1;
    }
  }

  method GetAllTicks(p: Pool) returns (ticks: array<Tick>)
    requires WellFormed(p)
    ensures ticks[..] == Ticks(p, ScanLo(p.spacing), ScanHi(p.spacing))
  {
    var minWord := Int16(ShiftRight8(TruncDiv(MIN_TICK, p.spacing)));
    var maxWord := Int16(ShiftRight8(TruncDiv(MAX_TICK, p.spacing)));
    WordBounds(p.spacing);
    var numTicks := CountTicks(p, minWord, maxWord);
    ticks := new Tick[numTicks](i => NO_TICK);
    var idx: nat := 0;
    var word := minWord;
    while word <= maxWord
      invariant minWord <= word <= maxWord + 1
      invariant idx <= numTicks && ticks[..idx] == Ticks(p, minWord * 256, word * 256)
    {
      idx := FillWord(p, minWord, maxWord, word, ticks, idx);
      word := word + 1;
    }
  }

  /** One word of the second pass. */
  method FillWord(p: Pool, minWord: int, maxWord: int, word: int, ticks: array<Tick>, idx: nat) returns (next: nat)
    requires WellFormed(p) && minWord <= word <= maxWord
    requires ticks.Length == |Ticks(p, minWord * 256, (maxWord + 1) * 256)|
    requires idx <= ticks.Length && ticks[..idx] == Ticks(p, minWord * 256, word * 256)
    modifies ticks
    ensures next <= ticks.Length && ticks[..next] == Ticks(p, minWord * 256, word * 256 + 256)
  {
    next := idx;
    if WordAt(p, word) == {} {
      EmptyWord(p, word, 0);
      TicksConcat(p, minWord * 256, word * 256, word * 256 + 256);
      return;
    }
    var bit := 0;
    while bit < 256
      invariant 0 <= bit <= 256
      invariant next <= ticks.Length && ticks[..next] == Ticks(p, minWord * 256, word * 256 + bit)
    {
      BitOfWord(p, word, bit);
      if bit in WordAt(p, word) {
        RoomLeft(p, minWord * 256, word * 256 + bit, (maxWord + 1) * 256);
        TickFits(p, word, bit);
        var c := ToInt24(word * 256 + bit);
        ticks[next] := TickAt(p, c);
        next := next + 1;
      }
      bit := bit + 1;
    }
  }

  /** Before the last flagged tick is written, the array is not full. */
  lemma RoomLeft(p: Pool, lo: int, c: int, hi: int)
    requires lo <= c < hi && Flagged(p, c)
    ensures |Ticks(p, lo, c)| < |Ticks(p, lo, hi)|
  {
    TicksConcat(p, lo, c + 1, hi);
  }

  lemma {:induction false} FlaggedIndex(p: Pool, lo: int, hi: int, i: nat) returns (c: int)
    requires i < |Ticks(p, lo, hi)|
    ensures lo <= c < hi && Flagged(p, c) && Ticks(p, lo, hi)[i] == TickAt(p, c)
    decreases hi - lo
  {
    if Flagged(p, hi - 1) && i == |Ticks(p, lo, hi - 1)| {
      c := hi - 1;
    } else {
      c := FlaggedIndex(p, lo, hi - 1, i);
    }
  }

  lemma {:induction false} IndexOf(p: Pool, lo: int, hi: int, c: int) returns (i: nat)
    requires lo <= c < hi && Flagged(p, c)
    ensures i < |Ticks(p, lo, hi)| && Ticks(p, lo, hi)[i] == TickAt(p, c)
    decreases hi - lo
  {
    if c == hi - 1 {
      i := |Ticks(p, lo, hi - 1)|;
    } else {
      i := IndexOf(p, lo, hi - 1, c);
    }
  }

  predicate Ascend(ts: seq<Tick>) {
    forall i, j :: 0 <= i < j < |ts| ==> ts[i].index < ts[j].index
  }

  lemma {:induction false} TicksAscend(p: Pool, lo: int, hi: int)
    requires p.spacing > 0
    ensures Ascend(Ticks(p, lo, hi))
    ensures forall i :: 0 <= i < |Ticks(p, lo, hi)| ==> Ticks(p, lo, hi)[i].index < hi * p.spacing
    decreases hi - lo
  {
    if lo < hi {
      TicksAscend(p, lo, hi - 1);
      assert (hi - 1) * p.spacing + p.spacing == hi * p.spacing;
    }
  }

  function FullScan(p: Pool): seq<Tick>
    requires p.spacing > 0
  {
    Ticks(p, ScanLo(p.spacing), ScanHi(p.spacing))
  }

  lemma MultipleQuotient(c: int, s: int)
    requires s > 0
    ensures (c * s) % s == 0 && c * s / s == c
  {
    QuotientUnique(c * s, s, c, 0);
    assert c * s == c * s / s * s + (c * s) % s;
    MultipleOf(c * s / s - c, s);
  }

  /** An initialized tick with compressed index from `lo` on is listed. */
  lemma InitializedIsListed(p: Pool, lo: int, t: int)
    requires WellFormed(p) && Initialized(p, t) && lo <= t / p.spacing
    ensures Tick(t, p.gross(t), p.net(t)) in Ticks(p, lo, ScanHi(p.spacing))
  {
    var c := t / p.spacing;
    assert c * p.spacing == t;
    FlaggedInBounds(p, c);
    WordBounds(p.spacing);
    var i := IndexOf(p, lo, ScanHi(p.spacing), c);
    assert Ticks(p, lo, ScanHi(p.spacing))[i] == Tick(t, p.gross(t), p.net(t));
  }

  lemma InitializedIsScanned(p: Pool, t: int)
    requires WellFormed(p) && Initialized(p, t)
    ensures Tick(t, p.gross(t), p.net(t)) in FullScan(p)
  {
    FlaggedInBounds(p, t / p.spacing);
    WordBounds(p.spacing);
    InitializedIsListed(p, ScanLo(p.spacing), t);
  }

  /** What any scan lists is an initialized tick of the tick range. */
  lemma ListedIsInitialized(p: Pool, lo: int, hi: int, i: nat) returns (c: int)
    requires WellFormed(p) && i < |Ticks(p, lo, hi)|
    ensures var x := Ticks(p, lo, hi)[i];
            Initialized(p, x.index) && x == Tick(x.index, p.gross(x.index), p.net(x.index)) &&
                MIN_TICK <= x.index <= MAX_TICK
    ensures lo <= c < hi && Ticks(p, lo, hi)[i].index == c * p.spacing
  {
    c := FlaggedIndex(p, lo, hi, i);
    MultipleQuotient(c, p.spacing);
    FlaggedInBounds(p, c);
  }

  /** A full scan lists exactly the initialized ticks, strictly ascending, with the pool's liquidity at each. */
  lemma FullScanExact(p: Pool)
    requires WellFormed(p)
    ensures Ascend(FullScan(p))
    ensures forall x :: x in FullScan(p) <==>
            Initialized(p, x.index) && x == Tick(x.index, p.gross(x.index), p.net(x.index))
  {
    TicksAscend(p, ScanLo(p.spacing), ScanHi(p.spacing));
    forall x ensures x in FullScan(p) <==>
        Initialized(p, x.index) && x == Tick(x.index, p.gross(x.index), p.net(x.index)) {
      if x in FullScan(p) {
        var i :| 0 <= i < |FullScan(p)| && FullScan(p)[i] == x;
        var c := ListedIsInitialized(p, ScanLo(p.spacing), ScanHi(p.spacing), i);
      } else if Initialized(p, x.index) {
        InitializedIsScanned(p, x.index);
      }
    }
  }

  // ---------- getTicks ----------

  /** The flagged ticks from a start tick on, which is compressed by truncation. */
  function From(p: Pool, tickStart: int): seq<Tick>
    requires p.spacing > 0
  {
    Ticks(p, TruncDiv(tickStart, p.spacing), ScanHi(p.spacing))
  }

  function Zeros(n: nat): seq<Tick> {
    seq(n, i => NO_TICK)
  }

  /** A page: the first `n` of them, padded with zeros; None where the contract reverts, asked for no tick when there
      is one. */
  function Page(ts: seq<Tick>, n: nat): Option<seq<Tick>> {
    if n == 0 && ts != [] then None
    else if n <= |ts| then Some(ts[..n])
    else Some(ts + Zeros(n - |ts|))
  }

  /** A page has the asked number of slots: the first ticks of the list, then zeros. Asked for none, the contract
      reverts exactly if there is one. */
  lemma PageIs(ts: seq<Tick>, n: nat)
    ensures Page(ts, n).None? <==> n == 0 && ts != []
    ensures Page(ts, n).Some? ==>
              && |Page(ts, n).value| == n
              && forall i :: 0 <= i < n ==> Page(ts, n).value[i] == if i < |ts| then ts[i] else Tick(0, 0, 0)
  {
  }

  lemma NextBit(p: Pool, lo: int, c: int)
    requires lo <= c
    ensures Ticks(p, lo, c + 1) == if Flagged(p, c) then Ticks(p, lo, c) + [TickAt(p, c)] else Ticks(p, lo, c)
  {
  }

  method WriteTick(ticks: array<Tick>, idx: nat, x: Tick)
    requires idx < ticks.Length
    modifies ticks
    ensures ticks[..idx + 1] == old(ticks[..idx]) + [x] && ticks[idx + 1..] == old(ticks[idx + 1..])
  {
    ticks[idx] := x;
  }

  /** The slots from `idx` on are still empty. */
  ghost predicate EmptyFrom(ticks: seq<Tick>, idx: nat) {
    forall k :: idx <= k < |ticks| ==> ticks[k] == NO_TICK
  }

  /** Room for another tick, or no slot at all. */
  predicate HasRoom(idx: nat, length: nat) {
    idx < length || (idx == 0 && length == 0)
  }

  lemma StaysEmpty(before: seq<Tick>, after: seq<Tick>, idx: nat)
    requires |before| == |after| && idx < |before| && EmptyFrom(before, idx) && after[idx + 1..] == before[idx + 1..]
    ensures EmptyFrom(after, idx + 1)
  {
    forall k | idx + 1 <= k < |after| ensures after[k] == NO_TICK {
      assert after[k] == after[idx + 1..][k - idx - 1] == before[idx + 1..][k - idx - 1] == before[k];
    }
  }

  /** The array holds a full page of `part`. */
  ghost predicate FullPage(ticks: seq<Tick>, part: seq<Tick>) {
    part != [] && |ticks| <= |part| && ticks == part[..|ticks|]
  }

  lemma FullStays(p: Pool, lo: int, mid: int, hi: int, ticks: seq<Tick>)
    requires lo <= mid <= hi && FullPage(ticks, Ticks(p, lo, mid))
    ensures FullPage(ticks, Ticks(p, lo, hi))
  {
    TicksPrefix(p, lo, mid, hi);
  }

  /** One word of a page that is not empty: its flags from `bitStart` on, until the page is full. */
  method PageWord(p: Pool, ghost lo: int, word: int, bitStart: int, ticks: array<Tick>, idx: nat)
      returns (next: nat, full: bool)
    requires WellFormed(p) && 0 <= bitStart <= 256 && lo <= word * 256 + bitStart
    requires HasRoom(idx, ticks.Length) && EmptyFrom(ticks[..], idx)
    requires ticks[..idx] == Ticks(p, lo, word * 256 + bitStart)
    modifies ticks
    ensures full ==> FullPage(ticks[..], Ticks(p, lo, word * 256 + 256))
    ensures !full ==> HasRoom(next, ticks.Length) && EmptyFrom(ticks[..], next)
    ensures !full ==> ticks[..next] == Ticks(p, lo, word * 256 + 256)
  {
    next, full := idx, false;
    var bit := bitStart;
    while bit < 256
      invariant bitStart <= bit <= 256
      invariant HasRoom(next, ticks.Length) && EmptyFrom(ticks[..], next)
      invariant ticks[..next] == Ticks(p, lo, word * 256 + bit)
    {
      BitOfWord(p, word, bit);
      NextBit(p, lo, word * 256 + bit);
      if bit in WordAt(p, word) {
        next, full := PageBit(p, lo, word, bit, ticks, next);
        if full {
          FullStays(p, lo, word * 256 + bit + 1, word * 256 + 256, ticks[..]);
          return;
        }
      }
      bit := bit + 1;
    }
  }

  /** One set bit: its tick is written, unless there is no slot at all; the page is full when the last slot is. */
  method PageBit(p: Pool, ghost lo: int, word: int, bit: int, ticks: array<Tick>, idx: nat)
      returns (next: nat, full: bool)
    requires WellFormed(p) && bit in WordAt(p, word)
    requires HasRoom(idx, ticks.Length) && EmptyFrom(ticks[..], idx)
    requires Ticks(p, lo, word * 256 + bit + 1) == ticks[..idx] + [TickAt(p, word * 256 + bit)]
    modifies ticks
    ensures full <==> next >= ticks.Length
    ensures full ==> FullPage(ticks[..], Ticks(p, lo, word * 256 + bit + 1))
    ensures !full ==> HasRoom(next, ticks.Length) && EmptyFrom(ticks[..], next)
    ensures !full ==> ticks[..next] == Ticks(p, lo, word * 256 + bit + 1)
  {
    if ticks.Length == 0 {
      return idx, true;
    }
    TickFits(p, word, bit);
    ghost var before := ticks[..];
    WriteTick(ticks, idx, TickAt(p, ToInt24(word * 256 + bit)));
    next := idx + 1;
    full := next >= ticks.Length;
    if full {
      assert ticks[..] == ticks[..next];
    } else {
      StaysEmpty(before, ticks[..], idx);
    }
  }

  /** A page that is full before the scan ends is a page of the whole scan. */
  lemma PageFromPart(p: Pool, lo: int, mid: int, hi: int, ticks: seq<Tick>)
    requires lo <= mid <= hi && FullPage(ticks, Ticks(p, lo, mid))
    ensures Page(Ticks(p, lo, hi), |ticks|) == if ticks == [] then None else Some(ticks)
  {
    TicksPrefix(p, lo, mid, hi);
  }

  method GetTicks(p: Pool, tickStart: int24, numTicks: nat) returns (r: Option<seq<Tick>>)
    requires WellFormed(p)
    ensures r == Page(From(p, tickStart), numTicks)
  {
    var maxWord := Int16(ShiftRight8(TruncDiv(MAX_TICK, p.spacing)));
    var start := TruncDiv(tickStart, p.spacing);
    var wordStart := Int16(ShiftRight8(start));
    var bitStart := BitStart(start);
    BitStartIsFloorMod(start);
    StartFits(tickStart, p.spacing);
    r := GetPage(p, start, wordStart, bitStart, maxWord, numTicks);
  }

  /** A page that the scan did not fill. */
  lemma PaddedPage(ticks: seq<Tick>, idx: nat, part: seq<Tick>)
    requires HasRoom(idx, |ticks|) && EmptyFrom(ticks, idx) && ticks[..idx] == part
    ensures Page(part, |ticks|) == Some(ticks)
  {
    assert ticks == ticks[..idx] + Zeros(|ticks| - idx);
  }

  /** The loop over the words of a page. */
  method GetPage(p: Pool, ghost start: int, wordStart: int, bitStart: int, maxWord: int, numTicks: nat)
    returns (r: Option<seq<Tick>>)
    requires WellFormed(p) && start == wordStart * 256 + bitStart && 0 <= bitStart < 256
    ensures r == Page(Ticks(p, start, (maxWord + 1) * 256), numTicks)
  {
    var ticks := new Tick[numTicks](i => NO_TICK);
    var idx: nat := 0;
    var word, bit := wordStart, bitStart;
    while word <= maxWord
      invariant 0 <= bit < 256 && start <= word * 256 + bit
      invariant word > maxWord ==> (word == maxWord + 1 && bit == 0) || word * 256 + bit == start
      invariant HasRoom(idx, numTicks) && EmptyFrom(ticks[..], idx)
      invariant ticks[..idx] == Ticks(p, start, word * 256 + bit)
    {
      if WordAt(p, word) == {} {
        EmptyWord(p, word, bit);
        TicksConcat(p, start, word * 256 + bit, word * 256 + 256);
      } else {
        var full;
        idx, full := PageWord(p, start, word, bit, ticks, idx);
        if full {
          PageFromPart(p, start, word * 256 + 256, (maxWord + 1) * 256, ticks[..]);
          return if numTicks == 0 then None else Some(ticks[..]);
        }
      }
      word, bit := word + 1, 0;
    }
    PaddedPage(ticks[..], idx, Ticks(p, start, (maxWord + 1) * 256));
    r := Some(ticks[..]);
  }

  /** The compressed start of any int24 tick lies in an int16 word. */
  lemma StartFits(t: int, s: int)
    requires s > 0 && -0x80_0000 <= t < 0x80_0000
    ensures Int16(ShiftRight8(TruncDiv(t, s))) == TruncDiv(t, s) / 256
  {
    if t >= 0 {
      DivBetween(t, s);
      assert TruncDiv(t, s) == t / s;
    } else {
      DivBetween(-t, s);
      assert TruncDiv(t, s) == -(-t / s);
    }
    WrapNear(TruncDiv(t, s) / 256, 0x1_0000);
  }

  /** Paging from the lowest tick gives the beginning of the full scan. */
  lemma PageFromMinTick(p: Pool)
    requires WellFormed(p)
    ensures From(p, MIN_TICK) == FullScan(p)
  {
    var lo, start := ScanLo(p.spacing), TruncDiv(MIN_TICK, p.spacing);
    WordBounds(p.spacing);
    CompressedBounds(p.spacing, start);
    forall c | lo <= c < start ensures !Flagged(p, c) {
      if Flagged(p, c) {
        FlaggedInBounds(p, c);
      }
    }
    NoTicks(p, lo, start);
    TicksConcat(p, lo, start, ScanHi(p.spacing));
  }

  /** Where a page starts: the start tick rounded toward zero to a multiple of the spacing. */
  function PageStart(tickStart: int, spacing: int): int
    requires spacing > 0
  {
    TruncDiv(tickStart, spacing) * spacing
  }

  /** A compressed index is at or after the compressed start iff its tick is at or after the start, or is the
      rounded start. */
  lemma StartOrder(c: int, t: int, s: int)
    requires s > 0
    ensures c >= TruncDiv(t, s) <==> c * s >= t || c * s == PageStart(t, s)
  {
    var c0 := TruncDiv(t, s);
    TruncDivRemainder(t, s);
    ScaleOrder(c, c0, s);
    ScaleOrder(c0, c, s);
    ScaleOrder(c0 + 1, c, s);
    ScaleOrder(c, c0 - 1, s);
    assert (c0 + 1) * s == c0 * s + s && (c0 - 1) * s == c0 * s - s;
  }

  lemma ListedFrom(p: Pool, tickStart: int, x: Tick)
    requires WellFormed(p) && x in From(p, tickStart)
    ensures Initialized(p, x.index) && x == Tick(x.index, p.gross(x.index), p.net(x.index))
    ensures x.index >= tickStart || x.index == PageStart(tickStart, p.spacing)
  {
    var i :| 0 <= i < |From(p, tickStart)| && From(p, tickStart)[i] == x;
    var c := ListedIsInitialized(p, TruncDiv(tickStart, p.spacing), ScanHi(p.spacing), i);
    StartOrder(c, tickStart, p.spacing);
  }

  lemma InFrom(p: Pool, tickStart: int, t: int)
    requires WellFormed(p) && Initialized(p, t) && (t >= tickStart || t == PageStart(tickStart, p.spacing))
    ensures Tick(t, p.gross(t), p.net(t)) in From(p, tickStart)
  {
    assert t / p.spacing * p.spacing == t;
    StartOrder(t / p.spacing, tickStart, p.spacing);
    InitializedIsListed(p, TruncDiv(tickStart, p.spacing), t);
  }

  /** From any start, what is paged is exactly the initialized ticks at or after it, and the rounded start if that is
      initialized, strictly ascending. */
  lemma FromExact(p: Pool, tickStart: int)
    requires WellFormed(p)
    ensures Ascend(From(p, tickStart))
    ensures forall x :: x in From(p, tickStart) <==>
                        && Initialized(p, x.index) && x == Tick(x.index, p.gross(x.index), p.net(x.index))
                        && (x.index >= tickStart || x.index == PageStart(tickStart, p.spacing))
  {
    TicksAscend(p, TruncDiv(tickStart, p.spacing), ScanHi(p.spacing));
    forall x
      ensures x in From(p, tickStart) <==>
              && Initialized(p, x.index) && x == Tick(x.index, p.gross(x.index), p.net(x.index))
              && (x.index >= tickStart || x.index == PageStart(tickStart, p.spacing))
    {
      if x in From(p, tickStart) {
        ListedFrom(p, tickStart, x);
      } else if Initialized(p, x.index) && (x.index >= tickStart || x.index == PageStart(tickStart, p.spacing)) {
        InFrom(p, tickStart, x.index);
      }
    }
  }

  /** Nothing below the start is paged exactly when rounding toward zero does not lower it to an initialized tick. */
  lemma NoneBelowStart(p: Pool, tickStart: int)
    requires WellFormed(p)
    ensures (forall x :: x in From(p, tickStart) ==> x.index >= tickStart) <==>
            PageStart(tickStart, p.spacing) >= tickStart || !Initialized(p, PageStart(tickStart, p.spacing))
  {
    FromExact(p, tickStart);
    var t := PageStart(tickStart, p.spacing);
    if Initialized(p, t) {
      assert Tick(t, p.gross(t), p.net(t)) in From(p, tickStart);
    }
  }

  /** Spacing 10, and tick 0 the only one initialized. */
  const ONE_TICK: Pool := Pool.Pool(10, map[0 := {0}], (t: int) => 0, (t: int) => 0)

  /** A page of that pool from 5 begins at 0. */
  lemma PageBelowStart()
    ensures WellFormed(ONE_TICK) && NO_TICK in From(ONE_TICK, 5)
  {
    assert Flagged(ONE_TICK, 0) && Initialized(ONE_TICK, 0);
    assert PageStart(5, 10) == 0;
    InFrom(ONE_TICK, 5, 0);
  }
}
