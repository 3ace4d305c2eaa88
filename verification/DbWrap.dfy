/** The typed store over byte keys (db_wrap.go). */
module DbWrap {
  import opened Ints
  import opened TickKey
  import opened Types
  import opened RocksDb

  const HEIGHT_KEY: Bytes := [49, 58]             // "1:"
  const PREFIX_CURRENT_TICK: Bytes := [51, 58]    // "3:"
  const PREFIX_TICK_SPACING: Bytes := [52, 58]    // "4:"
  const PREFIX_POOL_HEIGHT: Bytes := [53, 58]     // "5:"

  function CurrentTickKey(addr: Address): Bytes { PREFIX_CURRENT_TICK + addr }
  function TickSpacingKey(addr: Address): Bytes { PREFIX_TICK_SPACING + addr }
  function PoolHeightKey(addr: Address): Bytes { PREFIX_POOL_HEIGHT + addr }

  function Int32ToBytes(n: int32): Bytes { BigEndian(n % TWO_32, 4) }
  function BytesToInt32(b: Bytes): int32 { Int32(FromBigEndian(b)) }
  function Uint64ToBytes(n: uint64): Bytes { BigEndian(n, 8) }
  function BytesToUint64(b: Bytes): uint64 { Uint64(FromBigEndian(b)) }

  lemma IntCodecsRoundTrip(n: int32, h: uint64)
    ensures BytesToInt32(Int32ToBytes(n)) == n
    ensures BytesToUint64(Uint64ToBytes(h)) == h
  {
    Pow256Values();
    BigEndianRoundTrip(n % TWO_32, 4);
    BigEndianRoundTrip(h, 8);
  }

  // ---------- what the bytes mean ----------

  function RawAt(data: Data, k: Bytes): Option<Bytes> {
    if k in data && data[k].Raw? then Some(data[k].bytes) else None
  }

  function Int32At(data: Data, k: Bytes): int32 {
    match RawAt(data, k) case None => 0 case Some(b) => BytesToInt32(b)
  }

  function Uint64At(data: Data, k: Bytes): uint64 {
    match RawAt(data, k) case None => 0 case Some(b) => BytesToUint64(b)
  }

  function NetOf(v: Value): int {
    match v case Gob(n) => n case Raw(_) => 0
  }

  ghost function TicksOf(data: Data, a: Address): map<int, int> {
    map t: int | -0x8000_0000 <= t < 0x8000_0000 && TickStateKey(a, t) in data :: NetOf(data[TickStateKey(a, t)])
  }

  ghost function PoolOf(data: Data, a: Address): Pool {
    Pool(Uint64At(data, PoolHeightKey(a)), Int32At(data, TickSpacingKey(a)), Int32At(data, CurrentTickKey(a)),
         TicksOf(data, a))
  }

  function FinishOf(data: Data): uint64 {
    Uint64At(data, HEIGHT_KEY)
  }

  /** Every key has one of the five shapes, with a value of the matching kind. */
  ghost predicate KeyOk(k: Bytes, v: Value) {
    match v
    case Gob(_) => |k| == 26 && PREFIX_TICK_STATE <= k
    case Raw(b) =>
      || (k == HEIGHT_KEY && |b| == 8)
      || (|k| == 22 && PREFIX_POOL_HEIGHT <= k && |b| == 8)
      || (|k| == 22 && (PREFIX_CURRENT_TICK <= k || PREFIX_TICK_SPACING <= k) && |b| == 4)
  }

  ghost predicate StoreOk(data: Data) {
    forall k {:trigger KeyOk(k, data[k])} :: k in data ==> KeyOk(k, data[k])
  }

  // ---------- one write, seen through the abstraction ----------

  /** `after` differs from `before` in pool `a` only, which became `p`. */
  ghost predicate OnlyPool(before: Data, after: Data, a: Address, p: Pool) {
    && StoreOk(after)
    && FinishOf(after) == FinishOf(before)
    && PoolOf(after, a) == p
    && forall b: Address :: b != a ==> PoolOf(after, b) == PoolOf(before, b)
  }

  /** The three 22-byte keys: kinds never meet, and one kind tells pools apart. */
  lemma KeyKinds(a: Address, b: Address)
    ensures PoolHeightKey(a) != TickSpacingKey(b) && PoolHeightKey(a) != CurrentTickKey(b)
    ensures TickSpacingKey(a) != CurrentTickKey(b)
    ensures PoolHeightKey(a) == PoolHeightKey(b) <==> a == b
    ensures TickSpacingKey(a) == TickSpacingKey(b) <==> a == b
    ensures CurrentTickKey(a) == CurrentTickKey(b) <==> a == b
  {
    assert PoolHeightKey(a)[0] == 53 && PoolHeightKey(b)[0] == 53;
    assert TickSpacingKey(a)[0] == 52 && TickSpacingKey(b)[0] == 52;
    assert CurrentTickKey(a)[0] == 51 && CurrentTickKey(b)[0] == 51;
    assert PoolHeightKey(a)[2..] == a && PoolHeightKey(b)[2..] == b;
    assert TickSpacingKey(a)[2..] == a && TickSpacingKey(b)[2..] == b;
    assert CurrentTickKey(a)[2..] == a && CurrentTickKey(b)[2..] == b;
  }

  /** A write to a key that is no tick key leaves every pool's ticks. */
  lemma TicksFrame(data: Data, k: Bytes, v: Value, b: Address)
    requires |k| != 26
    ensures TicksOf(data[k := v], b) == TicksOf(data, b)
  {
  }

  lemma RawKey(data: Data, k: Bytes)
    requires StoreOk(data) && |k| != 26 && k in data
    ensures data[k].Raw?
  {
    assert KeyOk(k, data[k]);
  }

  lemma PutRawFrame(data: Data, k: Bytes, v: Bytes, a: Address, b: Address)
    requires k == PoolHeightKey(a) || k == TickSpacingKey(a) || k == CurrentTickKey(a)
    requires a != b
    ensures PoolOf(data[k := Raw(v)], b) == PoolOf(data, b)
  {
    KeyKinds(a, b);
    KeyKinds(b, a);
    TicksFrame(data, k, Raw(v), b);
  }

  /** A well-formed raw write keeps the store well-formed, and the pools that do not own the key as they are. */
  lemma PutRaw(data: Data, k: Bytes, v: Bytes, a: Address)
    requires StoreOk(data) && KeyOk(k, Raw(v))
    requires k == PoolHeightKey(a) || k == TickSpacingKey(a) || k == CurrentTickKey(a)
    ensures StoreOk(data[k := Raw(v)])
    ensures FinishOf(data[k := Raw(v)]) == FinishOf(data)
    ensures forall b: Address :: b != a ==> PoolOf(data[k := Raw(v)], b) == PoolOf(data, b)
  {
    forall b: Address | b != a ensures PoolOf(data[k := Raw(v)], b) == PoolOf(data, b) {
      PutRawFrame(data, k, v, a, b);
    }
  }

  lemma PutHeight(data: Data, a: Address, h: uint64)
    requires StoreOk(data)
    ensures OnlyPool(data, data[PoolHeightKey(a) := Raw(Uint64ToBytes(h))], a, PoolOf(data, a).(height := h))
  {
    var v := Uint64ToBytes(h);
    IntCodecsRoundTrip(0, h);
    KeyKinds(a, a);
    TicksFrame(data, PoolHeightKey(a), Raw(v), a);
    PutRaw(data, PoolHeightKey(a), v, a);
  }

  lemma PutCurrentTick(data: Data, a: Address, t: int32)
    requires StoreOk(data)
    ensures OnlyPool(data, data[CurrentTickKey(a) := Raw(Int32ToBytes(t))], a, PoolOf(data, a).(tick := t))
  {
    var v := Int32ToBytes(t);
    IntCodecsRoundTrip(t, 0);
    KeyKinds(a, a);
    TicksFrame(data, CurrentTickKey(a), Raw(v), a);
    PutRaw(data, CurrentTickKey(a), v, a);
  }

  lemma PutTickSpacing(data: Data, a: Address, s: int32)
    requires StoreOk(data)
    ensures OnlyPool(data, data[TickSpacingKey(a) := Raw(Int32ToBytes(s))], a, PoolOf(data, a).(spacing := s))
  {
    var v := Int32ToBytes(s);
    IntCodecsRoundTrip(s, 0);
    KeyKinds(a, a);
    TicksFrame(data, TickSpacingKey(a), Raw(v), a);
    PutRaw(data, TickSpacingKey(a), v, a);
  }

  lemma TickKeysDiffer(a: Address, t: int32, b: Address, u: int32)
    ensures TickStateKey(a, t) == TickStateKey(b, u) <==> a == b && t == u
  {
    TickStateKeyRoundTrip(a, t);
    TickStateKeyRoundTrip(b, u);
  }

  lemma PutTickView(data: Data, a: Address, ts: TickState, b: Address)
    ensures TicksOf(data[TickStateKey(a, ts.tick) := Gob(ts.net)], b) ==
            if a == b then TicksOf(data, b)[ts.tick := ts.net] else TicksOf(data, b)
  {
    forall u: int32 ensures TickStateKey(a, ts.tick) == TickStateKey(b, u) <==> a == b && ts.tick == u {
      TickKeysDiffer(a, ts.tick, b, u);
    }
  }

  lemma PutTickPool(data: Data, a: Address, ts: TickState, b: Address)
    ensures PoolOf(data[TickStateKey(a, ts.tick) := Gob(ts.net)], b) ==
            if a == b then PoolOf(data, a).(ticks := PoolOf(data, a).ticks[ts.tick := ts.net]) else PoolOf(data, b)
  {
    PutTickView(data, a, ts, b);
  }

  lemma PutTickOk(data: Data, a: Address, ts: TickState)
    requires StoreOk(data)
    ensures StoreOk(data[TickStateKey(a, ts.tick) := Gob(ts.net)])
    ensures FinishOf(data[TickStateKey(a, ts.tick) := Gob(ts.net)]) == FinishOf(data)
  {
    assert TickStateKey(a, ts.tick)[..2] == PREFIX_TICK_STATE;
  }

  lemma PutTick(data: Data, a: Address, ts: TickState)
    requires StoreOk(data)
    ensures OnlyPool(data, data[TickStateKey(a, ts.tick) := Gob(ts.net)], a,
                     PoolOf(data, a).(ticks := PoolOf(data, a).ticks[ts.tick := ts.net]))
  {
    PutTickOk(data, a, ts);
    forall b: Address {
      PutTickPool(data, a, ts, b);
    }
  }

  // ---------- whole pool states ----------

  function StoreSnapshot(p: Pool, s: PoolState): Pool {
    Pool(BigUint64(s.height), Int32(s.spacing), Int32(s.tick), WriteTicks(p.ticks, s.ticks))
  }

  function ReadPool(p: Pool): Option<PoolState> {
    if p.height == 0 then None
    else Some(PoolState(None, None, Int64(p.height), p.spacing, p.tick, AscList(p.ticks, MIN_TICK, MAX_TICK)))
  }

  function WithoutTokens(s: PoolState): PoolState {
    s.(token0 := None, token1 := None)
  }

  /** The heights that come back: those below 2^63, and by two changes of sign -2^63. */
  predicate ReadsBack(h: int) {
    0 <= h < 0x8000_0000_0000_0000 || h == -0x8000_0000_0000_0000
  }

  /** The snapshots that survive storing: those the store can represent. */
  predicate Storable(s: PoolState) {
    && s.height != 0 && ReadsBack(s.height)
    && -0x8000_0000 <= s.spacing < 0x8000_0000
    && -0x8000_0000 <= s.tick < 0x8000_0000
    && Ascending(s.ticks) && InRange(s.ticks, MIN_TICK, MAX_TICK)
  }

  /** The ticks a snapshot writes. */
  function Listed(s: PoolState): map<int, int> {
    WriteTicks(map[], s.ticks)
  }

  /** Every tick that a scan of `p` finds is one the snapshot writes. */
  ghost predicate Overwrites(s: PoolState, p: Pool) {
    forall t: int32 :: t in p.ticks && MIN_TICK <= t <= MAX_TICK ==> t in Listed(s)
  }

  lemma TicksReadBack(m: map<int, int>, s: PoolState)
    requires Ascending(s.ticks) && InRange(s.ticks, MIN_TICK, MAX_TICK)
    requires forall t: int32 :: t in m && MIN_TICK <= t <= MAX_TICK ==> t in Listed(s)
    ensures AscList(WriteTicks(m, s.ticks), MIN_TICK, MAX_TICK) == s.ticks
  {
    var w := Listed(s);
    WriteTicksOverrides(m, s.ticks);
    WriteTicksLists(s.ticks);
    forall t: int32 | t in m + w && MIN_TICK <= t <= MAX_TICK ensures TickState(t, (m + w)[t]) in s.ticks {
      var i :| 0 <= i < |s.ticks| && s.ticks[i].tick == t;
      assert s.ticks[i] == TickState(t, (m + w)[t]);
    }
    ListsUnique(s.ticks, m + w, MIN_TICK, MAX_TICK);
  }

  lemma ReadBackTicks(m: map<int, int>, s: PoolState, t: int32)
    requires AscList(WriteTicks(m, s.ticks), MIN_TICK, MAX_TICK) == s.ticks
    requires t in m && MIN_TICK <= t <= MAX_TICK
    ensures Ascending(s.ticks) && t in Listed(s)
  {
    WriteTicksOverrides(m, s.ticks);
    AscListLists(WriteTicks(m, s.ticks), MIN_TICK, MAX_TICK);
    WriteTicksLists(s.ticks);
    var i :| 0 <= i < |s.ticks| && s.ticks[i] == TickState(t, WriteTicks(m, s.ticks)[t]);
    assert s.ticks[i].tick == t;
  }

  /** Stored as a uint64 and read as an int64, a height comes back exactly in these cases. */
  lemma HeightReadBack(h: int)
    ensures Int64(BigUint64(h)) == h <==> ReadsBack(h)
  {
    if -TWO_64 < h < TWO_64 {
      WrapNear(if h < 0 then -h else h, TWO_64);
      WrapNear(BigUint64(h), TWO_64);
    }
  }

  /** Reading a stored snapshot gives it back exactly when it is storable and writes over every tick left of the
      pool. */
  lemma SnapshotReadBack(p: Pool, s: PoolState)
    ensures ReadPool(StoreSnapshot(p, s)) == Some(WithoutTokens(s)) <==> Storable(s) && Overwrites(s, p)
  {
    if Storable(s) && Overwrites(s, p) {
      HeightReadBack(s.height);
      TicksReadBack(p.ticks, s);
    }
    if ReadPool(StoreSnapshot(p, s)) == Some(WithoutTokens(s)) {
      HeightReadBack(s.height);
      AscListLists(WriteTicks(p.ticks, s.ticks), MIN_TICK, MAX_TICK);
      forall t: int32 | t in p.ticks && MIN_TICK <= t <= MAX_TICK ensures t in Listed(s) {
        ReadBackTicks(p.ticks, s, t);
      }
    }
  }

  /** What DeletePoolState leaves of a pool. */
  function Deleted(p: Pool): Pool {
    Pool(0, 0, 0, map t | t in p.ticks && !(MIN_TICK <= t < MAX_TICK) :: p.ticks[t])
  }

  /** The pool reads as absent, and of the ticks a scan can see only the one at MaxTick can be left. */
  lemma DeletedPool(p: Pool)
    ensures ReadPool(Deleted(p)).None?
    ensures AscList(Deleted(p).ticks, MIN_TICK, MAX_TICK) ==
            if MAX_TICK in p.ticks then [TickState(MAX_TICK, p.ticks[MAX_TICK])] else []
  {
    var m := Deleted(p).ticks;
    var ts := if MAX_TICK in p.ticks then [TickState(MAX_TICK, p.ticks[MAX_TICK])] else [];
    forall t: int32 | t in m && MIN_TICK <= t <= MAX_TICK ensures TickState(t, m[t]) in ts {
      assert t == MAX_TICK;
    }
    ListsUnique(ts, m, MIN_TICK, MAX_TICK);
  }

  /** A deletion leaves nothing of a pool that has no tick from MaxTick on or below MinTick. */
  lemma DeletedIsEmpty(p: Pool)
    ensures Deleted(p) == EMPTY_POOL <==> forall t :: t in p.ticks ==> MIN_TICK <= t < MAX_TICK
  {
    if Deleted(p) == EMPTY_POOL {
      forall t | t in p.ticks ensures MIN_TICK <= t < MAX_TICK {
        assert t !in Deleted(p).ticks;
      }
    }
  }

  function DeleteBatch(a: Address): seq<BatchOp> {
    [Delete(PoolHeightKey(a)), Delete(TickSpacingKey(a)), Delete(CurrentTickKey(a)),
     DeleteRange(TickStateKey(a, MIN_TICK), TickStateKey(a, MAX_TICK))]
  }

  lemma InDeletedRange(a: Address, b: Address, t: int32)
    ensures (LexLe(TickStateKey(a, MIN_TICK), TickStateKey(b, t)) &&
            LexLt(TickStateKey(b, t), TickStateKey(a, MAX_TICK)))
            <==> a == b && MIN_TICK <= t < MAX_TICK
  {
    var k := TickStateKey(b, t);
    TickKeysDiffer(b, t, a, MAX_TICK);
    TickStateKeyOrder(a, MIN_TICK, b, t);
    TickStateKeyOrder(b, t, a, MAX_TICK);
    LexTotal(a, b);
  }

  /** A key of another shape or another pool is never in the deleted range. */
  lemma OutsideDeletedRange(a: Address, k: Bytes)
    requires |k| != 26
    requires LexLe(TickStateKey(a, MIN_TICK), k) && LexLe(k, TickStateKey(a, MAX_TICK))
    ensures k != [] && k[0] == 50
  {
    TickScanBounds(a, MIN_TICK, MAX_TICK, k);
    assert k[..2] == TickPrefix(a)[..2] == PREFIX_TICK_STATE;
  }

  function AfterDelete(data: Data, a: Address): Data {
    ApplyOp(data - {PoolHeightKey(a)} - {TickSpacingKey(a)} - {CurrentTickKey(a)},
            DeleteRange(TickStateKey(a, MIN_TICK), TickStateKey(a, MAX_TICK)))
  }

  lemma DeleteBatchIs(data: Data, a: Address)
    ensures ApplyBatch(data, DeleteBatch(a)) == AfterDelete(data, a)
  {
    var ops := DeleteBatch(a);
    ApplyBatchAppend(data, [], ops[0]);
    ApplyBatchAppend(data, [ops[0]], ops[1]);
    ApplyBatchAppend(data, [ops[0], ops[1]], ops[2]);
    ApplyBatchAppend(data, [ops[0], ops[1], ops[2]], ops[3]);
    assert ops == [] + [ops[0]] + [ops[1]] + [ops[2]] + [ops[3]];
  }

  /** Outside the tick keys, a deletion drops the pool's three keys and nothing else. */
  lemma DeleteRawKeys(data: Data, a: Address, k: Bytes)
    requires StoreOk(data) && |k| != 26
    ensures k in AfterDelete(data, a) <==>
            k in data && k != PoolHeightKey(a) && k != TickSpacingKey(a) && k != CurrentTickKey(a)
  {
    if k in data {
      assert KeyOk(k, data[k]);
      if LexLe(TickStateKey(a, MIN_TICK), k) && LexLe(k, TickStateKey(a, MAX_TICK)) {
        OutsideDeletedRange(a, k);
        assert false;
      }
    }
  }

  lemma DeleteTicks(data: Data, a: Address, b: Address)
    ensures TicksOf(AfterDelete(data, a), b) ==
            if b == a then Deleted(PoolOf(data, a)).ticks else TicksOf(data, b)
  {
    forall t: int32
      ensures TickStateKey(b, t) in AfterDelete(data, a) <==>
              TickStateKey(b, t) in data && !(a == b && MIN_TICK <= t < MAX_TICK)
    {
      InDeletedRange(a, b, t);
    }
  }

  lemma DeleteEffect(data: Data, a: Address)
    requires StoreOk(data)
    ensures OnlyPool(data, ApplyBatch(data, DeleteBatch(a)), a, Deleted(PoolOf(data, a)))
  {
    DeleteBatchIs(data, a);
    DeleteRawKeys(data, a, HEIGHT_KEY);
    forall b: Address
      ensures PoolOf(AfterDelete(data, a), b) == if b == a then Deleted(PoolOf(data, a)) else PoolOf(data, b)
    {
      DeletePool(data, a, b);
    }
  }

  lemma DeletePool(data: Data, a: Address, b: Address)
    requires StoreOk(data)
    ensures PoolOf(AfterDelete(data, a), b) == if b == a then Deleted(PoolOf(data, a)) else PoolOf(data, b)
  {
    DeleteTicks(data, a, b);
    KeyKinds(a, b);
    KeyKinds(b, a);
    DeleteRawKeys(data, a, PoolHeightKey(b));
    DeleteRawKeys(data, a, TickSpacingKey(b));
    DeleteRawKeys(data, a, CurrentTickKey(b));
  }

  // ---------- collecting a scan by pool ----------

  function EntryState(e: Entry): TickState
    requires |e.key| == 26
  {
    TickState(KeyTick(e.key), NetOf(e.val))
  }

  /** The entries of one pool, in scan order. */
  function StatesOf(es: seq<Entry>, a: Address): seq<TickState>
    requires forall e :: e in es ==> |e.key| == 26
  {
    if es == [] then []
    else
      var last := es[|es| - 1];
      if KeyAddress(last.key) == a then StatesOf(es[..|es| - 1], a) + [EntryState(last)]
      else StatesOf(es[..|es| - 1], a)
  }

  /** `c` has every entry, under its pool, in scan order. */
  ghost predicate Collected(es: seq<Entry>, c: map<Address, seq<TickState>>) {
    && (forall e :: e in es ==> |e.key| == 26)
    && forall a: Address :: StatesOf(es, a) == if a in c then c[a] else []
  }

  lemma {:induction false} StatesOfOnePool(es: seq<Entry>, a: Address)
    requires forall e :: e in es ==> |e.key| == 26 && KeyAddress(e.key) == a
    ensures StatesOf(es, a) == seq(|es|, i requires 0 <= i < |es| => EntryState(es[i]))
  {
    if es != [] {
      StatesOfOnePool(es[..|es| - 1], a);
    }
  }

  /** No 2-byte or 22-byte key, and no other pool's key, lies inside a pool's scan bounds. */
  lemma ScanKey(data: Data, a: Address, k: Bytes)
    requires StoreOk(data) && k in data
    requires Within(k, TickStateKey(a, MIN_TICK), TickStateKey(a, MAX_TICK))
    ensures |k| == 26 && k == TickStateKey(a, KeyTick(k)) && KeyAddress(k) == a && MIN_TICK <= KeyTick(k) <= MAX_TICK
  {
    assert KeyOk(k, data[k]);
    if |k| != 26 {
      OutsideDeletedRange(a, k);
      assert false;
    }
    TickScanBounds(a, MIN_TICK, MAX_TICK, k);
    TickStateKeyRoundTrip(a, KeyTick(k));
  }

  lemma ScanEntries(data: Data, a: Address, es: seq<Entry>)
    requires StoreOk(data)
    requires IsScan(data, TickStateKey(a, MIN_TICK), TickStateKey(a, MAX_TICK), es)
    ensures forall i :: 0 <= i < |es| ==>
        var k := es[i].key;
        |k| == 26 && k == TickStateKey(a, KeyTick(k)) && KeyAddress(k) == a && MIN_TICK <= KeyTick(k) <= MAX_TICK
  {
    forall i | 0 <= i < |es| {
      ScanKey(data, a, es[i].key);
    }
  }

  lemma ScanFinds(data: Data, a: Address, es: seq<Entry>, t: int32) returns (i: nat)
    requires IsScan(data, TickStateKey(a, MIN_TICK), TickStateKey(a, MAX_TICK), es)
    requires t in TicksOf(data, a) && MIN_TICK <= t <= MAX_TICK
    ensures i < |es| && |es[i].key| == 26 && EntryState(es[i]) == TickState(t, TicksOf(data, a)[t])
  {
    var k := TickStateKey(a, t);
    TickStateKeyOrder(a, MIN_TICK, a, t);
    TickStateKeyOrder(a, t, a, MAX_TICK);
    i :| 0 <= i < |es| && es[i] == Entry(k, data[k]);
    TickStateKeyRoundTrip(a, t);
  }

  lemma KeyOrderIsTickOrder(a: Address, k: Bytes, l: Bytes)
    requires |k| == |l| == 26 && k == TickStateKey(a, KeyTick(k)) && l == TickStateKey(a, KeyTick(l)) && LexLt(k, l)
    ensures KeyTick(k) < KeyTick(l)
  {
    TickStateKeyOrder(a, KeyTick(k), a, KeyTick(l));
  }

  /** A pool's scan finds that pool's in-range ticks, ascending, and nothing else. */
  lemma ScanIsTickList(data: Data, a: Address, es: seq<Entry>)
    requires StoreOk(data)
    requires IsScan(data, TickStateKey(a, MIN_TICK), TickStateKey(a, MAX_TICK), es)
    ensures forall e :: e in es ==> |e.key| == 26 && KeyAddress(e.key) == a
    ensures StatesOf(es, a) == AscList(TicksOf(data, a), MIN_TICK, MAX_TICK)
  {
    ScanEntries(data, a, es);
    StatesOfOnePool(es, a);
    var ts, m := StatesOf(es, a), TicksOf(data, a);
    forall i, j | 0 <= i < j < |ts| ensures ts[i].tick < ts[j].tick {
      KeyOrderIsTickOrder(a, es[i].key, es[j].key);
    }
    forall t: int32 | t in m && MIN_TICK <= t <= MAX_TICK ensures TickState(t, m[t]) in ts {
      var i := ScanFinds(data, a, es, t);
      assert ts[i] == TickState(t, m[t]);
    }
    ListsUnique(ts, m, MIN_TICK, MAX_TICK);
  }

  // ---------- the store as a map from addresses to pools ----------

  /** An empty database is well-formed and means that no pool and no finish height is stored. */
  lemma EmptyStore(a: Address)
    ensures StoreOk(map[]) && FinishOf(map[]) == 0 && PoolOf(map[], a) == EMPTY_POOL
  {
    assert TicksOf(map[], a) == map[];
  }

  type World = imap<Address, Pool>

  ghost function At(w: World, a: Address): Pool {
    if a in w then w[a] else EMPTY_POOL
  }

  /** Only pool `a` may differ, and it became `p`. */
  ghost predicate OnlyAt(before: World, after: World, a: Address, p: Pool) {
    At(after, a) == p && forall b: Address :: b != a ==> At(after, b) == At(before, b)
  }

  /** `w` and `finish` are what the bytes mean. */
  ghost predicate Means(data: Data, w: World, finish: uint64) {
    && StoreOk(data)
    && FinishOf(data) == finish
    && forall a: Address {:trigger PoolOf(data, a)} :: PoolOf(data, a) == At(w, a)
  }

  lemma MeansAfter(d0: Data, d1: Data, w: World, finish: uint64, a: Address, p: Pool)
    requires Means(d0, w, finish) && OnlyPool(d0, d1, a, p)
    ensures Means(d1, w[a := p], finish)
  {
    forall b: Address ensures PoolOf(d1, b) == At(w[a := p], b) {
      if b != a {
        assert PoolOf(d0, b) == At(w, b);
      }
    }
  }

  lemma MeansTick(data: Data, w: World, finish: uint64, a: Address, ts: TickState)
    requires Means(data, w, finish)
    ensures Means(data[TickStateKey(a, ts.tick) := Gob(ts.net)],
                  w[a := At(w, a).(ticks := At(w, a).ticks[ts.tick := ts.net])], finish)
  {
    var p := PoolOf(data, a);
    PutTick(data, a, ts);
    MeansAfter(data, data[TickStateKey(a, ts.tick) := Gob(ts.net)], w, finish, a,
        p.(ticks := p.ticks[ts.tick := ts.net]));
  }

  lemma MeansFinish(data: Data, w: World, finish: uint64, h: uint64)
    requires Means(data, w, finish)
    ensures Means(data[HEIGHT_KEY := Raw(Uint64ToBytes(h))], w, h)
  {
    var v := Uint64ToBytes(h);
    IntCodecsRoundTrip(0, h);
    forall b: Address ensures PoolOf(data[HEIGHT_KEY := Raw(v)], b) == At(w, b) {
      TicksFrame(data, HEIGHT_KEY, Raw(v), b);
      assert PoolOf(data, b) == At(w, b);
    }
  }

  class TickStateCollector {
    var collection: map<Address, seq<TickState>>

    constructor ()
      ensures collection == map[]
    {
      collection := map[];
    }

    method Add(addr: Address, ts: TickState)
      modifies this
      ensures collection == old(collection)[addr := (if addr in old(collection) then old(collection)[addr] else []) +
              [ts]]
    {
      if addr !in collection {
        collection := collection[addr := []];
      }
      collection := collection[addr := collection[addr] + [ts]];
    }
  }

  class RocksDBWrap {
    const db: RocksDB
    ghost var pools: World
    ghost var finish: uint64

    /** Over an existing database, as after a restart, or an empty one. */
    constructor (db: RocksDB)
      requires StoreOk(db.data)
      ensures this.db == db && Valid()
      ensures finish == FinishOf(db.data) && forall a: Address :: View(a) == PoolOf(db.data, a)
    {
      this.db := db;
      pools := imap a: Address | true :: PoolOf(db.data, a);
      finish := FinishOf(db.data);
    }

    ghost predicate Valid()
      reads this, db
    {
      Means(db.data, pools, finish)
    }

    ghost function View(a: Address): Pool
      reads this
    {
      At(pools, a)
    }

    method SetFinishHeight(height: uint64)
      requires Valid()
      modifies this, db
      ensures Valid() && pools == old(pools) && finish == height
    {
      MeansFinish(db.data, pools, finish, height);
      db.Set(HEIGHT_KEY, Raw(Uint64ToBytes(height)));
      finish := height;
    }

    method GetFinishHeight() returns (height: uint64)
      requires Valid()
      ensures height == finish
    {
      var v := db.Get(HEIGHT_KEY);
      if v.Some? {
        RawKey(db.data, HEIGHT_KEY);
      }
      height := match v case None => 0 case Some(val) => BytesToUint64(val.bytes);
    }

    method SetTickState(addr: Address, ts: TickState)
      requires Valid()
      modifies this, db
      ensures Valid() && finish == old(finish)
      ensures pools == old(pools)[addr := old(View(addr)).(ticks := old(View(addr)).ticks[ts.tick := ts.net])]
    {
      var key := GetTickStateKey(addr, ts.tick);
      MeansTick(db.data, pools, finish, addr, ts);
      db.Set(key, Gob(ts.net));
      pools := pools[addr := View(addr).(ticks := View(addr).ticks[ts.tick := ts.net])];
    }

    method GetTickState(addr: Address, tick: int32) returns (r: Option<TickState>)
      requires Valid()
      ensures r == if tick in View(addr).ticks then Some(TickState(tick, View(addr).ticks[tick])) else None
    {
      var key := GetTickStateKey(addr, tick);
      var v := db.Get(key);
      assert PoolOf(db.data, addr) == View(addr);
      r := match v case None => None case Some(val) => Some(TickState(tick, NetOf(val)));
    }

    method SetCurrentTick(addr: Address, tick: int32)
      requires Valid()
      modifies this, db
      ensures Valid() && finish == old(finish)
      ensures pools == old(pools)[addr := old(View(addr)).(tick := tick)]
    {
      var key, val := CurrentTickKey(addr), Raw(Int32ToBytes(tick));
      ghost var p := PoolOf(db.data, addr).(tick := tick);
      PutCurrentTick(db.data, addr, tick);
      MeansAfter(db.data, db.data[key := val], pools, finish, addr, p);
      db.Set(key, val);
      pools := pools[addr := p];
    }

    method GetCurrentTick(addr: Address) returns (tick: int32)
      requires Valid()
      ensures tick == View(addr).tick
    {
      var v := db.Get(CurrentTickKey(addr));
      if v.Some? {
        RawKey(db.data, CurrentTickKey(addr));
      }
      assert PoolOf(db.data, addr) == View(addr);
      tick := match v case None => 0 case Some(val) => BytesToInt32(val.bytes);
    }

    method SetTickSpacing(addr: Address, spacing: int32)
      requires Valid()
      modifies this, db
      ensures Valid() && finish == old(finish)
      ensures pools == old(pools)[addr := old(View(addr)).(spacing := spacing)]
    {
      var key, val := TickSpacingKey(addr), Raw(Int32ToBytes(spacing));
      ghost var p := PoolOf(db.data, addr).(spacing := spacing);
      PutTickSpacing(db.data, addr, spacing);
      MeansAfter(db.data, db.data[key := val], pools, finish, addr, p);
      db.Set(key, val);
      pools := pools[addr := p];
    }

    method GetTickSpacing(addr: Address) returns (spacing: int32)
      requires Valid()
      ensures spacing == View(addr).spacing
    {
      var v := db.Get(TickSpacingKey(addr));
      if v.Some? {
        RawKey(db.data, TickSpacingKey(addr));
      }
      assert PoolOf(db.data, addr) == View(addr);
      spacing := match v case None => 0 case Some(val) => BytesToInt32(val.bytes);
    }

    method SetHeight(addr: Address, height: uint64)
      requires Valid()
      modifies this, db
      ensures Valid() && finish == old(finish)
      ensures pools == old(pools)[addr := old(View(addr)).(height := height)]
    {
      var key, val := PoolHeightKey(addr), Raw(Uint64ToBytes(height));
      ghost var p := PoolOf(db.data, addr).(height := height);
      PutHeight(db.data, addr, height);
      MeansAfter(db.data, db.data[key := val], pools, finish, addr, p);
      db.Set(key, val);
      pools := pools[addr := p];
    }

    method GetHeight(addr: Address) returns (height: uint64)
      requires Valid()
      ensures height == View(addr).height
    {
      var v := db.Get(PoolHeightKey(addr));
      if v.Some? {
        RawKey(db.data, PoolHeightKey(addr));
      }
      assert PoolOf(db.data, addr) == View(addr);
      height := match v case None => 0 case Some(val) => BytesToUint64(val.bytes);
    }

    /** The source panics on a scanned key that has not 26 bytes; the callers' bounds rule that out. */
    method GetRange(from: Bytes, to: Bytes) returns (c: map<Address, seq<TickState>>)
      requires Valid()
      requires forall k :: k in db.data && Within(k, from, to) ==> |k| == 26
      ensures exists es :: IsScan(db.data, from, to, es) && Collected(es, c)
    {
      var entries := db.GetRange(from, to);
      c := Collect(entries);
    }

    /** The body of the loop over the scanned entries. */
    static method Collect(entries: seq<Entry>) returns (c: map<Address, seq<TickState>>)
      requires forall e :: e in entries ==> |e.key| == 26
      ensures Collected(entries, c)
    {
      var collector := new TickStateCollector();
      for i := 0 to |entries|
        invariant forall a: Address ::
            StatesOf(entries[..i], a) == if a in collector.collection then collector.collection[a] else []
      {
        var e := entries[i];
        forall a: Address
          ensures StatesOf(entries[..i + 1], a) ==
                  if KeyAddress(e.key) == a then StatesOf(entries[..i], a) + [EntryState(e)]
                      else StatesOf(entries[..i], a)
        {
          assert entries[..i + 1][..i] == entries[..i];
        }
        collector.Add(KeyAddress(e.key), EntryState(e));
      }
      assert entries[..|entries|] == entries;
      c := collector.collection;
    }

    method GetTickStates(addr: Address) returns (ts: seq<TickState>)
      requires Valid()
      ensures ts == AscList(View(addr).ticks, MIN_TICK, MAX_TICK)
      ensures Lists(ts, View(addr).ticks, MIN_TICK, MAX_TICK)
    {
      var from := GetTickStateKey(addr, MIN_TICK);
      var to := GetTickStateKey(addr, MAX_TICK);
      forall k | k in db.data && Within(k, from, to) ensures |k| == 26 {
        ScanKey(db.data, addr, k);
      }
      assert PoolOf(db.data, addr) == View(addr);
      var c := GetRange(from, to);
      ghost var es :| IsScan(db.data, from, to, es) && Collected(es, c);
      ScanIsTickList(db.data, addr, es);
      AscListLists(View(addr).ticks, MIN_TICK, MAX_TICK);
      ts := if addr in c then c[addr] else [];
    }

    method GetPoolState(addr: Address) returns (r: Option<PoolState>)
      requires Valid()
      ensures r == ReadPool(View(addr))
    {
      var height := GetHeight(addr);
      if height == 0 {
        return None;
      }
      var spacing := GetTickSpacing(addr);
      var tick := GetCurrentTick(addr);
      var ticks := GetTickStates(addr);
      r := Some(PoolState(None, None, Int64(height), spacing, tick, ticks));
    }

    method SetPoolState(addr: Address, s: PoolState)
      requires Valid()
      modifies this, db
      ensures Valid() && finish == old(finish)
      ensures pools == old(pools)[addr := StoreSnapshot(old(View(addr)), s)]
    {
      ghost var p := StoreSnapshot(PoolOf(db.data, addr), s);
      var batch := GlobalBatch(db.data, addr, BigUint64(s.height), Int32(s.tick), Int32(s.spacing));
      batch := AddTicks(db.data, batch, addr, s.ticks);
      MeansAfter(db.data, ApplyBatch(db.data, batch), pools, finish, addr, p);
      db.WriteBatch(batch);
      pools := pools[addr := p];
    }

    static method GlobalBatch(ghost d: Data, addr: Address, height: uint64, tick: int32, spacing: int32)
      returns (batch: seq<BatchOp>)
      requires StoreOk(d)
      ensures OnlyPool(d, ApplyBatch(d, batch), addr, Pool(height, spacing, tick, PoolOf(d, addr).ticks))
    {
      batch := [];
      PutHeight(d, addr, height);
      batch := PutInBatch(d, batch, PoolHeightKey(addr), Raw(Uint64ToBytes(height)));
      PutCurrentTick(ApplyBatch(d, batch), addr, tick);
      batch := PutInBatch(d, batch, CurrentTickKey(addr), Raw(Int32ToBytes(tick)));
      PutTickSpacing(ApplyBatch(d, batch), addr, spacing);
      batch := PutInBatch(d, batch, TickSpacingKey(addr), Raw(Int32ToBytes(spacing)));
    }

    static method AddTicks(ghost d: Data, batch: seq<BatchOp>, addr: Address, ticks: seq<TickState>)
      returns (r: seq<BatchOp>)
      requires OnlyPool(d, ApplyBatch(d, batch), addr, PoolOf(ApplyBatch(d, batch), addr))
      ensures var p := PoolOf(ApplyBatch(d, batch), addr);
              OnlyPool(d, ApplyBatch(d, r), addr, p.(ticks := WriteTicks(p.ticks, ticks)))
    {
      r := batch;
      ghost var p := PoolOf(ApplyBatch(d, batch), addr);
      for i := 0 to |ticks|
        invariant OnlyPool(d, ApplyBatch(d, r), addr, p.(ticks := WriteTicks(p.ticks, ticks[..i])))
      {
        assert ticks[..i + 1][..i] == ticks[..i];
        PutTick(ApplyBatch(d, r), addr, ticks[i]);
        var key := GetTickStateKey(addr, ticks[i].tick);
        r := PutInBatch(d, r, key, Gob(ticks[i].net));
      }
      assert ticks[..|ticks|] == ticks;
    }

    static method PutInBatch(ghost d: Data, batch: seq<BatchOp>, key: Bytes, val: Value)
      returns (r: seq<BatchOp>)
      ensures r == batch + [Put(key, val)]
      ensures ApplyBatch(d, r) == ApplyBatch(d, batch)[key := val]
    {
      ApplyBatchAppend(d, batch, Put(key, val));
      r := batch + [Put(key, val)];
    }

    method DeletePoolState(addr: Address)
      requires Valid()
      modifies this, db
      ensures Valid() && finish == old(finish)
      ensures pools == old(pools)[addr := Deleted(old(View(addr)))]
    {
      ghost var p := Deleted(PoolOf(db.data, addr));
      DeleteEffect(db.data, addr);
      MeansAfter(db.data, ApplyBatch(db.data, DeleteBatch(addr)), pools, finish, addr, p);
      var startKey := GetTickStateKey(addr, MIN_TICK);
      var endKey := GetTickStateKey(addr, MAX_TICK);
      db.WriteBatch([Delete(PoolHeightKey(addr)), Delete(TickSpacingKey(addr)), Delete(CurrentTickKey(addr)),
                     DeleteRange(startKey, endKey)]);
      pools := pools[addr := p];
    }
  }
}
