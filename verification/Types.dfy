/** The records passed between the components (types.go, pair.go). */
module Types {
  import opened Ints
  import opened TickKey

  datatype Option<+T> = None | Some(value: T)

  datatype Error = PairNotFound | PairFiltered | NotV3Pool | CallFailed

  datatype Result<+T> = Ok(value: T) | Err(error: Error)

  /** Ticks are the raw big integers of the log; the reactor narrows them. */
  datatype Event =
    | Mint(address: Address, tickLower: int, tickUpper: int, amount: int)
    | Burn(address: Address, tickLower: int, tickUpper: int, amount: int)
    | Swap(address: Address, tick: int)

  datatype BlockEvent = BlockEvent(height: uint64, events: seq<Event>)

  datatype TickState = TickState(tick: int32, net: int)

  datatype Token = Token(symbol: string, decimals: int)

  datatype Pair = Pair(token0: Token, token1: Token, reversed: bool, protocolId: int, filtered: bool)

  datatype PoolState = PoolState(
    token0: Option<Token>, token1: Option<Token>,
    height: int, spacing: int, tick: int, ticks: seq<TickState>)

  /** What the store knows of one pool; fields never written read as zero. */
  datatype Pool = Pool(height: uint64, spacing: int32, tick: int32, ticks: map<int, int>)

  const EMPTY_POOL: Pool := Pool(0, 0, 0, map[])

  /** LiquidityNet at a tick, absent ticks counting as zero. */
  function Net(ticks: map<int, int>, t: int): int {
    if t in ticks then ticks[t] else 0
  }

  /** What `f` makes of the elements, in order, leaving out those it makes nothing of. */
  function Collect<T, U>(f: T -> Option<U>, xs: seq<T>): seq<U> {
    if xs == [] then []
    else
      var rest := Collect(f, xs[..|xs| - 1]);
      match f(xs[|xs| - 1]) case Some(y) => rest + [y] case None => rest
  }

  lemma CollectAppend<T, U>(f: T -> Option<U>, xs: seq<T>, x: T)
    ensures Collect(f, xs + [x]) == match f(x) case Some(y) => Collect(f, xs) + [y] case None => Collect(f, xs)
  {
    assert (xs + [x])[..|xs|] == xs;
  }

  lemma ConcatAssociates<T>(xs: seq<T>, ys: seq<T>, zs: seq<T>)
    ensures xs + ys + zs == xs + (ys + zs)
  {
  }

  lemma InitLast<T>(xs: seq<T>)
    requires xs != []
    ensures xs == xs[..|xs| - 1] + [xs[|xs| - 1]]
  {
  }

  lemma {:induction false} CollectConcat<T, U>(f: T -> Option<U>, xs: seq<T>, ys: seq<T>)
    ensures Collect(f, xs + ys) == Collect(f, xs) + Collect(f, ys)
  {
    if ys == [] {
      assert xs + ys == xs;
    } else {
      var n := |ys| - 1;
      CollectConcat(f, xs, ys[..n]);
      CollectAppend(f, xs + ys[..n], ys[n]);
      CollectAppend(f, ys[..n], ys[n]);
      InitLast(ys);
      ConcatAssociates(xs, ys[..n], [ys[n]]);
      if f(ys[n]).Some? {
        ConcatAssociates(Collect(f, xs), Collect(f, ys[..n]), [f(ys[n]).value]);
      }
    }
  }

  /** The events of one pool, in block order. */
  function EventsOf(es: seq<Event>, a: Address): seq<Event> {
    Collect((e: Event) => if e.address == a then Some(e) else None, es)
  }

  lemma EventsOfAppend(es: seq<Event>, e: Event, a: Address)
    ensures EventsOf(es + [e], a) == if e.address == a then EventsOf(es, a) + [e] else EventsOf(es, a)
  {
    CollectAppend((e: Event) => if e.address == a then Some(e) else None, es, e);
  }

  lemma EventsOfConcat(es: seq<Event>, fs: seq<Event>, a: Address)
    ensures EventsOf(es + fs, a) == EventsOf(es, a) + EventsOf(fs, a)
  {
    CollectConcat((e: Event) => if e.address == a then Some(e) else None, es, fs);
  }

  // ---------- tick lists ----------

  lemma HeadIsMember<T>(s: seq<T>)
    ensures s == [] || s[0] in s
  {
  }

  predicate Ascending(ts: seq<TickState>) {
    forall i, j :: 0 <= i < j < |ts| ==> ts[i].tick < ts[j].tick
  }

  predicate InRange(ts: seq<TickState>, lo: int, hi: int) {
    forall i :: 0 <= i < |ts| ==> lo <= ts[i].tick <= hi
  }

  /** `ts` lists exactly the entries of `m` with lo <= tick <= hi, in ascending order. */
  ghost predicate Lists(ts: seq<TickState>, m: map<int, int>, lo: int, hi: int) {
    && Ascending(ts)
    && InRange(ts, lo, hi)
    && (forall i :: 0 <= i < |ts| ==> ts[i].tick in m && m[ts[i].tick] == ts[i].net)
    && (forall t: int32 :: t in m && lo <= t <= hi ==> TickState(t, m[t]) in ts)
  }

  /** The one list with the property `Lists`. */
  function AscList(m: map<int, int>, lo: int32, hi: int): seq<TickState>
    requires hi < 0x8000_0000
    decreases hi - lo
  {
    if hi < lo then []
    else if hi in m then AscList(m, lo, hi - 1) + [TickState(hi, m[hi])]
    else AscList(m, lo, hi - 1)
  }

  lemma {:induction false} AscListLists(m: map<int, int>, lo: int32, hi: int)
    requires hi < 0x8000_0000
    ensures Lists(AscList(m, lo, hi), m, lo, hi)
    decreases hi - lo
  {
    if lo <= hi {
      AscListLists(m, lo, hi - 1);
      var prev := AscList(m, lo, hi - 1);
      forall t: int32 | t in m && lo <= t <= hi
        ensures TickState(t, m[t]) in AscList(m, lo, hi)
      {
        if t < hi {
          assert TickState(t, m[t]) in prev;
        }
      }
    }
  }

  /** When `hi` has an entry, it is the last one, and the rest lists what lies below. */
  lemma ListsLast(ts: seq<TickState>, m: map<int, int>, lo: int32, hi: int32)
    requires Lists(ts, m, lo, hi) && lo <= hi && hi in m
    ensures ts != [] && ts[|ts| - 1] == TickState(hi, m[hi]) && Lists(ts[..|ts| - 1], m, lo, hi - 1)
  {
    var i :| 0 <= i < |ts| && ts[i] == TickState(hi, m[hi]);
    var n := |ts| - 1;
    var last := ts[n].tick;
    if i < n {
      assert false;
    }
    forall t: int32 | t in m && lo <= t <= hi - 1
      ensures TickState(t, m[t]) in ts[..n]
    {
      var j :| 0 <= j < |ts| && ts[j] == TickState(t, m[t]);
      assert ts[..n][j] == ts[j];
    }
  }

  lemma {:induction false} ListsUnique(ts: seq<TickState>, m: map<int, int>, lo: int32, hi: int)
    requires hi < 0x8000_0000 && Lists(ts, m, lo, hi)
    ensures ts == AscList(m, lo, hi)
    decreases hi - lo
  {
    if hi < lo {
      HeadIsMember(ts);
    } else if hi in m {
      ListsLast(ts, m, lo, hi);
      ListsUnique(ts[..|ts| - 1], m, lo, hi - 1);
    } else {
      ListsUnique(ts, m, lo, hi - 1);
    }
  }

  /** Tick entries written one after the other over `m`. */
  function WriteTicks(m: map<int, int>, ts: seq<TickState>): map<int, int> {
    if ts == [] then m
    else
      var last := ts[|ts| - 1];
      WriteTicks(m, ts[..|ts| - 1])[last.tick := last.net]
  }

  lemma {:induction false} WriteTicksLists(ts: seq<TickState>)
    requires Ascending(ts)
    ensures forall t :: t in WriteTicks(map[], ts) <==> exists i :: 0 <= i < |ts| && ts[i].tick == t
    ensures forall i :: 0 <= i < |ts| ==> WriteTicks(map[], ts)[ts[i].tick] == ts[i].net
  {
    if ts != [] {
      WriteTicksLists(ts[..|ts| - 1]);
    }
  }

  /** Writing entries over `m` overrides what `m` has at their ticks. */
  lemma {:induction false} WriteTicksOverrides(m: map<int, int>, ts: seq<TickState>)
    ensures WriteTicks(m, ts) == m + WriteTicks(map[], ts)
  {
    if ts != [] {
      WriteTicksOverrides(m, ts[..|ts| - 1]);
    }
  }

  /** Writing an ascending list into an empty map and listing it back gives the list. */
  lemma WriteThenList(ts: seq<TickState>, lo: int32, hi: int)
    requires hi < 0x8000_0000 && Ascending(ts) && InRange(ts, lo, hi)
    ensures AscList(WriteTicks(map[], ts), lo, hi) == ts
  {
    WriteTicksLists(ts);
    ListsUnique(ts, WriteTicks(map[], ts), lo, hi);
  }
}
