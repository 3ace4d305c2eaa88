/** Restarts: where the crawl resumes (task_dispatcher.go, main.go), and what applying events again does to a pool. */
module Replay {
  import opened Ints
  import opened TickKey
  import opened Types
  import opened PoolStateGetters
  import opened EventReactors

  /** The height to resume at: the configured one, else the one after the finished one, else the chain's head. */
  function GetFromHeight(fromHeight: uint64, finishedHeight: uint64, head: uint64): uint64 {
    if fromHeight != 0 then fromHeight
    else if finishedHeight != 0 then Uint64(finishedHeight + 1)
    else head
  }

  /** The crawl resumes without skipping or repeating a block exactly in these cases. */
  lemma ResumesNext(fromHeight: uint64, finished: uint64, head: uint64)
    requires finished + 1 < TWO_64
    ensures GetFromHeight(fromHeight, finished, head) == finished + 1 <==>
            (fromHeight == finished + 1) || (fromHeight == 0 && (finished != 0 || head == 1))
  {
  }

  /** Only whether there are events, and the first of them, matters. */
  lemma FirstEventDecides(p: Pool, evs: seq<Event>, fvs: seq<Event>, h: uint64, lookup: Result<PoolState>)
    requires evs != [] && fvs != [] && evs[0] == fvs[0]
    ensures PoolSpec(p, evs, h, lookup) == PoolSpec(p, fvs, h, lookup)
  {
  }

  lemma HeightNeverFalls(p: Pool, evs: seq<Event>, h: uint64, lookup: Result<PoolState>)
    ensures PoolSpec(p, evs, h, lookup).height >= p.height
  {
  }

  lemma PrefixEvents(es: seq<Event>, j: nat, k: nat, a: Address)
    requires j <= k <= |es|
    ensures EventsOf(es[..j], a) <= EventsOf(es[..k], a)
  {
    assert es[..k] == es[..j] + es[j..k];
    EventsOfConcat(es[..j], es[j..k], a);
  }

  /** Two runs over prefixes of one block amount to one run over the longer prefix. */
  lemma PrefixesMerge(p: Pool, es: seq<Event>, j: nat, k: nat, h: uint64, lookup: Result<PoolState>, a: Address)
    requires j <= |es| && k <= |es|
    ensures PoolSpec(PoolSpec(p, EventsOf(es[..j], a), h, lookup), EventsOf(es[..k], a), h, lookup) ==
            PoolSpec(p, EventsOf(es[..if j < k then k else j], a), h, lookup)
  {
    var x, y := EventsOf(es[..j], a), EventsOf(es[..k], a);
    PoolSpecSplit(p, x, y, h, lookup);
    if j < k {
      PrefixEvents(es, j, k, a);
    } else {
      PrefixEvents(es, k, j, a);
    }
    if x == [] {
      assert x + y == y;
    } else if y == [] {
      assert x + y == x;
    } else {
      FirstEventDecides(p, x + y, if j < k then y else x, h, lookup);
    }
  }

  // ---------- uninterrupted runs ----------

  /** The parsed events of every block that has any. */
  type Chain = imap<nat, seq<Event>>

  ghost function Block(chain: Chain, h: nat): seq<Event> {
    if h in chain then chain[h] else []
  }

  /** One pool after the blocks from..to, processed in order. */
  ghost function RunBlocks(p: Pool, chain: Chain, from: nat, till: int, a: Address, env: Env): Pool
    requires till < TWO_64
    decreases till - from
  {
    if till < from then p
    else PoolSpec(RunBlocks(p, chain, from, till - 1, a, env), EventsOf(Block(chain, till), a), till, Lookup(env, a))
  }

  // ---------- processed blocks settle ----------

  /** A block that changes a pool no more stays so while later blocks are processed. */
  lemma SettledStays(p: Pool, evs: seq<Event>, h: uint64, fvs: seq<Event>, k: uint64, lookup: Result<PoolState>)
    requires h <= k && PoolSpec(p, evs, h, lookup) == p
    ensures var q := PoolSpec(p, fvs, k, lookup); PoolSpec(q, evs, h, lookup) == q
  {
    if evs != [] && fvs != [] && !(p.height == 0 && lookup.Err?) {
      assert Loaded(p, lookup) == p && p.height >= h;
    }
  }

  lemma {:induction false} ProcessedBlocksSettle(p: Pool, chain: Chain, from: nat, till: int, h: nat, a: Address,
      env: Env)
    requires from <= h <= till < TWO_64
    ensures var q := RunBlocks(p, chain, from, till, a, env);
            PoolSpec(q, EventsOf(Block(chain, h), a), h, Lookup(env, a)) == q
    decreases till
  {
    var before := RunBlocks(p, chain, from, till - 1, a, env);
    var evs := EventsOf(Block(chain, till), a);
    if h == till {
      PoolSpecSplit(before, evs, evs, till, Lookup(env, a));
      if evs != [] {
        FirstEventDecides(before, evs + evs, evs, till, Lookup(env, a));
      }
    } else {
      ProcessedBlocksSettle(p, chain, from, till - 1, h, a, env);
      SettledStays(before, EventsOf(Block(chain, h), a), h, evs, till, Lookup(env, a));
    }
  }

  // ---------- crashes at event boundaries ----------

  /** One attempt at a block: the events before `upTo` were processed; `finished` if the finish height was recorded
      too. `restart` is the chain's head as the process saw it, if this is the first block of a process. */
  datatype Attempt = Attempt(restart: Option<uint64>, height: uint64, upTo: nat, finished: bool)

  /** A history of attempts, the latest one outermost. */
  datatype History = NoAttempt | Then(before: History, last: Attempt)

  function Attempts(ts: History): nat {
    match ts case NoAttempt => 0 case Then(before, _) => Attempts(before) + 1
  }

  function NewTop(top: nat, t: Attempt): (n: nat)
    ensures top <= n
  {
    if t.finished && t.height > top then t.height else top
  }

  function NewPartial(top: nat, partial: nat, t: Attempt): nat {
    if t.height != top + 1 then partial
    else if t.finished then 0
    else if partial < t.upTo then t.upTo
    else partial
  }

  /** The highest block finished so far, from `base` on. The recorded finish height can be lower: replays make it
      fall. */
  function Top(ts: History, base: nat): (top: nat)
    ensures base <= top
  {
    match ts case NoAttempt => base case Then(before, t) => NewTop(Top(before, base), t)
  }

  /** The longest prefix reached of the block after the highest finished one. */
  function Partial(ts: History, base: nat): nat {
    match ts case NoAttempt => 0 case Then(before, t) => NewPartial(Top(before, base), Partial(before, base), t)
  }

  /** An attempt above `base` at a block finished before or at the next one, and finished only if complete. */
  ghost predicate Fits(t: Attempt, base: nat, top: nat, chain: Chain) {
    && base < t.height <= top + 1
    && t.upTo <= |Block(chain, t.height)|
    && (t.finished ==> t.upTo == |Block(chain, t.height)|)
  }

  /** Every attempt fits. */
  ghost predicate Within(ts: History, base: nat, chain: Chain) {
    match ts
    case NoAttempt => true
    case Then(before, t) => Within(before, base, chain) && Fits(t, base, Top(before, base), chain)
  }

  function Take(es: seq<Event>, n: nat): seq<Event> {
    if n <= |es| then es[..n] else es
  }

  ghost function RunAttempts(p: Pool, ts: History, chain: Chain, a: Address, env: Env): Pool {
    match ts
    case NoAttempt => p
    case Then(before, t) =>
      PoolSpec(RunAttempts(p, before, chain, a, env), EventsOf(Take(Block(chain, t.height), t.upTo), a),
               t.height, Lookup(env, a))
  }

  lemma {:induction false} TopGrows(ts: History, base: nat, chain: Chain)
    requires Within(ts, base, chain)
    ensures Top(ts, base) <= base + Attempts(ts)
    ensures Partial(ts, base) <= |Block(chain, Top(ts, base) + 1)|
  {
    if ts.Then? {
      TopGrows(ts.before, base, chain);
      assert Fits(ts.last, base, Top(ts.before, base), chain);
    }
  }

  /** Where the pool is: one uninterrupted run of the blocks after `base` up to `top`, plus a prefix of the next
      block. */
  ghost function OneRun(p: Pool, top: nat, partial: nat, base: nat, chain: Chain, a: Address, env: Env): Pool
    requires top + 1 < TWO_64
  {
    PoolSpec(RunBlocks(p, chain, base + 1, top, a, env), EventsOf(Take(Block(chain, top + 1), partial), a), top + 1,
        Lookup(env, a))
  }

  lemma NoEvents(p: Pool, es: seq<Event>, h: uint64, lookup: Result<PoolState>, a: Address)
    ensures PoolSpec(p, EventsOf(Take(es, 0), a), h, lookup) == p
  {
    assert EventsOf(Take(es, 0), a) == [];
  }

  /** One more attempt at the block after the highest finished one. */
  lemma AttemptMerges(p: Pool, top: nat, partial: nat, upTo: nat, base: nat, chain: Chain, a: Address, env: Env)
    requires top + 1 < TWO_64 && partial <= |Block(chain, top + 1)| && upTo <= |Block(chain, top + 1)|
    ensures PoolSpec(OneRun(p, top, partial, base, chain, a, env), EventsOf(Take(Block(chain, top + 1), upTo), a),
            top + 1, Lookup(env, a))
            == OneRun(p, top, if partial < upTo then upTo else partial, base, chain, a, env)
  {
    PrefixesMerge(RunBlocks(p, chain, base + 1, top, a, env), Block(chain, top + 1), partial, upTo, top + 1,
        Lookup(env, a), a);
  }

  /** A whole block reached is one more block of the run. */
  lemma WholeBlock(p: Pool, top: nat, base: nat, chain: Chain, a: Address, env: Env)
    requires top + 2 < TWO_64 && base <= top
    ensures OneRun(p, top, |Block(chain, top + 1)|, base, chain, a, env) == OneRun(p, top + 1, 0, base, chain, a, env)
  {
    NoEvents(RunBlocks(p, chain, base + 1, top + 1, a, env), Block(chain, top + 2), top + 2, Lookup(env, a), a);
    assert Take(Block(chain, top + 1), |Block(chain, top + 1)|) == Block(chain, top + 1);
  }

  /** A pool that a block changes no more is not changed by a prefix of the block either. */
  lemma PrefixSettled(p: Pool, es: seq<Event>, upTo: nat, h: uint64, lookup: Result<PoolState>, a: Address)
    requires upTo <= |es| && PoolSpec(p, EventsOf(es, a), h, lookup) == p
    ensures PoolSpec(p, EventsOf(es[..upTo], a), h, lookup) == p
  {
    assert es[..|es|] == es;
    PrefixEvents(es, upTo, |es|, a);
    if EventsOf(es[..upTo], a) != [] {
      FirstEventDecides(p, EventsOf(es[..upTo], a), EventsOf(es, a), h, lookup);
    }
  }

  /** An attempt at an already finished block changes nothing. */
  lemma ReplayedAttempt(p: Pool, top: nat, partial: nat, h: nat, upTo: nat, base: nat, chain: Chain, a: Address,
      env: Env)
    requires top + 1 < TWO_64 && base < h <= top && upTo <= |Block(chain, h)|
    ensures var q := OneRun(p, top, partial, base, chain, a, env);
            PoolSpec(q, EventsOf(Take(Block(chain, h), upTo), a), h, Lookup(env, a)) == q
  {
    var before := RunBlocks(p, chain, base + 1, top, a, env);
    ProcessedBlocksSettle(p, chain, base + 1, top, h, a, env);
    SettledStays(before, EventsOf(Block(chain, h), a), h, EventsOf(Take(Block(chain, top + 1), partial), a), top + 1,
        Lookup(env, a));
    PrefixSettled(OneRun(p, top, partial, base, chain, a, env), Block(chain, h), upTo, h, Lookup(env, a), a);
  }

  /** The next attempt, wherever it fits, leaves the pool as one run would. */
  lemma AttemptIsOneRun(p: Pool, q: Pool, top: nat, partial: nat, t: Attempt, base: nat, chain: Chain, a: Address,
      env: Env)
    requires top + 2 < TWO_64 && base <= top && Fits(t, base, top, chain) && partial <= |Block(chain, top + 1)|
    requires q == OneRun(p, top, partial, base, chain, a, env)
    ensures PoolSpec(q, EventsOf(Take(Block(chain, t.height), t.upTo), a), t.height, Lookup(env, a))
            == OneRun(p, NewTop(top, t), NewPartial(top, partial, t), base, chain, a, env)
  {
    if t.height <= top {
      ReplayedAttempt(p, top, partial, t.height, t.upTo, base, chain, a, env);
    } else {
      AttemptMerges(p, top, partial, t.upTo, base, chain, a, env);
      if t.finished {
        WholeBlock(p, top, base, chain, a, env);
      }
    }
  }

  /** The attempts so far amount to one run. */
  ghost predicate AmountsToOneRun(p: Pool, ts: History, base: nat, chain: Chain, a: Address, env: Env) {
    && Top(ts, base) + 1 < TWO_64
    && RunAttempts(p, ts, chain, a, env) == OneRun(p, Top(ts, base), Partial(ts, base), base, chain, a, env)
  }

  lemma NoAttemptYet(p: Pool, base: nat, chain: Chain, a: Address, env: Env)
    requires base + 1 < TWO_64
    ensures AmountsToOneRun(p, NoAttempt, base, chain, a, env)
  {
    NoEvents(p, Block(chain, base + 1), base + 1, Lookup(env, a), a);
  }

  lemma RunOneMore(p: Pool, before: History, t: Attempt, chain: Chain, a: Address, env: Env)
    ensures RunAttempts(p, Then(before, t), chain, a, env) ==
            PoolSpec(RunAttempts(p, before, chain, a, env), EventsOf(Take(Block(chain, t.height), t.upTo), a),
                     t.height, Lookup(env, a))
  {
  }

  lemma OneMoreAttempt(p: Pool, before: History, t: Attempt, base: nat, chain: Chain, a: Address, env: Env)
      returns (q: Pool)
    requires AmountsToOneRun(p, before, base, chain, a, env) && Top(before, base) + 2 < TWO_64
    requires Fits(t, base, Top(before, base), chain)
    requires Partial(before, base) <= |Block(chain, Top(before, base) + 1)|
    ensures q == RunAttempts(p, Then(before, t), chain, a, env)
    ensures q == OneRun(p, NewTop(Top(before, base), t), NewPartial(Top(before, base), Partial(before, base), t),
                        base, chain, a, env)
  {
    q := RunAttempts(p, Then(before, t), chain, a, env);
    RunOneMore(p, before, t, chain, a, env);
    AttemptIsOneRun(p, RunAttempts(p, before, chain, a, env), Top(before, base), Partial(before, base), t,
                    base, chain, a, env);
  }

  lemma OneRunOneMore(p: Pool, q: Pool, before: History, t: Attempt, base: nat, chain: Chain, a: Address, env: Env)
    requires Top(before, base) + 2 < TWO_64 && Fits(t, base, Top(before, base), chain)
    requires q == RunAttempts(p, Then(before, t), chain, a, env)
    requires q == OneRun(p, NewTop(Top(before, base), t), NewPartial(Top(before, base), Partial(before, base), t),
                         base, chain, a, env)
    ensures AmountsToOneRun(p, Then(before, t), base, chain, a, env)
  {
  }

  /** However often blocks are cut short, and however far back attempts go, every event takes effect exactly once. */
  lemma {:induction false} ExactlyOnce(p: Pool, ts: History, base: nat, chain: Chain, a: Address, env: Env)
    requires Within(ts, base, chain) && base + Attempts(ts) + 1 < TWO_64
    ensures AmountsToOneRun(p, ts, base, chain, a, env)
  {
    match ts {
      case NoAttempt => NoAttemptYet(p, base, chain, a, env);
      case Then(before, t) =>
        TopGrows(before, base, chain);
        ExactlyOnce(p, before, base, chain, a, env);
        var q := OneMoreAttempt(p, before, t, base, chain, a, env);
        OneRunOneMore(p, q, before, t, base, chain, a, env);
    }
  }

  /** In particular, once every block begun is finished nothing remains of the interruptions. */
  lemma CrashesLeaveNoTrace(p: Pool, ts: History, base: nat, chain: Chain, a: Address, env: Env)
    requires Within(ts, base, chain) && base + Attempts(ts) + 1 < TWO_64
    requires Partial(ts, base) == 0
    ensures Top(ts, base) < TWO_64
    ensures RunAttempts(p, ts, chain, a, env) == RunBlocks(p, chain, base + 1, Top(ts, base), a, env)
  {
    ExactlyOnce(p, ts, base, chain, a, env);
    var top := Top(ts, base);
    NoEvents(RunBlocks(p, chain, base + 1, top, a, env), Block(chain, top + 1), top + 1, Lookup(env, a), a);
  }

  // ---------- the attempts that restarts lead to ----------

  /** The finish height on record: that of the last finished block, not of the highest. */
  function Recorded(ts: History, finish0: uint64): uint64 {
    match ts
    case NoAttempt => finish0
    case Then(before, t) => if t.finished then t.height else Recorded(before, finish0)
  }

  /** The attempts of processes started one after the other, with a configured height or without (0): a process begins
      where GetFromHeight says, and goes on with the next block while blocks finish. */
  ghost predicate Legal(ts: History, config: uint64, finish0: uint64, chain: Chain) {
    match ts
    case NoAttempt => true
    case Then(before, t) =>
      && Legal(before, config, finish0, chain)
      && t.upTo <= |Block(chain, t.height)|
      && (t.finished ==> t.upTo == |Block(chain, t.height)|)
      && match t.restart
         case Some(head) => t.height == GetFromHeight(config, Recorded(before, finish0), head)
         case None => before.Then? && before.last.finished && t.height == before.last.height + 1
  }

  /** The block before the first one that restarts can lead to. */
  function Base(config: uint64, finish0: uint64): nat {
    if config != 0 then config - 1 else finish0
  }

  /** With a configured height, or with a finish height on record, restarts never skip a block: they lead to blocks
      finished before, or to the next one. */
  lemma {:induction false} RestartsStayWithin(ts: History, config: uint64, finish0: uint64, chain: Chain)
    requires Legal(ts, config, finish0, chain)
    requires config != 0 || finish0 != 0
    requires Base(config, finish0) + Attempts(ts) + 1 < TWO_64
    ensures Within(ts, Base(config, finish0), chain)
    ensures config == 0 ==> Recorded(ts, finish0) == Top(ts, finish0)
    ensures ts.Then? && ts.last.finished ==> ts.last.height <= Top(ts, Base(config, finish0))
  {
    if ts.Then? {
      RestartsStayWithin(ts.before, config, finish0, chain);
      TopGrows(ts.before, Base(config, finish0), chain);
    }
  }

  /** So crashes and restarts, in both modes, amount to one run. */
  lemma RestartsExactlyOnce(p: Pool, ts: History, config: uint64, finish0: uint64, chain: Chain, a: Address, env: Env)
    requires Legal(ts, config, finish0, chain)
    requires config != 0 || finish0 != 0
    requires Base(config, finish0) + Attempts(ts) + 1 < TWO_64
    ensures AmountsToOneRun(p, ts, Base(config, finish0), chain, a, env)
  {
    RestartsStayWithin(ts, config, finish0, chain);
    ExactlyOnce(p, ts, Base(config, finish0), chain, a, env);
  }

  /** While no block is on record as finished, every process started saw the head `base + 1`. */
  predicate SameHead(ts: History, base: nat) {
    match ts
    case NoAttempt => true
    case Then(before, t) =>
      SameHead(before, base) && (t.restart.Some? && Recorded(before, 0) == 0 ==> t.restart.value == base + 1)
  }

  /** With neither, a process begins at the head it sees; then no block above `base` is skipped exactly when the head
      stays the same until a first block is finished. */
  lemma {:induction false} FirstStartIff(ts: History, base: nat, chain: Chain)
    requires Legal(ts, 0, 0, chain) && base + Attempts(ts) + 1 < TWO_64
    ensures Within(ts, base, chain) <==> SameHead(ts, base)
    ensures Within(ts, base, chain) ==> Recorded(ts, 0) == if Top(ts, base) == base then 0 else Top(ts, base)
  {
    if ts.Then? {
      FirstStartIff(ts.before, base, chain);
      if Within(ts.before, base, chain) {
        TopGrows(ts.before, base, chain);
      }
    }
  }

  /** A crash before that, and a head that has moved on: the blocks in between are skipped. */
  lemma FirstStartSkips(chain: Chain, head: uint64, later: uint64)
    requires 0 < head < later
    ensures var ts := Then(Then(NoAttempt, Attempt(Some(head), head, 0, false)),
                           Attempt(Some(later), later, |Block(chain, later)|, true));
            Legal(ts, 0, 0, chain) && !Within(ts, head - 1, chain)
  {
    var first := Then(NoAttempt, Attempt(Some(head), head, 0, false));
    assert Legal(NoAttempt, 0, 0, chain) && Recorded(NoAttempt, 0) == 0;
    assert Legal(first, 0, 0, chain) && Recorded(first, 0) == 0;
    assert Top(NoAttempt, head - 1) == head - 1;
    assert Top(first, head - 1) == head - 1;
  }

  // ---------- replay from a lower height ----------

  lemma TrackedIgnoresLookup(p: Pool, evs: seq<Event>, h: uint64, l: Result<PoolState>, m: Result<PoolState>)
    requires p.height > 0
    ensures PoolSpec(p, evs, h, l) == PoolSpec(p, evs, h, m)
  {
  }

  /** Processing any already processed blocks again changes nothing: for a tracked pool whatever the lookups now say,
      and for any pool while they say the same. */
  lemma {:induction false} ReplayChangesNothing(p: Pool, chain: Chain, from: nat, till: int, low: nat, high: int,
                                                a: Address, env: Env, later: Env)
    requires from <= low && high <= till < TWO_64
    requires RunBlocks(p, chain, from, till, a, env).height > 0 || Lookup(later, a) == Lookup(env, a)
    ensures var q := RunBlocks(p, chain, from, till, a, env);
            RunBlocks(q, chain, low, high, a, later) == q
    decreases high - low
  {
    if low <= high {
      var q := RunBlocks(p, chain, from, till, a, env);
      ReplayChangesNothing(p, chain, from, till, low, high - 1, a, env, later);
      ProcessedBlocksSettle(p, chain, from, till, high, a, env);
      if q.height > 0 {
        TrackedIgnoresLookup(q, EventsOf(Block(chain, high), a), high, Lookup(env, a), Lookup(later, a));
      }
    }
  }
}
