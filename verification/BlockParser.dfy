/** From receipts to events (block_parser.go). Unpacking a log's data is left abstract: a log carries the unpacked
    values. */
module BlockParser {
  import opened Ints
  import opened TickKey
  import opened Types
  import opened EventReactors

  const MINT_TOPIC0: nat := 0x7a53080ba414158be7ec69b987b5fb7d07dee101fe85488f0853ae16239d0bde
  const BURN_TOPIC0: nat := 0x0c396cd989a39f4459b5fa1aed6a9a8dcdbc45908acfd67e028cd568da98982c
  const SWAP_TOPIC0: nat := 0x19b47279256b2a23a1665c810c8d55a1758940ee09377d4f8d26497a3577dc83

  /** `data` is None when the ABI cannot unpack it. */
  datatype Log = Log(address: Address, topics: seq<nat>, data: Option<seq<int>>)

  datatype Receipt = Receipt(status: nat, logs: seq<Log>)

  /** The unpacked data, if the numbers of topics and of values are right. */
  function ParseInput(log: Log, topicLen: nat, dataLen: nat): Option<seq<int>> {
    if |log.topics| != topicLen then None
    else match log.data
      case Some(d) => if |d| == dataLen then Some(d) else None
      case None => None
  }

  function ParseMint(log: Log): Option<Event> {
    match ParseInput(log, 4, 4)
    case Some(d) => Some(Mint(log.address, log.topics[2], log.topics[3], d[1]))
    case None => None
  }

  function ParseBurn(log: Log): Option<Event> {
    match ParseInput(log, 4, 3)
    case Some(d) => Some(Burn(log.address, log.topics[2], log.topics[3], d[0]))
    case None => None
  }

  function ParseSwap(log: Log): Option<Event> {
    match ParseInput(log, 3, 7)
    case Some(d) => Some(Swap(log.address, d[4]))
    case None => None
  }

  function ParseLog(log: Log): Option<Event> {
    if log.topics == [] then None
    else if log.topics[0] == MINT_TOPIC0 then ParseMint(log)
    else if log.topics[0] == BURN_TOPIC0 then ParseBurn(log)
    else if log.topics[0] == SWAP_TOPIC0 then ParseSwap(log)
    else None
  }

  /** The events of the logs that parse, in order. */
  function LogEvents(logs: seq<Log>): seq<Event> {
    Collect(ParseLog, logs)
  }

  /** The logs of the successful receipts, in order. */
  function BlockLogs(receipts: seq<Receipt>): seq<Log> {
    if receipts == [] then []
    else
      var rest, last := BlockLogs(receipts[..|receipts| - 1]), receipts[|receipts| - 1];
      if last.status == 1 then rest + last.logs else rest
  }

  method ParseReceipt(receipt: Receipt) returns (events: seq<Event>)
    ensures events == LogEvents(receipt.logs)
  {
    events := [];
    for i := 0 to |receipt.logs|
      invariant events == LogEvents(receipt.logs[..i])
    {
      CollectAppend(ParseLog, receipt.logs[..i], receipt.logs[i]);
      assert receipt.logs[..i + 1] == receipt.logs[..i] + [receipt.logs[i]];
      var parsed := ParseLog(receipt.logs[i]);
      if parsed.Some? {
        events := events + [parsed.value];
      }
    }
    assert receipt.logs[..|receipt.logs|] == receipt.logs;
  }

  // ---------- what the chain records ----------

  /** What a pool did, with its ticks as the pool knows them. */
  datatype Action =
    | Minted(pool: Address, lower: int24, upper: int24, amount: int)
    | Burned(pool: Address, lower: int24, upper: int24, amount: int)
    | Swapped(pool: Address, tick: int24)

  /** A signed value in a 256-bit topic, as the ABI's int types are encoded. */
  function TwosComplement(t: int24): nat {
    if t < 0 then TWO_256 + t else t
  }

  /** The log of an action; the owner and the other data values are arbitrary. */
  predicate Records(log: Log, action: Action) {
    && log.address == action.pool
    && log.data.Some?
    && match action
       case Minted(_, lower, upper, amount) =>
         && |log.topics| == 4 && log.topics[0] == MINT_TOPIC0
         && log.topics[2] == TwosComplement(lower) && log.topics[3] == TwosComplement(upper)
         && |log.data.value| == 4 && log.data.value[1] == amount
       case Burned(_, lower, upper, amount) =>
         && |log.topics| == 4 && log.topics[0] == BURN_TOPIC0
         && log.topics[2] == TwosComplement(lower) && log.topics[3] == TwosComplement(upper)
         && |log.data.value| == 3 && log.data.value[0] == amount
       case Swapped(_, tick) =>
         && |log.topics| == 3 && log.topics[0] == SWAP_TOPIC0
         && |log.data.value| == 7 && log.data.value[4] == tick
  }

  /** The action as an event with its ticks already narrowed. */
  function AsEvent(action: Action): Event {
    match action
    case Minted(a, lower, upper, amount) => Mint(a, lower, upper, amount)
    case Burned(a, lower, upper, amount) => Burn(a, lower, upper, amount)
    case Swapped(a, tick) => Swap(a, tick)
  }

  /** Reading a topic as an unsigned integer and keeping its low 64, then its low 32 bits, gives the tick back. */
  lemma TickDecodes(t: int24)
    ensures Narrow(TwosComplement(t)) == t && Narrow(t) == t
  {
    if t < 0 {
      var q := TWO_64 * TWO_64 * TWO_64 - 1;
      assert TWO_256 + t == TWO_64 * q + (TWO_64 + t);
      QuotientUnique(TWO_256 + t, TWO_64, q, TWO_64 + t);
      WrapIsModulo(TWO_256 + t, TWO_64);
    }
  }

  /** The event parsed from an action's log does to a pool what the action with its true ticks does. */
  lemma ParsedEventActs(log: Log, action: Action, p: Pool)
    requires Records(log, action)
    ensures ParseLog(log).Some? && ParseLog(log).value.address == action.pool
    ensures Apply(p, ParseLog(log).value) == Apply(p, AsEvent(action))
  {
    match action {
      case Minted(_, lower, upper, _) =>
        TickDecodes(lower);
        TickDecodes(upper);
      case Burned(_, lower, upper, _) =>
        TickDecodes(lower);
        TickDecodes(upper);
      case Swapped(_, tick) =>
        TickDecodes(tick);
    }
  }

  /** Logs that are none of the three kinds, or have not their shape. */
  predicate Noise(log: Log) {
    || log.topics == [] || log.topics[0] !in {MINT_TOPIC0, BURN_TOPIC0, SWAP_TOPIC0}
    || log.data.None?
    || |log.topics| != (if log.topics[0] == SWAP_TOPIC0 then 3 else 4)
    || |log.data.value| != (if log.topics[0] == MINT_TOPIC0 then 4 else if log.topics[0] == BURN_TOPIC0 then 3 else 7)
  }

  /** The logs record exactly the actions, in order, among noise. */
  predicate RecordAll(logs: seq<Log>, actions: seq<Action>) {
    if logs == [] then actions == []
    else
      var init, last := logs[..|logs| - 1], logs[|logs| - 1];
      if Noise(last) then RecordAll(init, actions)
      else actions != [] && Records(last, actions[|actions| - 1]) && RecordAll(init, actions[..|actions| - 1])
  }

  /** A block's events are its actions, one for one and in order, as far as their effect on a pool goes. */
  lemma {:induction false} BlockDecodes(logs: seq<Log>, actions: seq<Action>, i: nat, p: Pool)
    requires RecordAll(logs, actions)
    ensures |LogEvents(logs)| == |actions|
    ensures i < |actions| ==> LogEvents(logs)[i].address == actions[i].pool
    ensures i < |actions| ==> Apply(p, LogEvents(logs)[i]) == Apply(p, AsEvent(actions[i]))
  {
    if logs != [] {
      var init, last := logs[..|logs| - 1], logs[|logs| - 1];
      if Noise(last) {
        BlockDecodes(init, actions, i, p);
      } else {
        BlockDecodes(init, actions[..|actions| - 1], i, p);
        ParsedEventActs(last, actions[|actions| - 1], p);
      }
    }
  }

  // ---------- whole blocks ----------

  /** The events are the actions, one for one and in order, as far as pools and effects on them go. */
  ghost predicate SameEffects(events: seq<Event>, actions: seq<Action>) {
    && |events| == |actions|
    && (forall i :: 0 <= i < |events| ==> events[i].address == actions[i].pool)
    && (forall i, p :: 0 <= i < |events| ==> Apply(p, events[i]) == Apply(p, AsEvent(actions[i])))
  }

  /** Every receipt's logs record its actions. */
  ghost predicate RecordBlock(receipts: seq<Receipt>, actions: seq<seq<Action>>) {
    |receipts| == |actions| && forall i :: 0 <= i < |receipts| ==> RecordAll(receipts[i].logs, actions[i])
  }

  /** What happened in a block: the actions of the transactions with status 1, transaction by transaction. */
  function Did(receipts: seq<Receipt>, actions: seq<seq<Action>>): seq<Action>
    requires |receipts| == |actions|
  {
    if receipts == [] then []
    else
      var n := |receipts| - 1;
      Did(receipts[..n], actions[..n]) + if receipts[n].status == 1 then actions[n] else []
  }

  /** Of one transaction nothing happened unless its status is 1; and blocks happen part by part. */
  lemma DidOneByOne(receipts: seq<Receipt>, actions: seq<seq<Action>>, receipt: Receipt, last: seq<Action>)
    requires |receipts| == |actions|
    ensures receipt.status == 1 ==> Did(receipts + [receipt], actions + [last]) == Did(receipts, actions) + last
    ensures receipt.status != 1 ==> Did(receipts + [receipt], actions + [last]) == Did(receipts, actions)
  {
    assert (receipts + [receipt])[..|receipts|] == receipts && (actions + [last])[..|actions|] == actions;
  }

  lemma LogsDecode(logs: seq<Log>, actions: seq<Action>)
    requires RecordAll(logs, actions)
    ensures SameEffects(LogEvents(logs), actions)
  {
    BlockDecodes(logs, actions, 0, EMPTY_POOL);
    forall i, p | 0 <= i < |LogEvents(logs)|
      ensures LogEvents(logs)[i].address == actions[i].pool
      ensures Apply(p, LogEvents(logs)[i]) == Apply(p, AsEvent(actions[i]))
    {
      BlockDecodes(logs, actions, i, p);
    }
  }

  lemma SameEffectsConcat(es: seq<Event>, xs: seq<Action>, fs: seq<Event>, ys: seq<Action>)
    requires SameEffects(es, xs) && SameEffects(fs, ys)
    ensures SameEffects(es + fs, xs + ys)
  {
    forall i, p | 0 <= i < |es + fs|
      ensures (es + fs)[i].address == (xs + ys)[i].pool && Apply(p, (es + fs)[i]) == Apply(p, AsEvent((xs + ys)[i]))
    {
      if i >= |es| {
        assert (es + fs)[i] == fs[i - |es|] && (xs + ys)[i] == ys[i - |es|];
      }
    }
  }

  /** The parsed events of a block are what happened in it. */
  lemma {:induction false} ReceiptsDecode(receipts: seq<Receipt>, actions: seq<seq<Action>>)
    requires RecordBlock(receipts, actions)
    ensures SameEffects(LogEvents(BlockLogs(receipts)), Did(receipts, actions))
  {
    if receipts != [] {
      var n := |receipts| - 1;
      var rest := BlockLogs(receipts[..n]);
      ReceiptsDecode(receipts[..n], actions[..n]);
      LogsDecode(receipts[n].logs, actions[n]);
      CollectConcat(ParseLog, rest, receipts[n].logs);
      if receipts[n].status == 1 {
        SameEffectsConcat(LogEvents(rest), Did(receipts[..n], actions[..n]), LogEvents(receipts[n].logs), actions[n]);
      }
    }
  }

  method ParseBlock(height: uint64, receipts: seq<Receipt>) returns (be: BlockEvent)
    ensures be == BlockEvent(height, LogEvents(BlockLogs(receipts)))
    ensures forall actions :: RecordBlock(receipts, actions) ==> SameEffects(be.events, Did(receipts, actions))
  {
    var events := [];
    for i := 0 to |receipts|
      invariant events == LogEvents(BlockLogs(receipts[..i]))
    {
      assert receipts[..i + 1][..i] == receipts[..i];
      if receipts[i].status == 1 {
        var more := ParseReceipt(receipts[i]);
        CollectConcat(ParseLog, BlockLogs(receipts[..i]), receipts[i].logs);
        events := events + more;
      }
    }
    assert receipts[..|receipts|] == receipts;
    be := BlockEvent(height, events);
    forall actions | RecordBlock(receipts, actions) ensures SameEffects(be.events, Did(receipts, actions)) {
      ReceiptsDecode(receipts, actions);
    }
  }
}
