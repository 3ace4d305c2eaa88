/** The block pipeline as a state machine: dispatcher, crawler with a bounded pool, sequencer, consumer
    (task_dispatcher.go, block_crawler.go, sequencer.go). */
module Pipeline {
  import opened Ints
  import opened Types

  /** Where a worker is: fetching its block, wanting the sequencer's mutex, or inside Commit. */
  datatype Task = Fetching | Locking | Checking | Sleeping | Sending | Sent

  datatype Dispatcher = Waiting(height: nat) | Dispatching(next: nat, upTo: nat) | Putting(next: nat,
      upTo: nat) | Stopped

  datatype Crawler = Receiving | Submitting(height: nat) | Draining | Closed

  datatype Consumer = Taking | Handling(height: nat) | Ended

  /** The last three fields are history: the next height to dispatch, to hand to the pool, and to commit. */
  datatype State = State(
    head: nat, stopped: bool, dispatcher: Dispatcher,
    input: seq<nat>, inputClosed: bool,
    crawler: Crawler, tasks: map<nat, Task>, holder: Option<nat>, sequence: uint64,
    output: seq<nat>, outputClosed: bool,
    consumer: Consumer, delivered: seq<nat>,
    dispatched: nat, submitted: nat, committed: nat)

  datatype Step =
    | NewHead(height: nat) | Stop
    | Look | CheckStop | Put | EndRange
    | Recv | EndInput | Submit | CloseOutput
    | Fetch(k: nat) | Lock(k: nat) | Go(k: nat) | Wait(k: nat) | Send(k: nat) | Update(k: nat)
    | Take | Done | EndOutput

  const CAPACITY: nat := 1

  /** Commit's check `sequence + 1 == height`, on wrapping 64-bit numbers. */
  predicate IsNext(s: State, k: nat) {
    Uint64(s.sequence + 1) == k
  }

  predicate TaskAt(s: State, k: nat, t: Task) {
    k in s.tasks && s.tasks[k] == t
  }

  /** Head heights stay below 2^64 - 1, where the dispatch loop's counter would wrap. */
  predicate Enabled(s: State, step: Step, poolSize: nat) {
    match step
    case NewHead(h) => h + 1 < TWO_64
    case Stop => true
    case Look => s.dispatcher.Waiting? && s.head >= s.dispatcher.height
    case CheckStop => s.dispatcher.Dispatching? && s.dispatcher.next <= s.dispatcher.upTo
    case Put => s.dispatcher.Putting? && |s.input| < CAPACITY
    case EndRange => s.dispatcher.Dispatching? && s.dispatcher.next > s.dispatcher.upTo
    case Recv => s.crawler.Receiving? && s.input != []
    case EndInput => s.crawler.Receiving? && s.input == [] && s.inputClosed
    case Submit => s.crawler.Submitting? && |s.tasks| < poolSize
    case CloseOutput => s.crawler.Draining? && s.tasks == map[]
    case Fetch(k) => TaskAt(s, k, Fetching)
    case Lock(k) => TaskAt(s, k, Locking) && s.holder.None?
    case Go(k) => TaskAt(s, k, Checking) && IsNext(s, k)
    case Wait(k) => TaskAt(s, k, Checking) && !IsNext(s, k)
    case Send(k) => TaskAt(s, k, Sending) && |s.output| < CAPACITY
    case Update(k) => TaskAt(s, k, Sent)
    case Take => s.consumer.Taking? && s.output != []
    case Done => s.consumer.Handling?
    case EndOutput => s.consumer.Taking? && s.output == [] && s.outputClosed
  }

  /** Broadcast wakes every sleeper; the committing task is gone. */
  function Broadcast(tasks: map<nat, Task>, k: nat): map<nat, Task> {
    map j | j in tasks && j != k :: if tasks[j] == Sleeping then Locking else tasks[j]
  }

  function Next(s: State, step: Step, poolSize: nat): State
    requires Enabled(s, step, poolSize)
  {
    match step
    case NewHead(h) => s.(head := h)
    case Stop => s.(stopped := true)
    case Look => s.(dispatcher := Dispatching(s.dispatcher.height, s.head))
    case CheckStop =>
      if s.stopped then s.(dispatcher := Stopped, inputClosed := true)
      else s.(dispatcher := Putting(s.dispatcher.next, s.dispatcher.upTo))
    case Put =>
      s.(input := s.input + [s.dispatcher.next], dispatched := s.dispatched + 1,
         dispatcher := Dispatching(s.dispatcher.next + 1, s.dispatcher.upTo))
    case EndRange => s.(dispatcher := Waiting(s.dispatcher.upTo + 1))
    case Recv => s.(crawler := Submitting(s.input[0]), input := s.input[1..])
    case EndInput => s.(crawler := Draining)
    case Submit =>
      s.(tasks := s.tasks[s.crawler.height := Fetching], crawler := Receiving, submitted := s.submitted + 1)
    case CloseOutput => s.(crawler := Closed, outputClosed := true)
    case Fetch(k) => s.(tasks := s.tasks[k := Locking])
    case Lock(k) => s.(tasks := s.tasks[k := Checking], holder := Some(k))
    case Go(k) => s.(tasks := s.tasks[k := Sending])
    case Wait(k) => s.(tasks := s.tasks[k := Sleeping], holder := None)
    case Send(k) => s.(tasks := s.tasks[k := Sent], output := s.output + [k])
    case Update(k) =>
      s.(tasks := Broadcast(s.tasks, k), holder := None, sequence := Uint64(k), committed := s.committed + 1)
    case Take => s.(consumer := Handling(s.output[0]), output := s.output[1..],
        delivered := s.delivered + [s.output[0]])
    case Done => s.(consumer := Taking)
    case EndOutput => s.(consumer := Ended)
  }

  /** main: the sequencer starts one below the first height, which wraps for height 0. */
  function Start(fromHeight: uint64, head: nat): State {
    State(head, false, Waiting(fromHeight), [], false, Receiving, map[], None, Uint64(fromHeight - 1),
          [], false, Taking, [], fromHeight, fromHeight, fromHeight)
  }

  // ---------- heights in order ----------

  /** lo, lo + 1, ..., hi - 1. */
  function Span(lo: nat, hi: nat): seq<nat> {
    if hi <= lo then [] else seq(hi - lo, i => lo + i)
  }

  lemma SpanGrows(lo: nat, hi: nat)
    requires lo <= hi
    ensures Span(lo, hi) + [hi] == Span(lo, hi + 1)
  {
  }

  lemma SpanShrinks(lo: nat, hi: nat)
    requires lo < hi
    ensures Span(lo, hi)[0] == lo && Span(lo, hi)[1..] == Span(lo + 1, hi)
  {
  }

  // ---------- the invariant ----------

  /** One past the last height sent to the output channel. */
  function SentUpTo(s: State): nat {
    if TaskAt(s, s.committed, Sent) then s.committed + 1 else s.committed
  }

  predicate Counters(s: State, from: nat, poolSize: nat) {
    && from <= s.committed <= s.submitted <= s.dispatched < TWO_64
    && s.submitted - s.committed <= poolSize
    && Uint64(s.sequence + 1) == s.committed
    && (match s.dispatcher
        case Waiting(h) => h == s.dispatched
        case Dispatching(i, upTo) => i == s.dispatched && i <= upTo + 1 < TWO_64
        case Putting(i, upTo) => i == s.dispatched && i <= upTo && upTo + 1 < TWO_64
        case Stopped => true)
    && s.head + 1 < TWO_64
  }

  /** The in-flight tasks are exactly the heights from `committed` up to `submitted`. */
  ghost predicate InFlight(s: State) {
    forall k: nat :: k in s.tasks <==> s.committed <= k < s.submitted
  }

  predicate Channels(s: State, from: nat) {
    && |s.input| <= CAPACITY && |s.output| <= CAPACITY
    && s.delivered + s.output == Span(from, SentUpTo(s))
    && (match s.crawler
        case Submitting(h) => h == s.submitted < s.dispatched && s.input == Span(h + 1, s.dispatched)
        case _ => s.input == Span(s.submitted, s.dispatched))
  }

  predicate Critical(t: Task) {
    t.Checking? || t.Sending? || t.Sent?
  }

  /** The mutex is held exactly by the one task inside Commit's critical section. */
  ghost predicate Mutex(s: State) {
    && (forall k :: k in s.tasks && Critical(s.tasks[k]) ==> s.holder == Some(k))
    && (s.holder.Some? ==> s.holder.value in s.tasks && Critical(s.tasks[s.holder.value]))
  }

  /** Only the next height passes the check, and it never sleeps: no wakeup is lost. */
  ghost predicate Wakeups(s: State) {
    forall k :: k in s.tasks ==>
      && (s.tasks[k].Sending? || s.tasks[k].Sent? ==> k == s.committed)
      && (s.tasks[k].Sleeping? ==> k != s.committed)
  }

  predicate Closing(s: State) {
    && (s.inputClosed <==> s.dispatcher.Stopped?)
    && (s.dispatcher.Stopped? ==> s.stopped)
    && (s.crawler.Draining? || s.crawler.Closed? ==> s.inputClosed && s.input == [])
    && (s.outputClosed <==> s.crawler.Closed?)
    && (s.crawler.Closed? ==> s.submitted == s.committed)
    && (s.consumer.Ended? ==> s.outputClosed && s.output == [])
  }

  ghost predicate Inv(s: State, from: nat, poolSize: nat) {
    Counters(s, from, poolSize) && InFlight(s) && Channels(s, from) && Mutex(s) && Wakeups(s) && Closing(s)
  }

  lemma StartInv(from: uint64, head: nat, poolSize: nat)
    requires head + 1 < TWO_64
    ensures Inv(Start(from, head), from, poolSize)
  {
    WrapNear(from - 1, TWO_64);
  }

  lemma {:induction false} IntervalSize(lo: nat, hi: nat, ks: set<nat>)
    requires lo <= hi && forall k: nat :: k in ks <==> lo <= k < hi
    ensures |ks| == hi - lo
    decreases hi
  {
    if lo == hi {
      assert ks == {};
    } else {
      IntervalSize(lo, hi - 1, ks - {hi - 1});
    }
  }

  lemma TasksSize(s: State)
    requires InFlight(s) && s.committed <= s.submitted
    ensures |s.tasks| == s.submitted - s.committed
  {
    IntervalSize(s.committed, s.submitted, s.tasks.Keys);
    assert |s.tasks| == |s.tasks.Keys|;
  }

  lemma DispatcherStep(s: State, step: Step, from: nat, poolSize: nat)
    requires Inv(s, from, poolSize) && Enabled(s, step, poolSize)
    requires step.NewHead? || step.Stop? || step.Look? || step.CheckStop? || step.EndRange?
    ensures Inv(Next(s, step, poolSize), from, poolSize)
  {
  }

  lemma PutStep(s: State, from: nat, poolSize: nat)
    requires Inv(s, from, poolSize) && Enabled(s, Put, poolSize)
    ensures Inv(Next(s, Put, poolSize), from, poolSize)
  {
    SpanGrows(if s.crawler.Submitting? then s.submitted + 1 else s.submitted, s.dispatched);
  }

  lemma RecvStep(s: State, from: nat, poolSize: nat)
    requires Inv(s, from, poolSize) && Enabled(s, Recv, poolSize)
    ensures Inv(Next(s, Recv, poolSize), from, poolSize)
  {
    SpanShrinks(s.submitted, s.dispatched);
  }

  lemma SubmitTasks(s: State, from: nat, poolSize: nat)
    requires Inv(s, from, poolSize) && Enabled(s, Submit, poolSize)
    ensures var n := Next(s, Submit, poolSize); InFlight(n) && Mutex(n) && Wakeups(n)
  {
  }

  lemma SubmitStep(s: State, from: nat, poolSize: nat)
    requires Inv(s, from, poolSize) && Enabled(s, Submit, poolSize)
    ensures Inv(Next(s, Submit, poolSize), from, poolSize)
  {
    TasksSize(s);
    SubmitTasks(s, from, poolSize);
    SubmitSent(s, poolSize);
  }

  lemma SubmitSent(s: State, poolSize: nat)
    requires Enabled(s, Submit, poolSize) && InFlight(s) && s.crawler.height == s.submitted
    ensures SentUpTo(Next(s, Submit, poolSize)) == SentUpTo(s)
  {
  }

  lemma ClosingStep(s: State, step: Step, from: nat, poolSize: nat)
    requires Inv(s, from, poolSize) && Enabled(s, step, poolSize)
    requires step.EndInput? || step.EndOutput? || step.Done?
    ensures Inv(Next(s, step, poolSize), from, poolSize)
  {
  }

  lemma CloseStep(s: State, from: nat, poolSize: nat)
    requires Inv(s, from, poolSize) && Enabled(s, CloseOutput, poolSize)
    ensures Inv(Next(s, CloseOutput, poolSize), from, poolSize)
  {
    TasksSize(s);
  }

  lemma FetchStep(s: State, k: nat, from: nat, poolSize: nat)
    requires Inv(s, from, poolSize) && Enabled(s, Fetch(k), poolSize)
    ensures Inv(Next(s, Fetch(k), poolSize), from, poolSize)
  {
  }

  lemma LockStep(s: State, k: nat, from: nat, poolSize: nat)
    requires Inv(s, from, poolSize) && Enabled(s, Lock(k), poolSize)
    ensures Inv(Next(s, Lock(k), poolSize), from, poolSize)
  {
  }

  lemma GoStep(s: State, k: nat, from: nat, poolSize: nat)
    requires Inv(s, from, poolSize) && Enabled(s, Go(k), poolSize)
    ensures Inv(Next(s, Go(k), poolSize), from, poolSize)
  {
  }

  lemma WaitStep(s: State, k: nat, from: nat, poolSize: nat)
    requires Inv(s, from, poolSize) && Enabled(s, Wait(k), poolSize)
    ensures Inv(Next(s, Wait(k), poolSize), from, poolSize)
  {
  }

  lemma SentAfterSend(s: State, k: nat, poolSize: nat)
    requires k == s.committed && Enabled(s, Send(k), poolSize)
    ensures SentUpTo(s) == k && SentUpTo(Next(s, Send(k), poolSize)) == k + 1
  {
  }

  lemma SendChannels(s: State, k: nat, from: nat, poolSize: nat)
    requires Channels(s, from) && k == s.committed && from <= k && Enabled(s, Send(k), poolSize)
    ensures Channels(Next(s, Send(k), poolSize), from)
  {
    SentAfterSend(s, k, poolSize);
    SpanGrows(from, k);
    ConcatAssociates(s.delivered, s.output, [k]);
  }

  lemma SendStep(s: State, k: nat, from: nat, poolSize: nat)
    requires Inv(s, from, poolSize) && Enabled(s, Send(k), poolSize)
    ensures Inv(Next(s, Send(k), poolSize), from, poolSize)
  {
    assert k == s.committed;
    SendChannels(s, k, from, poolSize);
  }

  lemma UpdateTasks(s: State, k: nat, from: nat, poolSize: nat)
    requires Inv(s, from, poolSize) && Enabled(s, Update(k), poolSize)
    ensures var n := Next(s, Update(k), poolSize);
            InFlight(n) && Mutex(n) && Wakeups(n) && SentUpTo(n) == SentUpTo(s)
  {
  }

  lemma UpdateSequence(k: nat)
    requires k + 1 < TWO_64
    ensures Uint64(k) == k && Uint64(k + 1) == k + 1
  {
    WrapNear(k, TWO_64);
    WrapNear(k + 1, TWO_64);
  }

  /** In particular Broadcast leaves no sleeper that could go on. */
  lemma UpdateStep(s: State, k: nat, from: nat, poolSize: nat)
    requires Inv(s, from, poolSize) && Enabled(s, Update(k), poolSize)
    ensures Inv(Next(s, Update(k), poolSize), from, poolSize)
  {
    UpdateTasks(s, k, from, poolSize);
    UpdateSequence(k);
  }

  lemma TakeStep(s: State, from: nat, poolSize: nat)
    requires Inv(s, from, poolSize) && Enabled(s, Take, poolSize)
    ensures Inv(Next(s, Take, poolSize), from, poolSize)
  {
    assert s.delivered + s.output == s.delivered + [s.output[0]] + s.output[1..];
  }

  /** Every step of every component keeps the invariant. */
  lemma StepInv(s: State, step: Step, from: nat, poolSize: nat)
    requires Inv(s, from, poolSize) && Enabled(s, step, poolSize)
    ensures Inv(Next(s, step, poolSize), from, poolSize)
  {
    match step {
      case NewHead(_) | Stop | Look | CheckStop | EndRange => DispatcherStep(s, step, from, poolSize);
      case Put => PutStep(s, from, poolSize);
      case Recv => RecvStep(s, from, poolSize);
      case Submit => SubmitStep(s, from, poolSize);
      case EndInput | EndOutput | Done => ClosingStep(s, step, from, poolSize);
      case CloseOutput => CloseStep(s, from, poolSize);
      case Fetch(k) => FetchStep(s, k, from, poolSize);
      case Lock(k) => LockStep(s, k, from, poolSize);
      case Go(k) => GoStep(s, k, from, poolSize);
      case Wait(k) => WaitStep(s, k, from, poolSize);
      case Send(k) => SendStep(s, k, from, poolSize);
      case Update(k) => UpdateStep(s, k, from, poolSize);
      case Take => TakeStep(s, from, poolSize);
    }
  }

  // ---------- runs ----------

  /** A run, the latest step outermost. */
  datatype Run = Begin | Then(before: Run, step: Step)

  predicate Possible(s: State, run: Run, poolSize: nat) {
    match run
    case Begin => true
    case Then(before, step) => Possible(s, before, poolSize) && Enabled(After(s, before, poolSize), step, poolSize)
  }

  function After(s: State, run: Run, poolSize: nat): State {
    match run
    case Begin => s
    case Then(before, step) =>
      var t := After(s, before, poolSize);
      if Enabled(t, step, poolSize) then Next(t, step, poolSize) else t
  }

  lemma {:induction false} RunInv(s: State, run: Run, from: nat, poolSize: nat)
    requires Inv(s, from, poolSize) && Possible(s, run, poolSize)
    ensures Inv(After(s, run, poolSize), from, poolSize)
  {
    if run.Then? {
      RunInv(s, run.before, from, poolSize);
      StepInv(After(s, run.before, poolSize), run.step, from, poolSize);
    }
  }

  /** Over every interleaving and every sequence of heads, the receiver gets fromHeight, fromHeight + 1, ... without
      gap or repeat; when it is told the input ended, it has got every dispatched height; and nothing is sent on a
      closed channel. */
  lemma DeliveredInOrder(from: uint64, head: nat, run: Run, poolSize: nat)
    requires head + 1 < TWO_64 && Possible(Start(from, head), run, poolSize)
    ensures var s := After(Start(from, head), run, poolSize);
            && (forall i :: 0 <= i < |s.delivered| ==> s.delivered[i] == from + i)
            && from + |s.delivered| <= s.dispatched < TWO_64
            && (s.consumer.Ended? ==> from + |s.delivered| == s.dispatched)
            && (Enabled(s, Put, poolSize) ==> !s.inputClosed)
            && (forall k :: Enabled(s, Send(k), poolSize) ==> !s.outputClosed)
  {
    StartInv(from, head, poolSize);
    RunInv(Start(from, head), run, from, poolSize);
    var s := After(Start(from, head), run, poolSize);
    DeliveredPrefix(s, from, poolSize);
  }

  /** Each channel holds at most one item, and at most `poolSize` blocks are being fetched or committed. */
  lemma BoundedQueues(from: uint64, head: nat, run: Run, poolSize: nat)
    requires head + 1 < TWO_64 && Possible(Start(from, head), run, poolSize)
    ensures var s := After(Start(from, head), run, poolSize);
            |s.input| <= 1 && |s.output| <= 1 && |s.tasks| <= poolSize
  {
    StartInv(from, head, poolSize);
    RunInv(Start(from, head), run, from, poolSize);
    TasksSize(After(Start(from, head), run, poolSize));
  }

  lemma DeliveredPrefix(s: State, from: nat, poolSize: nat)
    requires Inv(s, from, poolSize)
    ensures forall i :: 0 <= i < |s.delivered| ==> s.delivered[i] == from + i
    ensures from + |s.delivered| + |s.output| == SentUpTo(s) <= s.submitted
    ensures s.consumer.Ended? ==> SentUpTo(s) == s.dispatched
  {
    forall i | 0 <= i < |s.delivered| ensures s.delivered[i] == from + i {
      assert s.delivered[i] == (s.delivered + s.output)[i];
    }
    assert |s.delivered + s.output| == |Span(from, SentUpTo(s))|;
  }

  // ---------- no deadlock ----------

  /** The steps of crawler, workers, sequencer and consumer: all but the dispatcher's and the environment's. */
  predicate Internal(step: Step) {
    !(step.NewHead? || step.Stop? || step.Look? || step.CheckStop? || step.Put? || step.EndRange?)
  }

  /** Everything dispatched was delivered and handled; after a stop everything is shut down. */
  predicate Idle(s: State) {
    && s.committed == s.dispatched && s.output == []
    && !s.consumer.Handling?
    && (s.inputClosed ==> s.consumer.Ended?)
  }

  /** Some task can move whenever there is one and the output channel has room. */
  lemma TaskCanMove(s: State, from: nat, poolSize: nat) returns (step: Step)
    requires Inv(s, from, poolSize) && s.committed < s.submitted && s.output == []
    ensures Internal(step) && Enabled(s, step, poolSize)
  {
    var k := if s.holder.Some? then s.holder.value else s.committed;
    assert k in s.tasks;
    var t := s.tasks[k];
    step := if t.Fetching? then Fetch(k)
      else if t.Locking? then Lock(k)
      else if t.Checking? then (if IsNext(s, k) then Go(k) else Wait(k))
      else if t.Sending? then Send(k)
      else Update(k);
  }

  /** Until all is delivered, some internal step is enabled, for every pool size from 1 on. */
  lemma NoDeadlock(s: State, from: nat, poolSize: nat) returns (step: Step)
    requires Inv(s, from, poolSize) && poolSize >= 1 && !Idle(s)
    ensures Internal(step) && Enabled(s, step, poolSize)
  {
    if s.consumer.Handling? {
      step := Done;
    } else if s.output != [] {
      step := Take;
    } else if s.committed < s.submitted {
      step := TaskCanMove(s, from, poolSize);
    } else {
      TasksSize(s);
      match s.crawler {
        case Submitting(_) => step := Submit;
        case Receiving => step := if s.input != [] then Recv else EndInput;
        case Draining =>
          assert s.tasks == map[];
          step := CloseOutput;
        case Closed => step := EndOutput;
      }
    }
  }

  // ---------- the measure ----------

  function Rank(t: Task): nat {
    match t
    case Fetching => 6 case Locking => 5 case Checking => 4 case Sending => 3 case Sleeping => 0 case Sent => 0
  }

  function RankSum(tasks: map<nat, Task>, lo: nat, hi: nat): nat
    decreases hi - lo
  {
    if hi <= lo then 0
    else RankSum(tasks, lo, hi - 1) + if hi - 1 in tasks then Rank(tasks[hi - 1]) else 0
  }

  lemma {:induction false} RankSumSet(tasks: map<nat, Task>, lo: nat, hi: nat, k: nat, t: Task)
    requires k in tasks
    ensures RankSum(tasks[k := t], lo, hi) ==
            if lo <= k < hi then RankSum(tasks, lo, hi) - Rank(tasks[k]) + Rank(t) else RankSum(tasks, lo, hi)
    decreases hi - lo
  {
    if lo < hi {
      RankSumSet(tasks, lo, hi - 1, k, t);
    }
  }

  lemma {:induction false} RankSumNew(tasks: map<nat, Task>, lo: nat, k: nat, t: Task)
    requires lo <= k
    ensures RankSum(tasks[k := t], lo, k + 1) == RankSum(tasks, lo, k) + Rank(t)
  {
    RankSumFrame(tasks, tasks[k := t], lo, k);
  }

  lemma {:induction false} RankSumFrame(a: map<nat, Task>, b: map<nat, Task>, lo: nat, hi: nat)
    requires forall k: nat :: lo <= k < hi ==> (k in a <==> k in b) && (k in a ==> a[k] == b[k])
    ensures RankSum(a, lo, hi) == RankSum(b, lo, hi)
    decreases hi - lo
  {
    if lo < hi {
      RankSumFrame(a, b, lo, hi - 1);
    }
  }

  lemma {:induction false} RankSumBroadcast(tasks: map<nat, Task>, k: nat, hi: nat)
    requires k < hi && k in tasks && tasks[k] == Sent
    ensures RankSum(Broadcast(tasks, k), k + 1, hi) <= RankSum(tasks, k, hi) + 5 * (hi - k - 1)
    decreases hi
  {
    if k + 1 < hi {
      RankSumBroadcast(tasks, k, hi - 1);
    }
  }

  /** Enough for `heights` commits to pay for the sleepers each of them wakes. */
  function Reserve(heights: int, poolSize: nat): nat {
    if heights <= 0 then 0 else Reserve(heights - 1, poolSize) + 5 * poolSize + 1
  }

  /** Work left: what the heights not yet committed have in reserve, and what remains of the queues and tasks. */
  function Work(s: State, poolSize: nat): nat {
    Reserve(s.dispatched - s.committed, poolSize)
    + 8 * |s.input| + (match s.crawler case Submitting(_) => 9 case Receiving => 2 case Draining => 1 case Closed => 0)
    + RankSum(s.tasks, s.committed, s.submitted)
    + 2 * |s.output| + (match s.consumer case Handling(_) => 2 case Taking => 1 case Ended => 0)
  }

  lemma UpdateShrinksWork(s: State, k: nat, from: nat, poolSize: nat)
    requires Inv(s, from, poolSize) && Enabled(s, Update(k), poolSize)
    ensures Work(Next(s, Update(k), poolSize), poolSize) < Work(s, poolSize)
  {
    RankSumBroadcast(s.tasks, k, s.submitted);
  }

  /** A task that moves on, putting at most what it gives up into the output. */
  lemma TaskShrinksWork(s: State, k: nat, t: Task, holder: Option<nat>, output: seq<nat>, poolSize: nat)
    requires InFlight(s) && k in s.tasks
    requires Rank(t) + 2 * |output| < Rank(s.tasks[k]) + 2 * |s.output|
    ensures Work(s.(tasks := s.tasks[k := t], holder := holder, output := output), poolSize) < Work(s, poolSize)
  {
    RankSumSet(s.tasks, s.committed, s.submitted, k, t);
  }

  lemma SubmitShrinksWork(s: State, from: nat, poolSize: nat)
    requires Inv(s, from, poolSize) && Enabled(s, Submit, poolSize)
    ensures Work(Next(s, Submit, poolSize), poolSize) < Work(s, poolSize)
  {
    RankSumNew(s.tasks, s.committed, s.submitted, Fetching);
  }

  lemma QueueShrinksWork(s: State, step: Step, poolSize: nat)
    requires Enabled(s, step, poolSize)
    requires step.Recv? || step.EndInput? || step.CloseOutput? || step.Take? || step.Done? || step.EndOutput?
    ensures Work(Next(s, step, poolSize), poolSize) < Work(s, poolSize)
  {
  }

  lemma CommitShrinksWork(s: State, step: Step, k: nat, from: nat, poolSize: nat)
    requires Inv(s, from, poolSize) && Enabled(s, step, poolSize)
    requires step == Fetch(k) || step == Lock(k) || step == Go(k) || step == Wait(k) || step == Send(k)
    ensures Work(Next(s, step, poolSize), poolSize) < Work(s, poolSize)
  {
    match step {
      case Fetch(_) => TaskShrinksWork(s, k, Locking, s.holder, s.output, poolSize);
      case Lock(_) => TaskShrinksWork(s, k, Checking, Some(k), s.output, poolSize);
      case Go(_) => TaskShrinksWork(s, k, Sending, s.holder, s.output, poolSize);
      case Wait(_) => TaskShrinksWork(s, k, Sleeping, None, s.output, poolSize);
      case Send(_) => TaskShrinksWork(s, k, Sent, s.holder, s.output + [k], poolSize);
    }
  }

  /** Every internal step takes at least one unit of the work left. */
  lemma InternalShrinksWork(s: State, step: Step, from: nat, poolSize: nat)
    requires Inv(s, from, poolSize) && Internal(step) && Enabled(s, step, poolSize)
    ensures Work(Next(s, step, poolSize), poolSize) < Work(s, poolSize)
  {
    match step {
      case Submit => SubmitShrinksWork(s, from, poolSize);
      case Fetch(k) => CommitShrinksWork(s, step, k, from, poolSize);
      case Lock(k) => CommitShrinksWork(s, step, k, from, poolSize);
      case Go(k) => CommitShrinksWork(s, step, k, from, poolSize);
      case Wait(k) => CommitShrinksWork(s, step, k, from, poolSize);
      case Send(k) => CommitShrinksWork(s, step, k, from, poolSize);
      case Update(k) => UpdateShrinksWork(s, k, from, poolSize);
      case _ => QueueShrinksWork(s, step, poolSize);
    }
  }

  predicate AllInternal(run: Run) {
    match run case Begin => true case Then(before, step) => AllInternal(before) && Internal(step)
  }

  function Length(run: Run): nat {
    match run case Begin => 0 case Then(before, _) => Length(before) + 1
  }

  lemma InternalStep(s: State, step: Step, from: nat, poolSize: nat)
    requires Inv(s, from, poolSize) && Internal(step) && Enabled(s, step, poolSize)
    ensures Inv(Next(s, step, poolSize), from, poolSize)
    ensures Work(Next(s, step, poolSize), poolSize) < Work(s, poolSize)
    ensures Next(s, step, poolSize).dispatched == s.dispatched
  {
    InternalShrinksWork(s, step, from, poolSize);
    StepInv(s, step, from, poolSize);
  }

  /** Without new heights, the pipeline makes at most as many steps as there is work left. */
  lemma {:induction false} InternalRunsEnd(s: State, run: Run, from: nat, poolSize: nat)
    requires Inv(s, from, poolSize) && Possible(s, run, poolSize) && AllInternal(run)
    ensures Inv(After(s, run, poolSize), from, poolSize)
    ensures Length(run) + Work(After(s, run, poolSize), poolSize) <= Work(s, poolSize)
    ensures After(s, run, poolSize).dispatched == s.dispatched
  {
    if run.Then? {
      InternalRunsEnd(s, run.before, from, poolSize);
      InternalStep(After(s, run.before, poolSize), run.step, from, poolSize);
    }
  }

  /** So every schedule drains it: a run of internal steps that cannot go on has delivered and handled every
      dispatched height. */
  lemma EveryScheduleDrains(s: State, run: Run, from: nat, poolSize: nat)
    requires Inv(s, from, poolSize) && poolSize >= 1 && Possible(s, run, poolSize) && AllInternal(run)
    requires forall step :: Internal(step) ==> !Enabled(After(s, run, poolSize), step, poolSize)
    ensures After(s, run, poolSize).delivered == Span(from, s.dispatched)
    ensures Idle(After(s, run, poolSize))
  {
    InternalRunsEnd(s, run, from, poolSize);
    var t := After(s, run, poolSize);
    if !Idle(t) {
      var step := NoDeadlock(t, from, poolSize);
    }
    assert t.delivered + t.output == t.delivered;
  }

  // ---------- the dispatcher ----------

  /** The steps of the environment: a new head, or the request to stop. */
  predicate Outside(step: Step) {
    step.NewHead? || step.Stop?
  }

  /** No component can move by itself. */
  ghost predicate Stuck(s: State, poolSize: nat) {
    forall step :: !Outside(step) ==> !Enabled(s, step, poolSize)
  }

  /** The head announced last. */
  function LastHead(run: Run, head: nat): nat {
    match run
    case Begin => head
    case Then(before, NewHead(h)) => h
    case Then(before, _) => LastHead(before, head)
  }

  /** The highest head announced. */
  function HighestHead(run: Run, head: nat): nat {
    match run
    case Begin => head
    case Then(before, NewHead(h)) => if h > HighestHead(before, head) then h else HighestHead(before, head)
    case Then(before, _) => HighestHead(before, head)
  }

  predicate AskedToStop(run: Run) {
    run.Then? && (run.step.Stop? || AskedToStop(run.before))
  }

  lemma StepSignals(s: State, step: Step, poolSize: nat)
    requires Enabled(s, step, poolSize)
    ensures Next(s, step, poolSize).head == if step.NewHead? then step.height else s.head
    ensures Next(s, step, poolSize).stopped <==> s.stopped || step.Stop?
  {
  }

  /** The two cells hold the last head and whether a stop was asked for. */
  lemma {:induction false} RunSignals(s: State, run: Run, poolSize: nat)
    requires Possible(s, run, poolSize)
    ensures After(s, run, poolSize).head == LastHead(run, s.head)
    ensures After(s, run, poolSize).stopped <==> s.stopped || AskedToStop(run)
  {
    if run.Then? {
      RunSignals(s, run.before, poolSize);
      StepSignals(After(s, run.before, poolSize), run.step, poolSize);
    }
  }

  /** The range being dispatched ends at a head that was announced. */
  predicate WithinHeads(s: State, from: nat, highest: nat) {
    && (s.dispatched <= highest + 1 || s.dispatched == from)
    && s.head <= highest
    && (s.dispatcher.Dispatching? || s.dispatcher.Putting? ==> s.dispatcher.upTo <= highest)
  }

  lemma StepWithinHeads(s: State, step: Step, from: nat, poolSize: nat, highest: nat)
    requires Inv(s, from, poolSize) && Enabled(s, step, poolSize) && WithinHeads(s, from, highest)
    ensures WithinHeads(Next(s, step, poolSize), from,
                        if step.NewHead? && step.height > highest then step.height else highest)
  {
  }

  lemma {:induction false} NothingAboveHeads(from: uint64, head: nat, run: Run, poolSize: nat)
    requires head + 1 < TWO_64 && Possible(Start(from, head), run, poolSize)
    ensures WithinHeads(After(Start(from, head), run, poolSize), from, HighestHead(run, head))
  {
    if run.Then? {
      NothingAboveHeads(from, head, run.before, poolSize);
      StartInv(from, head, poolSize);
      RunInv(Start(from, head), run.before, from, poolSize);
      StepWithinHeads(After(Start(from, head), run.before, poolSize), run.step, from, poolSize,
                      HighestHead(run.before, head));
    }
  }

  /** Where nothing moves, all is delivered, and the dispatcher has stopped or waits for a head it has not seen. */
  lemma StuckIsIdle(s: State, from: nat, poolSize: nat)
    requires Inv(s, from, poolSize) && poolSize >= 1 && Stuck(s, poolSize)
    ensures Idle(s) && (s.dispatcher.Stopped? || (s.dispatcher.Waiting? && s.head < s.dispatched))
    ensures from + |s.delivered| == s.dispatched
  {
    if !Idle(s) {
      var step := NoDeadlock(s, from, poolSize);
      assert false;
    }
    DeliveredPrefix(s, from, poolSize);
    TasksSize(s);
    match s.dispatcher {
      case Waiting(_) => assert !Enabled(s, Look, poolSize);
      case Dispatching(next, upTo) =>
        assert !Enabled(s, CheckStop, poolSize) && !Enabled(s, EndRange, poolSize);
      case Putting(_, _) => assert !Enabled(s, Put, poolSize);
      case Stopped =>
    }
  }

  /** Unless asked to stop, the pipeline rests only when every height from the first one to the last announced head
      was delivered, and none above the highest. Asked to stop, it rests when the consumer was told the end; or, as
      the stop is noticed only when there is something to dispatch, when there is nothing. */
  lemma RestsCaughtUp(from: uint64, head: nat, run: Run, poolSize: nat)
    requires head + 1 < TWO_64 && poolSize >= 1 && Possible(Start(from, head), run, poolSize)
    requires Stuck(After(Start(from, head), run, poolSize), poolSize)
    ensures var s := After(Start(from, head), run, poolSize);
            && (!AskedToStop(run) ==> LastHead(run, head) < from + |s.delivered| && !s.consumer.Ended?)
            && (LastHead(run, head) < from + |s.delivered| || s.consumer.Ended?)
            && (from + |s.delivered| <= HighestHead(run, head) + 1 || s.delivered == [])
  {
    var s := After(Start(from, head), run, poolSize);
    StartInv(from, head, poolSize);
    RunInv(Start(from, head), run, from, poolSize);
    RunSignals(Start(from, head), run, poolSize);
    NothingAboveHeads(from, head, run, poolSize);
    StuckIsIdle(s, from, poolSize);
  }

  /** The dispatcher stops, and the end is announced, only when asked to. */
  lemma StopsOnlyWhenAsked(from: uint64, head: nat, run: Run, poolSize: nat)
    requires head + 1 < TWO_64 && Possible(Start(from, head), run, poolSize)
    ensures var s := After(Start(from, head), run, poolSize);
            s.dispatcher.Stopped? || s.inputClosed || s.consumer.Ended? ==> AskedToStop(run)
  {
    StartInv(from, head, poolSize);
    RunInv(Start(from, head), run, from, poolSize);
    RunSignals(Start(from, head), run, poolSize);
  }

  /** What is dispatched, and being handed over. */
  function Promised(s: State): nat {
    s.dispatched + if s.dispatcher.Putting? then 1 else 0
  }

  lemma StepHeedsStop(s: State, step: Step, poolSize: nat)
    requires s.stopped && Enabled(s, step, poolSize)
    ensures Next(s, step, poolSize).stopped && Promised(Next(s, step, poolSize)) <= Promised(s)
  {
  }

  /** Once a stop is asked for, at most the height being handed over is still dispatched. */
  lemma {:induction false} StopIsHeeded(s: State, run: Run, poolSize: nat)
    requires s.stopped && Possible(s, run, poolSize)
    ensures var t := After(s, run, poolSize);
            && t.stopped && t.dispatched <= Promised(t) <= Promised(s)
            && Promised(s) == if s.dispatcher.Putting? then s.dispatched + 1 else s.dispatched
  {
    if run.Then? {
      StopIsHeeded(s, run.before, poolSize);
      StepHeedsStop(After(s, run.before, poolSize), run.step, poolSize);
    }
  }

  // ---------- every component comes to rest ----------

  /** How many heights are still to be dispatched for the heads known. */
  function Ahead(s: State): int {
    match s.dispatcher
    case Waiting(h) => if s.head >= h then s.head + 1 - h else 0
    case Dispatching(i, upTo) => upTo + 1 - i + (if s.head > upTo then s.head - upTo else 0)
    case Putting(i, upTo) => upTo + 1 - i + (if s.head > upTo then s.head - upTo else 0)
    case Stopped => 0
  }

  function DispatcherRank(s: State): nat {
    match s.dispatcher
    case Waiting(h) => if s.head >= h then 3 else 0
    case Dispatching(i, upTo) => if i <= upTo then 2 else 4
    case Putting(_, _) => 1
    case Stopped => 0
  }

  /** What dispatching `heights` more will cost. */
  function Future(heights: int, poolSize: nat): nat {
    if heights <= 0 then 0 else Future(heights - 1, poolSize) + 5 * poolSize + 15
  }

  function FullWork(s: State, poolSize: nat): nat {
    Future(Ahead(s), poolSize) + DispatcherRank(s) + Work(s, poolSize)
  }

  lemma PutCosts(s: State, from: nat, poolSize: nat)
    requires Inv(s, from, poolSize) && Enabled(s, Put, poolSize)
    ensures Work(Next(s, Put, poolSize), poolSize) == Work(s, poolSize) + 5 * poolSize + 9
  {
  }

  lemma DispatcherShrinks(s: State, step: Step, from: nat, poolSize: nat)
    requires Inv(s, from, poolSize) && Enabled(s, step, poolSize)
    requires step.Look? || step.CheckStop? || step.EndRange? || step.Put?
    ensures FullWork(Next(s, step, poolSize), poolSize) < FullWork(s, poolSize)
  {
    if step.Put? {
      PutCosts(s, from, poolSize);
    }
  }

  lemma StepShrinks(s: State, step: Step, from: nat, poolSize: nat)
    requires Inv(s, from, poolSize) && Enabled(s, step, poolSize) && !Outside(step)
    ensures FullWork(Next(s, step, poolSize), poolSize) < FullWork(s, poolSize)
  {
    if Internal(step) {
      InternalShrinksWork(s, step, from, poolSize);
      InternalKeepsDispatcher(s, step, poolSize);
    } else {
      DispatcherShrinks(s, step, from, poolSize);
    }
  }

  lemma InternalKeepsDispatcher(s: State, step: Step, poolSize: nat)
    requires Internal(step) && Enabled(s, step, poolSize)
    ensures Ahead(Next(s, step, poolSize)) == Ahead(s)
    ensures DispatcherRank(Next(s, step, poolSize)) == DispatcherRank(s)
  {
  }

  predicate NoneOutside(run: Run) {
    run.Begin? || (!Outside(run.step) && NoneOutside(run.before))
  }

  /** While no head is announced, every component comes to rest after finitely many steps. With RestsCaughtUp:
      whatever the schedule, all heights up to the head are delivered. */
  lemma {:induction false} AllComesToRest(s: State, run: Run, from: nat, poolSize: nat)
    requires Inv(s, from, poolSize) && Possible(s, run, poolSize) && NoneOutside(run)
    ensures Inv(After(s, run, poolSize), from, poolSize)
    ensures Length(run) + FullWork(After(s, run, poolSize), poolSize) <= FullWork(s, poolSize)
  {
    if run.Then? {
      AllComesToRest(s, run.before, from, poolSize);
      var t := After(s, run.before, poolSize);
      StepShrinks(t, run.step, from, poolSize);
      StepInv(t, run.step, from, poolSize);
    }
  }
}
