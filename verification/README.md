# A verified model of the Uniswap v3 tick-state indexer

The program crawls blocks in order, folds the Mint, Burn and Swap events of Uniswap v3 pools into a byte-keyed store
of per-tick `LiquidityNet`, and answers queries by turning those deltas into liquidity ranges and token amounts.
This project models it in Dafny and proves properties of the model; `dafny verify dfyconfig.toml` checks all of it.

The parts, from the bytes up:

| file | models |
|---|---|
| `Ints.dfy` | Go's and Solidity's fixed-width conversions and truncating division |
| `TickKey.dfy`, `RocksDb.dfy`, `DbWrap.dfy` | the ordered byte keys, the sorted byte store, and the typed store over it, which refines a map from (pool, tick) to `int` |
| `SafeDb.dfy` | per-address locking with double-checked lock creation, as a state machine over any number of threads |
| `Lens.dfy`, `Snapshot.dfy` | the contract's scans of the tick bitmap, and the snapshot made from them |
| `BlockParser.dfy`, `PoolStateGetter.dfy`, `EventReactor.dfy` | receipts to events, loading a pool on a miss, and the height-gated fold of events into the store |
| `Replay.dfy`, `ChainRefinement.dfy` | runs over many blocks: crashes, restarts, replays, and agreement with the chain |
| `Pipeline.dfy` | dispatcher, bounded workers, sequencer, channels and consumer, as a state machine over every interleaving |
| `Liquidity.dfy`, `Positions.dfy`, `Amounts.dfy`, `ApiServer.dfy` | prefix sums, window, split, amounts, and what the served ranges mean in terms of positions |
| `EndToEnd.dfy` | the composition: delivered receipts to stored pools to served liquidity |

The classes of the source (`RocksDB`, `rocksDBWrap`, `TickStateCollector`, `poolStateGetter`, `eventReactor`,
`PoolStateParams`) are classes here. `RocksDBWrap` keeps a ghost map `pools` from addresses to pools beside the real byte
map, and its invariant says that the bytes mean exactly those pools; every setter's contract is about that map.
Concurrent components are state machines whose steps are the source's blocking operations.

Main results:

- `EndToEnd.AnswerAfterBlocks`: whatever blocks were processed, a query for a tracked pool answers, at every tick of its
  window, the liquidity of the pool's base state plus the applied mints covering that tick minus the applied burns.
  Underneath are `Positions.HistoryServed`, `DbWrap.ScanIsTickList`, `Liquidity.BuildMeaning`, `Liquidity.SplitMeaning`.
- `ChainRefinement.RunRightIff`: over every run of attempts cut short anywhere, crashes, restarts, replays, API queries and
  late stores, a snapshot plus deltas equals the chain after every step, and would after any replay, exactly when no step
  drops, undoes or repeats anything that counts. Only attempts at the next block that meet the pool tracked and behind it
  matter, and late stores; what the chain did before the snapshot, or does after the run, does not.
  `EndToEnd.StoreRightIff` says it of the store.
- `EndToEnd.RunServesTheChain`: what a query then shows at a tick is all mints of the chain covering it minus all burns,
  although the store only saw a snapshot and later events.
- `Replay.ExactlyOnce` with `Replay.RestartsStayWithin`, and `Replay.ReplayChangesNothing`: as long as lookups answer the
  same and no query stores a snapshot late, crashes at event boundaries, restarts in either mode and replays leave no
  trace; `EndToEnd.StoreExactlyOnce` says it of the store.
- `Pipeline.DeliveredInOrder`, `Pipeline.NoDeadlock`, `Pipeline.RestsCaughtUp`, `Pipeline.AllComesToRest`: order, progress
  and completeness up to the announced head, over every interleaving; `EndToEnd.AnySchedule` carries the order over to the store.
- `SafeDb.Linearizable` and `SafeDb.OneLockPerAddress`.
- `Lens.FullScanExact` with `Lens.GetAllTicks`, `Lens.GetTicks` and `Snapshot.ScanIsSnapshot`.

## The code as written

- The reactor sets a pool's height inside the event loop (`event_reactor.go:61`) and skips events at or below it
  (`event_reactor.go:53`), so of several events of one pool in one block only the first takes effect. The model says so
  (`PoolSpec`), `ChainRefinement.SecondMintIsLost` is an input on which the store then differs from the chain, and
  `ChainRefinement.BlockRefinesIff` gives the exact condition under which it does not.
- A pool's initialization is none of the events: a pool that is queried between its creation and its initialization is
  stored with tick 0 and keeps it until its first swap (`ChainRefinement.InitializationIsMissed`). The same condition
  covers this (`OpenTick`).
- Reading a missing pool, fetching its snapshot and storing it are not under one lock, so an API query can store a
  snapshot over a pool that was loaded and moved on in between. That can leave ticks behind, undo events, or lower the
  height below events that the ticks already have, so that a replay counts them again
  (`ChainRefinement.LateStoreThenReplay`). `ChainRefinement.LateStoreRightIff` says exactly when it does none of these; for
  a snapshot no older than the highest finished block that is if it lists every tick at which the pool's net is not zero.
- RocksDB's range deletion excludes its end while the scan includes it, so deleting a pool can leave the entry at
  `MaxTick` (`DbWrap.DeletedPool`).
- A restart with finish height 0 and no configured height resumes at the chain's head (`Replay.ResumesNext`), so a crash
  before the first block is finished can skip blocks (`Replay.FirstStartIff`, `Replay.FirstStartSkips`).
- A window with offset 0 can miss the current tick because the division truncates; the server replaces offset 0 by 10
  (`ApiServer.WindowHoldsCurrent`, `ApiServer.PoolStateParams.Arrange`). With an offset so large that an end does not fit
  in 32 bits it can miss it too (`ApiServer.WrappedWindowMisses`), and an offset from 2^31 on, which parsing admits
  (`api_server.go:70`), narrows to a negative one: if the ends then fit, the window does not hold the current tick
  (`ApiServer.NarrowedWindowMisses`, `ApiServer.WindowHoldsCurrent`).
- A page of ticks can begin below its start, which is rounded toward zero (`Lens.NoneBelowStart`, `Lens.PageBelowStart`).
- `readme.md` and the code disagree, and the model follows the code: `readme.md:27-28` makes `type` and `format`
  optional with defaults `"2"` and `"html"`, while `api_server.go:21-33` demands every parameter and
  `api_server.go:85-91` turns unknown values into `"1"` and `"json"`; `readme.md:89-95` shows `Liquidity` and
  `SqrtPriceX96` in the answer, which the served state does not have.

## Model

| member | source | states |
|---|---|---|
| Ints.WrapIsModulo | db_wrap.go:177-179 | Go's wrapping conversions keep the low bits: the recursive wrap is the residue modulo 2^n |
| Ints.TruncDivRemainder | liquidity_to_amount.go:161-161 | Division toward zero leaves a remainder below the divisor with the sign of the dividend |
| Ints.Int32Ring | liquidity_to_amount.go:160-165 | Wrapping intermediate results does not show in a wrapped sum, difference or product |
| TickKey.BigEndianRoundTrip | db_wrap.go:171-189 | A number that fits is read back from its big-endian bytes |
| TickKey.BigEndianOrder | tick_key.go:48-52 | Big-endian bytes of equal length compare lexicographically as their numbers do |
| TickKey.OrderedBytesRoundTrip | tick_key.go:48-59 | The sign-flipped encoding of every int32 decodes to it |
| TickKey.OrderedBytesOnto | tick_key.go:54-59 | Every four bytes are the encoding of the tick they decode to, so no two ticks share bytes and no bytes are unused |
| TickKey.OrderedBytesOrder | tick_key.go:48-52 | The encoding compares as the signed ticks do, negatives first |
| TickKey.TickStateKeyRoundTrip | tick_key.go:18-36 | Address and tick are read back from the 26-byte key |
| TickKey.TickStateKeyOrder | tick_key.go:30-36 | Keys compare lexicographically iff (address, signed tick) pairs do |
| TickKey.TickScanBounds | tick_key.go:30-36 | A key of any length between two keys of one pool starts with that pool's prefix, and a 26-byte one is a key of that pool with a tick in between |
| TickKey.CopyInto | tick_key.go:30-36 | Copying into a buffer replaces exactly the addressed bytes |
| TickKey.GetTickStateKey | tick_key.go:30-36 | The buffer filled in place is prefix, address, ordered tick bytes |
| Types.EventsOfConcat | event_reactor.go:35-62 | Taking one pool's events of a block distributes over cutting the block anywhere |
| Types.ListsUnique | db_wrap.go:142-149 | There is only one ascending list of exactly the entries of a map within bounds |
| Types.WriteThenList | db_wrap.go:248-306 | Writing an ascending in-range tick list to an empty pool and listing it gives the same list |
| RocksDb.ScanUnique | rocks_db.go:125-149 | The contents and the bounds determine a scan: ascending, complete, nothing else |
| RocksDb.RocksDB.GetRange | rocks_db.go:125-149 | The iterator loop returns exactly the entries with from <= key <= to, strictly ascending by bytes |
| RocksDb.RocksDB.WriteBatch | rocks_db.go:151-153 | The operations of a batch take effect in order, a range deletion excluding its end |
| DbWrap.IntCodecsRoundTrip | db_wrap.go:171-189 | int32 and uint64 values are read back from their stored bytes |
| DbWrap.KeyKinds | db_wrap.go:11-38 | Keys of different kinds never meet, and keys of one kind tell pools apart |
| DbWrap.PutHeight | db_wrap.go:229-232 | Writing the height bytes changes, of all pools and all fields, this pool's height |
| DbWrap.PutCurrentTick | db_wrap.go:191-194 | Writing the current-tick bytes changes, of all pools and all fields, this pool's current tick |
| DbWrap.PutTickSpacing | db_wrap.go:210-213 | Writing the spacing bytes changes, of all pools and all fields, this pool's spacing |
| DbWrap.PutTick | db_wrap.go:74-81 | Writing a tick's bytes changes this one entry of this one pool |
| DbWrap.HeightReadBack | db_wrap.go:274-289 | A height stored through Uint64 and read through int64 comes back exactly if it is from 0 to 2^63 - 1, or -2^63 |
| DbWrap.SnapshotReadBack | db_wrap.go:248-306 | Over any pool, storing a snapshot and reading it gives it back iff its numbers come back, its height is not 0, its ticks ascend within range, and it writes over every tick a scan still finds |
| DbWrap.DeletedPool | db_wrap.go:308-326 | A deleted pool reads as absent, and a scan still finds exactly the entry at MaxTick if there was one |
| DbWrap.DeletedIsEmpty | db_wrap.go:308-326 | A deletion leaves nothing at all of a pool iff its ticks were all in [MinTick, MaxTick) |
| DbWrap.InDeletedRange | db_wrap.go:321-323 | Of all tick keys, the deletion range holds exactly this pool's from MinTick up to but without MaxTick |
| DbWrap.DeleteEffect | db_wrap.go:308-326 | The deletion batch changes no other pool, and not the finish height |
| DbWrap.ScanKey | db_wrap.go:142-149 | No key of another length, kind or pool lies within a pool's scan bounds, so the key-length panic is never hit |
| DbWrap.ScanIsTickList | db_wrap.go:123-149 | A pool's scan, decoded, is its in-range ticks ascending |
| DbWrap.TickStateCollector.Add | db_wrap.go:112-117 | The state is appended to its own pool's list |
| DbWrap.EmptyStore | db_wrap.go:68-72 | An empty byte store means no pool and finish height 0 |
| DbWrap.RocksDBWrap.constructor | db_wrap.go:68-72 | Over any well-formed byte store, as a restart finds it, the store's pools and finish height are what its bytes mean |
| DbWrap.RocksDBWrap.SetFinishHeight | db_wrap.go:151-155 | The finish height becomes the given one, all pools stay |
| DbWrap.RocksDBWrap.GetFinishHeight | db_wrap.go:157-169 | The finish height last set, 0 at first |
| DbWrap.RocksDBWrap.SetTickState | db_wrap.go:74-81 | This entry of this pool is set, all else stays |
| DbWrap.RocksDBWrap.GetTickState | db_wrap.go:83-100 | The stored entry, or nothing |
| DbWrap.RocksDBWrap.SetCurrentTick | db_wrap.go:191-194 | The pool's current tick is set, all else stays |
| DbWrap.RocksDBWrap.GetCurrentTick | db_wrap.go:196-208 | The pool's current tick, 0 when absent |
| DbWrap.RocksDBWrap.SetTickSpacing | db_wrap.go:210-213 | The pool's spacing is set, all else stays |
| DbWrap.RocksDBWrap.GetTickSpacing | db_wrap.go:215-227 | The pool's spacing, 0 when absent |
| DbWrap.RocksDBWrap.SetHeight | db_wrap.go:229-232 | The pool's height is set, all else stays |
| DbWrap.RocksDBWrap.GetHeight | db_wrap.go:234-246 | The pool's height, 0 when absent |
| DbWrap.RocksDBWrap.GetRange | db_wrap.go:123-140 | The collected lists hold every scanned entry, under its pool, in scan order |
| DbWrap.RocksDBWrap.GetTickStates | db_wrap.go:142-149 | Exactly this pool's entries in [MinTick, MaxTick], strictly ascending |
| DbWrap.RocksDBWrap.GetPoolState | db_wrap.go:248-281 | Nothing at height 0, else the pool's fields and in-range ticks |
| DbWrap.RocksDBWrap.SetPoolState | db_wrap.go:283-306 | One batch stores height, tick and spacing, narrowed, and every tick; other pools stay |
| DbWrap.RocksDBWrap.DeletePoolState | db_wrap.go:308-326 | The pool loses its fields and its ticks in [MinTick, MaxTick); other pools and the finish height stay |
| PoolStateGetters.PoolStateGetter.DecoratePoolState | pool_state_getter.go:33-47 | The pair's tokens are attached, exchanged when the pair is reversed |
| PoolStateGetters.PoolStateGetter.GetPoolState | pool_state_getter.go:49-83 | The answer comes from the store, else from the chain; only a successful chain read of a missing pool is stored, and only in that pool |
| PoolStateGetters.QueryAnswers | pool_state_getter.go:49-83 | In terms of the pair cache, the store and the lens: which of the four errors a query gets and when; else the tokens are the pair's, first the second one iff it is reversed, and the state is the stored one, or the lens's for an absent pool |
| PoolStateGetters.LoadsOnlyOnMiss | pool_state_getter.go:50-77 | A pool is stored iff it is absent, its pair cached, unfiltered and of protocol 3, and the lens answers |
| PoolStateGetters.SecondQueryAgrees | pool_state_getter.go:63-82 | For any absent pool the second query, from the store, repeats the first, from the chain, iff the snapshot is storable and writes over every tick left |
| PoolStateGetters.LeftOver | db_wrap.go:308-326 | An absent pool has nothing left, unless it was deleted: then the snapshot has to list MaxTick if the pool did |
| EventReactors.EventReactor.GetOrNewTickState | event_reactor.go:122-133 | The stored entry, an absent one counting as 0 |
| EventReactors.EventReactor.ReactTick | event_reactor.go:116-120 | The amount is added to this entry of this pool |
| EventReactors.EventReactor.ReactEvent | event_reactor.go:93-114 | A Mint adds at the lower and takes at the upper tick, a Burn the reverse, a Swap sets the tick; other pools stay |
| EventReactors.EventReactor.ReactOne | event_reactor.go:35-62 | One event: load on height 0, gate by height, apply, set the height; a lookup error aborts iff it is not ignorable |
| EventReactors.EventReactor.ReactBlockEvent | event_reactor.go:32-66 | The block aborts iff an event's pool is absent, its pair cached, unfiltered and of protocol 3, and the lens does not answer; otherwise every pool ends as the per-pool rule says, of its first event only, and the block is recorded as finished; on abort exactly the events before took effect and the finish height is unchanged |
| EventReactors.FatalIff | event_reactor.go:23-49 | Which lookups abort, in terms of the raw answers |
| EventReactors.SkippedEvents | event_reactor.go:41-46 | Events of absent pools whose pair is unknown, filtered or of another protocol skip only themselves |
| EventReactors.ApplyFrame | event_reactor.go:93-114 | An event changes its ticks' entries, or the current tick, and nothing else of the pool |
| EventReactors.PoolSpecSplit | event_reactor.go:35-62 | A block's events for a pool can be processed in any number of groups |
| EventReactors.LoadIdempotent | pool_state_getter.go:63-77 | Storing one snapshot twice is storing it once |
| Replay.PrefixesMerge | event_reactor.go:35-62 | Processing two prefixes of one block is processing the longer one |
| Replay.ReplayedAttempt | event_reactor.go:53-61 | Attempting a prefix of an already finished block changes nothing, also while a later block is half processed |
| Replay.ExactlyOnce | event_reactor.go:41-65 | With one set of lookup answers and no queries in between: after any sequence of attempts cut short at event boundaries, each at a block finished before or at the next one, a pool is as after one uninterrupted run plus the longest prefix reached of the next block |
| Replay.RestartsStayWithin | task_dispatcher.go:133-148 | With a configured height, where replays make the recorded finish height fall, or with a finish height on record, restarts lead to no other attempts than those |
| Replay.RestartsExactlyOnce | task_dispatcher.go:133-148 | So in both modes crashes and restarts alone amount to one run |
| Replay.FirstStartIff | task_dispatcher.go:142-147 | With neither, no block is skipped iff the head stays the same until a first block is finished |
| Replay.FirstStartSkips | task_dispatcher.go:142-147 | Inputs on which a crash before that skips blocks |
| Replay.CrashesLeaveNoTrace | task_dispatcher.go:133-140 | Under the same conditions, once every block begun is finished, the store is that of the uninterrupted run |
| Replay.ProcessedBlocksSettle | event_reactor.go:53-61 | A processed block processed again, at any later time, changes nothing |
| Replay.ReplayChangesNothing | event_reactor.go:41-65 | Replaying any processed blocks changes nothing, for a tracked pool whatever the lookups now say |
| ChainRefinement.ApplyAllEffect | event_reactor.go:93-120 | Applied events change LiquidityNet at every tick by the sum of their deltas, and the current tick to the last swap's |
| ChainRefinement.BlockAgreesIff | event_reactor.go:53-61 | A tracked pool that agrees with the chain before a block and is behind it agrees after it iff what the block drops, or does unseen by initializing the pool, cancels out |
| ChainRefinement.BlockRefinesIff | event_reactor.go:35-62 | The same for every pool and block, loaded in it or not, ahead of it or not |
| ChainRefinement.AtMostOneCancels | event_reactor.go:53-61 | At most one event per block is one way to drop nothing |
| ChainRefinement.RightIff | event_reactor.go:53-61 | A pool is right - it equals the chain, and the first event of every finished block above its height has no effect - iff it equals the chain and still does after any finished block is processed again |
| ChainRefinement.AttemptIff | event_reactor.go:35-62 | An attempt at any finished block, or at any prefix of the next one, finished or not, keeps a right pool equal to the chain iff what it drops cancels out, and then keeps it right |
| ChainRefinement.LateStoreIff | pool_state_getter.go:63-77 | Storing a snapshot after other steps were taken, since reading, fetching and storing are not under one lock: exactly when this leaves the pool equal to the chain |
| ChainRefinement.LateStoreRightIff | pool_state_getter.go:63-77 | And exactly when it leaves it right, so that the lowered height lets no event be counted again |
| ChainRefinement.LateStoreThenReplay | pool_state_getter.go:63-77 | An input on which the first holds and the second does not, and a replay counts a mint twice |
| ChainRefinement.RunRightIff | event_reactor.go:32-66 | Over every run of attempts cut short or not, crashes, restarts, replays, API queries and late stores, each lookup with its own fresh answer: a pool is right after every step iff no step drops, undoes or repeats what counts |
| ChainRefinement.RestartsRefine | task_dispatcher.go:133-148 | In particular for what processes do that start where the restart rule says |
| ChainRefinement.RunRefinesIff | event_reactor.go:32-66 | Where queries are atomic, a pool equals the chain after every step of such a run under the same condition |
| ChainRefinement.RunRefines | event_reactor.go:32-66 | In such a run the pool is right at the end: if tracked, it equals the chain at the later of its height and the highest finished block |
| ChainRefinement.RefinesFromEmpty | pool_state_getter.go:63-82 | From an empty store, with crashes, restarts and replays, atomic queries, no answer from before the pool's initialization, and at most one event of the pool in each block reached, every run leaves the pool right |
| ChainRefinement.SecondMintIsLost | event_reactor.go:53-61 | An input with two events in a block on which the store misses one |
| ChainRefinement.InitializationIsMissed | pool_state_getter.go:63-77 | A pool queried before its initialization, which keeps tick 0 afterwards |
| Liquidity.BuildRangeLiquidityArray | liquidity_to_amount.go:22-52 | One range per pair of neighbouring ticks, with the prefix sum as liquidity |
| Liquidity.BuildMeaning | liquidity_to_amount.go:22-52 | At a tick between the first and last stored one the ranges give the sum of the deltas up to it, elsewhere 0 |
| Liquidity.BuildBalanced | liquidity_to_amount.go:22-52 | If the deltas sum to 0, dropping the last prefix sum loses nothing: the ranges give the sum at every tick |
| Liquidity.BuildSorted | liquidity_to_amount.go:22-52 | The built ranges are not empty, do not overlap and ascend |
| Liquidity.BuildCovers | liquidity_to_amount.go:43-49 | Every tick from the first stored one to the last has a range covering it |
| Liquidity.FilterRangeLiquidityArray | liquidity_to_amount.go:86-99 | The loop keeps exactly the ranges that meet the window |
| Liquidity.FilterMeaning | liquidity_to_amount.go:86-99 | Inside the window filtering does not change liquidity at any tick |
| Liquidity.FilterMembers | liquidity_to_amount.go:86-99 | A range is kept iff it was there and meets the window |
| Liquidity.SplitToTickSpacingRanges | liquidity_to_amount.go:101-111 | Where the loop variable does not wrap around the loop ends and returns the pieces; an empty or reversed range has none |
| Liquidity.SplitsWellIff | liquidity_to_amount.go:101-111 | For all arguments: the loop ends with a partition of the range iff its variable does not wrap around |
| Liquidity.LoopEndIs | liquidity_to_amount.go:101-111 | Where the loop variable ends, in closed form, so that this can be told beforehand |
| Liquidity.PiecesPartition | liquidity_to_amount.go:101-111 | The pieces are contiguous from lower to upper, none empty, all of width tickSpacing but possibly the last |
| Liquidity.Int24Splittable | liquidity_to_amount.go:101-111 | No int32 overflow for bounds and spacings that fit in 24 bits |
| Liquidity.SplitRangeLiquidityArray | liquidity_to_amount.go:68-84 | Every range is replaced by its pieces with its liquidity, in order; with a spacing that is not positive only ranges without ticks can be split, into nothing |
| Liquidity.SplitMeaning | liquidity_to_amount.go:68-84 | Splitting does not change liquidity at any tick |
| Liquidity.SplitMembers | liquidity_to_amount.go:68-84 | A split range is not empty nor wider than the spacing, and lies in a range with its liquidity |
| Liquidity.SplitSorted | liquidity_to_amount.go:68-84 | Splitting keeps ranges sorted |
| Liquidity.SplitCovers | liquidity_to_amount.go:68-84 | A tick covered before the split is covered by a piece after it |
| Liquidity.FilterSplitFilter | api_server.go:127-132 | Filtering before splitting is a pure optimisation: Filter(Split(Filter(R))) = Filter(Split(R)) |
| Positions.SumAfterHistory | event_reactor.go:93-120 | Events of whole positions change the sum of the deltas up to any tick by the positions covering it |
| Positions.BalancedStays | event_reactor.go:93-120 | Conservation: the deltas of a pool sum to 0 after a history iff they did before |
| Positions.ServedIsSum | liquidity_to_amount.go:22-52 | For balanced deltas, scanning and prefix-summing gives the sum of the deltas up to the tick, at every tick |
| Positions.HistoryServed | liquidity_to_amount.go:22-52 | A history adds, at every tick, its mints covering the tick minus its burns covering it |
| Positions.ServedIsCoverage | event_reactor.go:93-120 | From an empty pool the served liquidity at every tick is mints covering it minus burns covering it |
| Positions.NotOverBurned | event_reactor.go:93-120 | If no position is over-burned, no tick has negative liquidity |
| Positions.ServedNotNegative | liquidity_to_amount.go:22-52 | Then every served range has liquidity >= 0 |
| Amounts.CalcRangeAmountArray | liquidity_to_amount.go:54-66 | One amount per range, in order |
| Amounts.AmountsAreTheWhitepapers | liquidity_to_amount.go:129-158 | The factor 2^96 cancels: L/sqrt(Pa) - L/sqrt(Pb) and L sqrt(Pb) - L sqrt(Pa), in whole tokens |
| Amounts.PowersOfTen | liquidity_to_amount.go:131-132 | The scale is 1 for 0 decimals and ten times more for each one more, negative numbers included |
| Amounts.AmountLabels | liquidity_to_amount.go:151-157 | An amount carries its range's bounds and liquidity |
| Amounts.SplitConserves | liquidity_to_amount.go:101-158 | Over exact reals both token totals are the same before and after the split |
| Amounts.AmountsNotNegative | liquidity_to_amount.go:129-158 | With increasing prices and liquidity >= 0 both amounts are >= 0 |
| ApiServer.PoolStateParams.Arrange | api_server.go:85-98 | Unknown types become "1", type "1" is answered in JSON, unknown formats become JSON, offset 0 becomes 10 |
| ApiServer.WindowEnds | liquidity_to_amount.go:160-165 | For all arguments the window is the exact one with its ends wrapped, whatever wraps on the way |
| ApiServer.WindowHoldsCurrent | liquidity_to_amount.go:160-165 | Where the exact ends fit in 32 bits: both are multiples of the spacing, and the window holds the current tick iff the offset is positive, or 0 where truncation did not round up |
| ApiServer.WrappedWindowMisses | liquidity_to_amount.go:160-165 | An offset, with spacing 60, whose ends do not fit, with the current tick outside the window |
| ApiServer.NarrowedWindowMisses | api_server.go:125-125 | An offset from 2^31 on, which narrows to a negative one, with ends that fit and an empty window |
| ApiServer.AnswerRanges | api_server.go:122-133 | The handler's filter, split, filter composition equals splitting the whole array and filtering once |
| ApiServer.WindowIs | api_server.go:123-125 | The answer's window in terms of the pool's tick and spacing and the offset asked for |
| ApiServer.AnswerMembers | api_server.go:127-132 | Every answered range meets that window; type 2 answers exactly the built ranges that do, type 3 pieces no wider than the spacing, each inside a built range and with its liquidity |
| ApiServer.AnswerMeaning | api_server.go:127-132 | Inside the window the answer has the liquidity of the unfiltered, unsplit array, for either type |
| ApiServer.AnswerCovers | api_server.go:127-132 | A tick of the window that stored ticks surround is covered by an answered range |
| ApiServer.AnswerShowsPrice | api_server.go:123-132 | In those cases the answer has a range covering the current tick, with the pool's liquidity there, if stored ticks surround it |
| ApiServer.StagesLiquidity | api_server.go:127-132 | Every answered range has the liquidity that the built ranges have at its lower end |
| BlockParser.ParseReceipt | block_parser.go:56-71 | The events of the logs that parse, in log order |
| BlockParser.ParseBlock | block_parser.go:39-54 | The events of the successful receipts, in order: for all actions the receipts' logs record, the events are those of the transactions with status 1, one for one, on the same pools and with the same effects |
| BlockParser.TickDecodes | event_reactor.go:96-102 | The 256-bit two's complement of an int24, read unsigned and narrowed to 64 and 32 bits, is the int24 |
| BlockParser.ParsedEventActs | block_parser.go:90-131 | The event parsed from an action's log does to a pool what the action with its true ticks does |
| BlockParser.BlockDecodes | block_parser.go:39-88 | A block's events are the recorded actions, one for one and in order, among other logs |
| BlockParser.ReceiptsDecode | block_parser.go:39-54 | What is parsed from the receipts is what happened: the actions of the transactions with status 1 |
| BlockParser.DidOneByOne | block_parser.go:42-48 | A transaction adds its actions to what happened iff its status is 1 |
| Lens.Rem256OfTruncation | UniswapV3Lens.sol:88-88 | The remainder is that of the division toward zero |
| Lens.BitStartIsFloorMod | UniswapV3Lens.sol:88-88 | uint8(uint24(x % 256)) is the floor modulus also for negative x, and word and bit give x back |
| Lens.WordBounds | UniswapV3Lens.sol:59-60 | The word bounds by truncation, shift and int16 conversion are the floor quotients |
| Lens.CompressedBounds | UniswapV3Lens.sol:59-60 | Every multiple of the spacing within the tick range has its word between them |
| Lens.TickFits | UniswapV3Lens.sol:76-76 | The int24 conversion of a set bit's index keeps it, and the int24 product with the spacing does not overflow |
| Lens.CountTicks | UniswapV3Lens.sol:62-67 | The first pass counts exactly the set bits |
| Lens.GetAllTicks | UniswapV3Lens.sol:56-81 | The second pass fills the array of that size exactly, with no write out of bounds and no slot left |
| Lens.FullScanExact | UniswapV3Lens.sol:56-81 | The result lists precisely the initialized ticks, strictly ascending, each with its own liquidity |
| Lens.GetPage | UniswapV3Lens.sol:90-101 | The loop over words stops at a full page, which is the beginning of the whole scan from its start |
| Lens.GetTicks | UniswapV3Lens.sol:83-102 | The first numTicks initialized ticks from the compressed start on, zero-padded; it reverts iff asked for none while there is one |
| Lens.PageIs | UniswapV3Lens.sol:90-101 | A page has the asked number of slots, the first ticks and then zeros; it reverts iff asked for none while there is one |
| Lens.FromExact | UniswapV3Lens.sol:83-102 | From any start, what is paged is exactly the initialized ticks at or after it, and the start rounded toward zero if that is initialized, strictly ascending |
| Lens.NoneBelowStart | UniswapV3Lens.sol:86-86 | No tick below the start is paged iff rounding toward zero does not lower it to an initialized tick |
| Lens.PageBelowStart | UniswapV3Lens.sol:86-86 | A pool and a start on which a page begins below the start |
| Lens.PageFromMinTick | UniswapV3Lens.sol:83-102 | Paging from MIN_TICK gives a beginning of the full scan |
| Snapshot.GetPoolState | contract_caller.go:120-138 | The lens answer, tick by tick, as a pool state |
| Snapshot.ScanIsStorable | contract_caller.go:120-138 | Whatever the full scan answers survives being stored and read back |
| Snapshot.StoredGlobals | UniswapV3Lens.sol:38-54 | A stored lens answer has the pool's own spacing, its current tick and the height it was read at |
| Snapshot.ScanIsSnapshot | UniswapV3Lens.sol:56-81 | Storing the scan of a pool stores the chain's net liquidity at every tick and its current tick, swapped or only initialized, which is what the refinement assumes of a lookup |
| Pipeline.StartInv | main.go:82-84 | The pipeline's start, including first height 0 where the sequence wraps, meets the invariant |
| Pipeline.StepInv | block_crawler.go:80-116 | Every step keeps: in-flight heights are exactly sequence+1 .. submitted-1, one task in the critical section, heights in order in every queue, no task of height sequence+1 asleep, channels closed only when drained |
| Pipeline.UpdateStep | sequencer.go:43-54 | In particular Broadcast leaves no sleeper that could go on |
| Pipeline.RunInv | sequencer.go:43-54 | The invariant holds after every run of steps in any order |
| Pipeline.DeliveredInOrder | block_crawler.go:80-116 | The receiver gets fromHeight, fromHeight+1, ... with no gap or repeat; at the end of input it got every dispatched height; nothing is sent on a closed channel |
| Pipeline.BoundedQueues | block_crawler.go:53-58 | Each of the two channels holds at most one item, and at most poolSize tasks are under way |
| Pipeline.NoDeadlock | sequencer.go:47-53 | For every pool size >= 1 some step is enabled until every dispatched height was delivered and handled |
| Pipeline.InternalShrinksWork | block_crawler.go:93-116 | Every step of crawler, workers, sequencer and consumer lowers a measure bounded below |
| Pipeline.InternalRunsEnd | block_crawler.go:93-116 | Without new heights a run is at most as long as the measure |
| Pipeline.EveryScheduleDrains | block_crawler.go:98-114 | A schedule that cannot go on has delivered exactly the dispatched heights and, after a stop, shut everything down |
| Pipeline.RestsCaughtUp | task_dispatcher.go:91-118 | Over every run: unless asked to stop, nothing can move only when every height up to the last announced head was delivered; asked to stop, only when the consumer was told the end or there is nothing to dispatch; and no height above the highest announced head is ever delivered |
| Pipeline.StopsOnlyWhenAsked | task_dispatcher.go:81-89 | The dispatcher stops, the input closes and the consumer ends only after a stop was asked for |
| Pipeline.StopIsHeeded | task_dispatcher.go:81-89 | Once it was, at most the height being handed over is still dispatched |
| Pipeline.NothingAboveHeads | task_dispatcher.go:99-116 | Nothing above the highest announced head is dispatched |
| Pipeline.AllComesToRest | task_dispatcher.go:91-118 | While no head is announced, all components together, dispatcher included, make finitely many steps |
| SafeDb.PoolStateReads | db_wrap.go:248-281 | The four reads of GetPoolState, made on one pool, answer what that pool reads as; at height 0 only the height is read |
| SafeDb.Perform | safe_db.go:55-137 | Each locked write, made by the store's own setter, changes the pool as the machine's write does, and no other pool nor the finish height |
| SafeDb.PerformRead | safe_db.go:62-123 | Each locked read, made by the store's own getter, sees what the machine's read does |
| SafeDb.ReactorWrites | event_reactor.go:93-120 | The writes that the reactor makes of an event, one after the other, amount to the event and its height |
| SafeDb.PutPoolIsPuts | db_wrap.go:283-306 | Storing a snapshot is putting its height, tick, spacing and ticks one by one |
| SafeDb.StepInv | safe_db.go:22-41 | Every step of every thread keeps: mutexes held as the threads' places say, one lock per address, every getter's reads so far from the present state |
| SafeDb.NotTogether | safe_db.go:55-67 | While a thread writes a pool no other one reads or writes it |
| SafeDb.Linearizable | safe_db.go:118-137 | Over every interleaving the operations' effects form a sequential execution that ends in the store, in which each getter saw a single state |
| SafeDb.OncePerOperation | safe_db.go:55-137 | What a thread called and what of it took effect are the same operations on the same addresses in the same order, but for the one it is in; each takes effect once, between its call and its return |
| SafeDb.OneLockPerAddress | safe_db.go:22-41 | Two answers of getOrCreateLock, at any two times, are one lock iff they are for one address |
| SafeDb.NoDeadlock | safe_db.go:22-41 | While an operation is under way some thread can move |
| EndToEnd.PutInput | block_parser.go:21-25 | One delivered block, parsed and reacted to, or cut short at a fatal lookup |
| EndToEnd.CommitOutput | block_crawler.go:80-91 | The consumer's loop leaves every pool as the fold of the per-pool rule over the blocks; a fatal lookup stops it within one block, all earlier ones being complete |
| EndToEnd.TrackingIsFold | event_reactor.go:32-66 | A stored pool is its base state with exactly the applied events on top |
| EndToEnd.ServedAfterBlocks | liquidity_to_amount.go:22-52 | After any blocks the served liquidity at every tick is the base's plus applied mints covering it minus applied burns |
| EndToEnd.HandlerPoolState | api_server.go:100-152 | Type 1 answers the pool's state; types 2 and 3 the amounts of the windowed ranges, in order, scaled by the decimals of the pool's first and second token; only the asked pool can get stored |
| EndToEnd.AnswerAfterBlocks | api_server.go:122-133 | After any blocks a query for a tracked pool answers, at every tick of its window and for either type, the base's liquidity plus applied mints covering the tick minus applied burns |
| EndToEnd.BlockIsAttempt | event_reactor.go:32-74 | A block that the consumer processed, whole or cut short at a fatal lookup, is to every pool an attempt, finished or not, at what happened in the block's successful transactions |
| EndToEnd.StoreHistoryIsRun | main.go:75-101 | Over any number of processes, blocks, API queries and late stores, the store is to every pool what a run of legal restarts leads to, and its finish height is the recorded one |
| EndToEnd.StoreRightIff | main.go:75-101 | So the exact condition of runs applies to the store's pools |
| EndToEnd.StoreExactlyOnce | main.go:75-101 | And with blocks only and one set of lookup answers, every pool of the store is that of one uninterrupted run plus the prefix reached of the next block |
| EndToEnd.TruthIsHistory | event_reactor.go:93-114 | The ticks of the chain's pool after a block are those of all its events up to that block, applied to an empty pool |
| EndToEnd.AgreeingTicksServe | liquidity_to_amount.go:22-52 | Ticks whose net liquidity agrees with the chain's serve, at every tick, all mints covering it minus all burns covering it |
| EndToEnd.QueryServesTheChain | api_server.go:122-133 | For a pool that equals the chain, a query answered from the store or from the chain, with whole or split ranges, shows at every tick of its window the chain's positions covering it |
| EndToEnd.QueryNotNegative | api_server.go:122-133 | If no position on chain is over-burned, no answered range has negative liquidity |
| EndToEnd.RunServesTheChain | event_reactor.go:32-66 | So does a query after every run of attempts, crashes, restarts, queries and late stores that drops, undoes and repeats nothing that counts |
| EndToEnd.AnySchedule | main.go:81-89 | However two crawls from one height are scheduled, with whatever heads, pool sizes and lookups per block, the consumer's store after the one with more blocks is that of the other processed further, and with equally many the same |

## Left out

- RPC, WebSocket subscription and retries (`contract_caller.go:22-73`, `task_dispatcher.go:35-79`, `retry.go`): a fetch eventually returns the block, and the heads, the pair cache's and the lens contract's answers are arbitrary parameters.
- RocksDB itself (options, iterators' memory, statistics, files): a map from byte strings to values; its operations do not fail, and no call follows `Close`.
- Gob encoding of `big.Int`, ABI unpacking and JSON: decoding what was encoded gives it back. A stored tick value is `Gob(n)`, and a log carries its unpacked data.
- `big.Int.Int64` and `Uint64` out of range: Go leaves the result undefined; the model reads the low 64 bits of the magnitude, with the sign for `Int64` only, as the implementation does.
- `big.Float` rounding and `math.Pow`: amounts are exact reals over an abstract positive square-root price; nothing is said about the floating-point result.
- `cache.go`, `pair.go`, `config.go`, `log.go`, `data_render.go`, `version.go`, `cmd/`, HTTP parsing and rendering: plumbing, or easy members only.
- Chain reorganisations, how promptly `Stop` is noticed, and crashes inside `reactEvent`: the code promises nothing there. Tick writes and `SetHeight` are separate writes, so the results about crashes hold at event boundaries.
- Atomicity of a whole Mint or Burn for concurrent readers: the locks cover single store operations only.
- EventReactors.EventReactor.ReactEvent: has no case for the panic on an unknown event type, because the parser produces only the three kinds.
- PoolStateGetters.PoolStateGetter.GetPoolState: the method itself reads, fetches and stores in one go; storing late is a step of its own in the runs of `ChainRefinement`.
- ChainRefinement.RunRightIff: steps of one pool follow one another at event boundaries: a late store falls between attempts, not between the reactor's own load and its writes; a lookup that is not stored late answers with the chain at or after the highest finished block, and the chain does not reorganise.
- Replay.ExactlyOnce: with one fixed set of lookup answers and nothing between the attempts; `ChainRefinement.RunRightIff` is without these limits, about agreement with the chain.
- Pipeline.StepInv: the update of the sequence, the broadcast and the unlock are one step, since the mutex is held throughout; a handler call takes finitely long; handing `FinInput` on and the stop check that precedes it are one step; head heights stay below 2^64 - 1, where the dispatch loop's counter would wrap. The sequencer, crawler and dispatcher are steps of one state machine rather than classes, because what is proved of them is about their interleaving.
- SafeDb.Linearizable: each call of the underlying store is one step; waiting writers do not hold back readers, so fairness is not stated. The lock table is part of a state machine rather than a class, for the same reason.
- Liquidity.SplitToTickSpacingRanges: asks that the loop variable does not wrap around; `Liquidity.SplitsWellIff` shows that otherwise the loop does not end with a partition, and it need not end at all.
- ApiServer.AnswerRanges: asks for a positive spacing below 2^23 and ascending in-range ticks, as the store and the lens give them; with spacing 0 the code panics.
- EndToEnd.HandlerPoolState: parsing of the HTTP request and rendering in JSON or HTML; the kind is one of the three, as `arrange` leaves it.
- ApiServer.WindowHoldsCurrent: where the exact ends do not fit in 32 bits, whether the window holds the current tick is said only through the wrapped ends of `ApiServer.WindowEnds`.
- Lens.GetAllTicks: gas and the contract's calls to the pool are not modelled; the bitmap has bits only where the pool contract sets them, at multiples of the spacing within the tick range.
