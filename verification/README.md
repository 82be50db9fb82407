# Verified models of the market-data and feature core

A Dafny 4.11 project beside the Python package `cvf`. It models the stateful machines that turn
exchange feeds into deterministic feature snapshots, and proves what they promise over every
run. `dafny verify dfyconfig.toml` checks all of it.

Operations that update objects in place are classes whose methods are proved equal to functions
on values; the theorems are about those functions, over all inputs and all runs.

| file | models | main results |
|---|---|---|
| `Levels`, `BinanceBook`, `OkxBook`, `FeatureBook` | the three local order books | a LIVE or synchronized book equals the exchange's book at its sequence id; what each book keeps while it waits, over runs; exactly when a bridge, a chain or a replay then succeeds; epochs are single stretches |
| `Scheduler`, `QueueOrder`, `Timeline`, `FeatureDriver`, `EventBus` | decision ticks, the reorder driver and the bus | the trace is the canonical merge of accepted events and ticks, in the order of the events' own fields, so live and replay agree; a tick finds every consumer knowing exactly its past; no deadlock |
| `RollingWindow`, `WindowGrowth`, `Lineage`, `PricePoints`, `PriceBars`, `PriceAnswers`, `PriceCache` | the bounded time window and the incremental price cache | the cache follows the window exactly through late inserts, eviction and trimming; counts, returns and lineage equal a plain scan; for bars, extremes and average true range the exact condition under which they do |
| `FeatureIndex`, `FeatureProtocol`, `FeatureWriter` | durable feature persistence | each id is persisted at most once through failures, cancellations, crashes and restarts, and the exact condition on a restart; batches flushed when full and in order; accounting; clean close |
| `RecentMap`, `Deduplicator` | the TTL and capacity bounded deduplicator | the exact condition for calling an identity a duplicate |
| `Compaction` | raw compaction, its audit and its crash sentinel | row-exact chunks; wherever it stops, replay accepts only nothing or everything |
| `DepthWalk` | depth-walk slippage | exact fill condition, bounds of the average, monotone slippage |
| `Common`, `Sequences` | results and sequence lemmas | |

Conventions of the model:

- Timestamps are integer microseconds before the last second of the year 9999, whose successor
  Python cannot represent; decimals are exact reals.
- `int(timestamp())` goes through a binary64 float. `PricePoints.SecondOf` models it exactly: the
  nearest float of the microseconds divided by a million, truncated toward zero. A time thus need
  not lie in the second it is filed under: not before 1970 with a fraction, and not just in front
  of a whole second from 2^34 seconds on (May 2514).
- The exchange is a history of absolute price-level writes. A diff `(U, u, pu)` lists every price
  written in `(pu, u]` at its value after `u`, and a snapshot lists the whole book. These are the
  assumptions of the book theorems, named `Faithful` in each book.
- SHA-256, CRC-32 and the squared logarithmic return are uninterpreted functions. Digests are
  256-bit values, sums wrap modulo 2^256.
- `receive_time_reorder_ms` is positive, as the settings require; with zero the driver could meet
  an event at its own watermark.
- Exceptions are `Failure` or `None` results. Where the code raises for a state it regards as
  impossible, the model asserts that the state cannot occur.
- Checks of constructor arguments (positive capacities, intervals and retentions) are preconditions.
- In `FeatureProtocol` a step is what happens between two awaits; a crash may follow any step.

## Model

| member | source | states |
|---|---|---|
| Levels.ApplySide | src/cvf/orderbook/binance.py:258-268 | the loop over absolute levels yields the specified side; quantity zero deletes, later levels win |
| Levels.SnapshotSide | src/cvf/orderbook/binance.py:248-255 | the snapshot loop yields the side of its positive levels |
| Levels.CarriedLevelsAdvanceSide | src/cvf/orderbook/binance.py:270-273 | levels that carry every price written in (after, upTo] take the exchange side from any id in between to upTo |
| Levels.SnapshotRebuildsSide | src/cvf/orderbook/binance.py:248-255 | a full snapshot rebuilds exactly the exchange side at its id |
| Levels.LastLevelDecides | src/cvf/orderbook/binance.py:258-268 | for any quantities the last level of a price decides it: zero deletes it, anything else replaces it, and other prices stay |
| Levels.LastPositiveLevelDecides | src/cvf/orderbook/binance.py:248-255 | in a snapshot the last positive level of a price decides it, and a price without one is not there |
| BinanceBook.StepConsistent | src/cvf/orderbook/binance.py:75-246 | every call keeps the buffer bound, LIVE with a sequence id and no pending snapshot, nothing kept outside LIVE or a pending snapshot; generations never go back |
| BinanceBook.AppliedAgrees | src/cvf/orderbook/binance.py:270-273 | a faithful diff with previous <= sequence <= final keeps the book equal to the exchange |
| BinanceBook.ChainTracks | src/cvf/orderbook/binance.py:213-246 | replaying the buffered diffs behind the bridge ends LIVE only at the exchange's book |
| BinanceBook.StepTracks | src/cvf/orderbook/binance.py:106-246 | one call of any kind preserves: LIVE implies equal to the exchange book at the sequence id |
| BinanceBook.LiveBookIsExchangeBook | src/cvf/orderbook/binance.py:106-273 | over every interleaving of diffs, snapshots, resyncs, gaps and overflows, a LIVE book equals the exchange book at its sequence id |
| BinanceBook.StepTells | src/cvf/orderbook/binance.py:58-73 | every result describes the new book, counts a generation exactly for a gap, overflow or resync, and asks for a snapshot exactly outside LIVE with none pending, or to retry a pending one |
| BinanceBook.SequenceFallsIffOlderSnapshot | src/cvf/orderbook/binance.py:156-174 | the sequence id of a LIVE book falls exactly when an older snapshot is installed, which ends LIVE |
| BinanceBook.SnapshotBridgesIff | src/cvf/orderbook/binance.py:176-246 | for every buffer a snapshot goes LIVE exactly when some buffered diff reaches both sides of lastUpdateId and every diff behind the first such one is stale or names the largest id reached so far; then the book is at the largest id behind it, in the same generation |
| BinanceBook.DiffBridgesIff | src/cvf/orderbook/binance.py:91-211 | a diff takes a book that is not LIVE to LIVE exactly when a snapshot is pending, the buffer has room, and the buffered diffs with this one bridge that snapshot in the same sense |
| BinanceBook.SnapshotBridgesGaplessBuffer | src/cvf/orderbook/binance.py:176-246 | so over an unbroken buffer one such diff is enough, and the book is at the newest diff |
| BinanceBook.StepKeepsDiffs | src/cvf/orderbook/binance.py:91-246 | what each call leaves in the buffer, by the input alone: the diff that broke or overflowed the chain, the rest from the break on, everything behind the leading diffs older than the snapshot, or one diff more; and which transition it reports |
| BinanceBook.OnlyStaleDiffsAreDropped | src/cvf/orderbook/binance.py:106-211 | over every run: as long as a book waits in one generation it holds all diffs ingested in it, in order, but for a lead of diffs that end in front of a snapshot installed meanwhile |
| BinanceBook.DiffsAreKept | src/cvf/orderbook/binance.py:106-117 | after any run that leaves no snapshot pending, diffs that fit are all kept and nothing else changes |
| BinanceBook.DiffsThenSnapshotGoLiveIff | src/cvf/orderbook/binance.py:106-246 | after such a run, any diffs that fit and a snapshot go LIVE exactly when the diffs kept before and those bridge it, at the largest id behind the bridge; from a new book these are the diffs alone |
| BinanceBook.LocalOrderBook.Ingest | src/cvf/orderbook/binance.py:119-154 | wrong symbol raises and changes nothing; otherwise the new book and the result are those of the specified diff step |
| BinanceBook.LocalOrderBook.BufferUpdate | src/cvf/orderbook/binance.py:91-117 | buffering, overflow into a new generation, and activation of a pending snapshot as specified |
| BinanceBook.LocalOrderBook.InstallSnapshot | src/cvf/orderbook/binance.py:156-174 | loads the snapshot and bridges it as specified, invariant kept |
| BinanceBook.LocalOrderBook.TryActivateSnapshot | src/cvf/orderbook/binance.py:176-211 | the in-place dropping and search loops find the first overlap after the stale diffs, and retry only a snapshot that precedes the buffer |
| BinanceBook.LocalOrderBook.ReplayBuffer | src/cvf/orderbook/binance.py:213-246 | the draining loop equals the recursive chain, remaining diffs kept on a gap |
| BinanceBook.LocalOrderBook.BeginResync | src/cvf/orderbook/binance.py:75-89 | a new generation with nothing kept |
| OkxBook.BuildSide | src/cvf/orderbook/okx.py:37-52 | the side of the positive levels |
| OkxBook.ApplySide | src/cvf/orderbook/okx.py:55-73 | absolute levels applied in order |
| OkxBook.OnlyLiveBooksHoldData | src/cvf/orderbook/okx.py:157-238 | over every run: LIVE has a sequence id; otherwise both sides are empty and there is none; generations never go back |
| OkxBook.LiveIffAnchored | src/cvf/orderbook/okx.py:189-238 | after any run the book is LIVE exactly when a snapshot is followed only by a checksum-clean chain of updates, and then it is their fold, at the last sequence id |
| OkxBook.AnchoredInputsAreChained | src/cvf/orderbook/okx.py:213-229 | read without recursion: behind the anchoring snapshot every input is an update naming its predecessor |
| OkxBook.StepTells | src/cvf/orderbook/okx.py:140-155 | every result describes the new book, asks for a snapshot exactly outside LIVE, and counts a generation for each lost book and resync |
| OkxBook.StepDecides | src/cvf/orderbook/okx.py:189-238 | the kind of result by the input: a snapshot is applied unless its nonzero checksum is checked and differs, an update needs a LIVE book at its predecessor before that, a refused input leaves no sequence id |
| OkxBook.BufferingIffNew | src/cvf/orderbook/okx.py:110-238 | over every run a book is BUFFERING only before its first input |
| OkxBook.LastLevelDecides | src/cvf/orderbook/okx.py:55-73 | the last level of a price decides it: gone with quantity zero, otherwise kept with its own texts |
| OkxBook.RawSidesArePlainSides | src/cvf/orderbook/okx.py:37-73 | sides that keep level texts have the quantities of plain sides |
| OkxBook.LiveBookIsExchangeBook | src/cvf/orderbook/okx.py:189-238 | over every run of faithful inputs a LIVE book is the exchange book at its sequence id |
| OkxBook.LocalOrderBook.Ingest | src/cvf/orderbook/okx.py:189-238 | snapshot, early update, gap, checksum failure and update as specified |
| OkxBook.LocalOrderBook.Invalidate | src/cvf/orderbook/okx.py:176-187 | a checksum failure or gap opens a generation with nothing kept |
| OkxBook.LocalOrderBook.BeginResync | src/cvf/orderbook/okx.py:157-167 | a resync opens a generation with nothing kept |
| FeatureBook.SortKeepsUpdates | src/cvf/features/state.py:278-281 | pending updates are replayed as an ascending permutation of themselves |
| FeatureBook.ReplayedKeeps | src/cvf/features/state.py:278-301 | replay changes neither generation, epoch nor start, and can only end synchronization |
| FeatureBook.StepKeeps | src/cvf/features/state.py:128-146 | one call: generation and epoch never decrease, synchronization starts only by opening an epoch, and its start is constant within one |
| FeatureBook.EpochsAdvance | src/cvf/features/state.py:219-328 | over every run generation and epoch never decrease, and lost synchronization returns only in a later epoch |
| FeatureBook.EpochIsOneStretch | src/cvf/features/state.py:244-301 | between two synchronized moments of one epoch the book was synchronized throughout, with one start and one generation |
| FeatureBook.OutcomeTells | src/cvf/features/state.py:230-328 | accepted means synchronized, stale means unchanged, invalidated means not synchronized, buffered means pending |
| FeatureBook.AppliedAgrees | src/cvf/features/state.py:157-184 | the weaker replay check previous <= sequence_id < sequence is enough to advance to the exchange book |
| FeatureBook.StepTracks | src/cvf/features/state.py:230-328 | one snapshot or update keeps a synchronized book equal to the exchange book of its generation |
| FeatureBook.SynchronizedBookIsExchangeBook | src/cvf/features/state.py:230-328 | over every run a synchronized book is the exchange book at its sequence id, two-sided and uncrossed |
| FeatureBook.ReplaySucceedsIffCovered | src/cvf/features/state.py:278-301 | over a healthy exchange, replay ends synchronized exactly when every update beyond the start has previous at most the start or some earlier sequence |
| FeatureBook.SnapshotAcceptedIff | src/cvf/features/state.py:230-301 | over a healthy exchange a faithful snapshot is accepted exactly when it is not stale and the waiting updates of its generation, sorted by sequence, leave no hole behind it |
| FeatureBook.StepWaits | src/cvf/features/state.py:128-328 | what each call leaves waiting, with its status, by the state before it: one more at the end, the new generation's first or the gap's alone, none after overflow or a snapshot; an applied update is accepted exactly if the levels leave both sides filled and every bid below every ask |
| FeatureBook.EveryUpdateWaits | src/cvf/features/state.py:219-328 | over every run: as long as a book waits in one generation and epoch, every update of that generation waits with it, in order |
| FeatureBook.UpdatesWait | src/cvf/features/state.py:219-228 | after any run that leaves the book out of synchronization, updates of its generation that fit all wait and nothing else changes |
| FeatureBook.UpdatesThenSnapshotAcceptedIff | src/cvf/features/state.py:219-301 | after such a run, any updates that fit and a faithful snapshot synchronize the book exactly when all that waited, in the order of their sequences, leave no hole behind it |
| FeatureBook.UpdateAcceptedIff | src/cvf/features/state.py:303-328 | over a healthy exchange a synchronized book accepts exactly the newer update that names its sequence, buffers exactly the newer one that does not, and calls the rest stale |
| FeatureBook.SinceIsSnapshotTime | src/cvf/features/state.py:244-277 | over every run a synchronized stretch dates from the snapshot that opened its epoch |
| FeatureBook.ReplayOrder | src/cvf/features/state.py:278-281 | replay goes by sequence; updates without one stand at -1, among themselves in the order of arrival, as do updates of one sequence |
| FeatureBook.LastListedDecides | src/cvf/features/state.py:267-268 | the last level a snapshot lists for a price decides it, whatever its quantity |
| FeatureBook.OrderBookState.ApplySnapshot | src/cvf/features/state.py:230-301 | stale generation, stale sequence, reset, load and sorted replay as specified |
| FeatureBook.OrderBookState.ApplyUpdate | src/cvf/features/state.py:303-328 | stale, new generation, buffering, gap and application as specified |
| FeatureBook.OrderBookState.Replay | src/cvf/features/state.py:278-301 | the replay loop equals the recursive replay |
| FeatureBook.OrderBookState.Buffer | src/cvf/features/state.py:219-228 | the update waits behind the others, or overflow resets into a new epoch with none waiting |
| FeatureBook.OrderBookState.ApplyBookLevels | src/cvf/features/state.py:167-184 | an empty or crossed result ends synchronization |
| FeatureBook.ListLevels | src/cvf/features/state.py:267-268 | snapshot sides are built level by level, later levels win |
| Scheduler.NextBoundary | src/cvf/clock/scheduler.py:27-33 | the first multiple of the interval behind a time, on either side of the epoch |
| Scheduler.TicksAreTheMultiples | src/cvf/clock/scheduler.py:66-82 | a tick is due exactly when its time is a multiple of its interval in (cursor, target] |
| Scheduler.TicksAreOrdered | src/cvf/clock/scheduler.py:73-80 | strict time order, feature before signal on ties, so no tick twice |
| Scheduler.TicksSplit | src/cvf/clock/scheduler.py:66-82 | splitting an advance gives the same ticks |
| Scheduler.DecisionScheduler.HasDueTick | src/cvf/clock/scheduler.py:58-64 | raises behind the cursor; otherwise true exactly when the advance has a tick |
| Scheduler.DecisionScheduler.AdvanceTo | src/cvf/clock/scheduler.py:66-82 | raises behind the cursor and changes nothing; otherwise emits exactly the due ticks in order, and terminates |
| QueueOrder.KeyOrder | src/cvf/features/runtime.py:96-106 | the generated order of queued events is a strict total order on distinct ordinals |
| QueueOrder.KeyLessIff | src/cvf/features/runtime.py:96-106 | queued events compare by receive time, exchange, symbol, event type, sequence id, raw reference and content identity, in this order, and by arrival when all agree |
| QueueOrder.StringLessIff | src/cvf/features/runtime.py:96-106 | strings compare at the first difference |
| QueueOrder.SortSorts | src/cvf/features/runtime.py:206-212 | popping least keys sorts the events, and is a permutation of them |
| QueueOrder.SortedUnique | src/cvf/features/runtime.py:96-106 | there is only one sorted order of the same items |
| Timeline.CanonicalIgnoresLater | src/cvf/features/runtime.py:189-213 | a later arrival never rewrites what was emitted |
| Timeline.CanonicalQuiet | src/cvf/features/runtime.py:212-213 | quiet time adds the due ticks and nothing else |
| Timeline.CanonicalDependsOnEventsOnly | src/cvf/features/runtime.py:96-106 | the timeline is the same for any arrival order of the same events, up to swapping events equal in every key field |
| Timeline.InjectiveIdentityFixesTrace | src/cvf/features/runtime.py:141-157 | with an injective content identity the timelines are equal outright |
| Timeline.CanonicalIsComplete | src/cvf/features/runtime.py:189-213 | through any time it publishes each event received by then, once per acceptance |
| Timeline.TickSeesExactlyItsPast | src/cvf/features/runtime.py:159-167 | before a tick at b exactly the events received by b were published |
| Timeline.CanonicalInEventOrder | src/cvf/features/runtime.py:189-213 | the timeline publishes in the order of the events' own fields, and none received behind its end |
| Timeline.CanonicalTicks | src/cvf/features/runtime.py:159-213 | its ticks are exactly those due behind the first event through its end |
| FeatureDriver.ReceiveTimeDriver.EmitTicksThrough | src/cvf/features/runtime.py:159-167 | drains the bus before the ticks, and ignores a target behind the cursor |
| FeatureDriver.ReceiveTimeDriver.PublishAll | src/cvf/features/runtime.py:206-212 | the inner loop publishes all events of one instant in key order |
| FeatureDriver.ReceiveTimeDriver.ProcessInstant | src/cvf/features/runtime.py:192-212 | one round of the outer loop: ticks due before the instant, then its events |
| FeatureDriver.ReceiveTimeDriver.AdvanceLocked | src/cvf/features/runtime.py:189-213 | after any advance the emitted trace is the canonical timeline through the watermark |
| FeatureDriver.ReceiveTimeDriver.Publish | src/cvf/features/runtime.py:230-242 | refuses after failure, sealing or behind the watermark without a change; otherwise accepts, or fails on a full reorder buffer; never rewrites the trace |
| FeatureDriver.ReceiveTimeDriver.AdvanceTo | src/cvf/features/runtime.py:244-251 | moves the watermark only, unless sealed or failed |
| FeatureDriver.ReceiveTimeDriver.Finish | src/cvf/features/runtime.py:270-291 | flushes every buffered event, drains and seals |
| FeatureDriver.LiveAndReplayAgree | src/cvf/features/runtime.py:109-291 | two drivers with the same accepted events and watermark have shown the same timeline, whatever the arrival order and polling |
| FeatureDriver.TickFollowsExactlyItsPast | src/cvf/features/runtime.py:159-213 | a tick at b in a driver's trace follows exactly the accepted events received by b |
| FeatureDriver.TraceInEventOrder | src/cvf/features/runtime.py:96-213 | in every driver no publication precedes one of a smaller receive time, exchange, symbol or later key field, and the ticks are exactly those due behind the first event through the watermark |
| EventBus.StepKeeps | src/cvf/pipeline/event_bus.py:66-239 | every step keeps FIFO hand-over, bounded queues and nothing lost before a failure |
| EventBus.TickFindsConsumersCaughtUp | src/cvf/pipeline/event_bus.py:205-239 | under every interleaving a consumed tick finds each consumer having processed exactly the earlier publications in order |
| EventBus.ConsumersAreFifoAndBounded | src/cvf/pipeline/event_bus.py:154-203 | at any moment a consumer has processed a prefix of the publications and its queue is within capacity |
| EventBus.TickConsumersKnowExactlyThePast | src/cvf/features/runtime.py:159-213 | driver and bus together: at the tick of boundary b every consumer has processed exactly the accepted events received by b |
| EventBus.StepsUseUpWork | src/cvf/pipeline/event_bus.py:66-90 | every execution ends: each step uses up work |
| EventBus.NeverStuck | src/cvf/pipeline/event_bus.py:154-239 | no deadlock: until the program is done or a failure raised, some step is enabled |
| EventBus.FailureStopsPublishing | src/cvf/pipeline/event_bus.py:143-232 | once a consumer has failed between operations, under every interleaving nothing is published or drained any more |
| EventBus.FailedHandoverNeverEnds | src/cvf/pipeline/event_bus.py:154-187 | a publication that met a full queue never gets past a consumer that failed meanwhile, even if there was room |
| EventBus.OnlyFinishedCount | src/cvf/pipeline/event_bus.py:66-90 | over every interleaving a consumer has processed as many events as its handler returned for, and loses none but the one it failed over, once |
| RollingWindow.WindowIsNewestItems | src/cvf/features/rolling.py:107-115 | the window is sorted, holds only accepted items newer than watermark minus retention, is closed upwards, and is complete unless full |
| RollingWindow.WindowAfterAppend | src/cvf/features/rolling.py:132-154 | one append: insert in order, raise the watermark, expire, then evict |
| RollingWindow.BoundedTimeWindow.Admissibility | src/cvf/features/rolling.py:117-130 | accepted, late or expired exactly by watermark, retention, policy and lateness |
| RollingWindow.BoundedTimeWindow.Append | src/cvf/features/rolling.py:132-154 | after any appends the items are the window of all accepted ones; one counter grows |
| RollingWindow.BoundedTimeWindow.Prune | src/cvf/features/rolling.py:107-115 | first expiry, then the cap, counting evictions |
| RollingWindow.BoundedTimeWindow.ItemsBetween | src/cvf/features/rolling.py:156-175 | the backward scan with early exit returns exactly the items in (start, end] |
| RollingWindow.BoundedTimeWindow.LatestAtOrBefore | src/cvf/features/rolling.py:185-192 | the greatest item at or before the boundary, or none |
| RollingWindow.BoundedTimeWindow.ItemsAppendedAfter | src/cvf/features/rolling.py:194-212 | both the early-exit scan of DROP and the sort return the retained later items in append order |
| RollingWindow.BoundedTimeWindow.Clear | src/cvf/features/rolling.py:214-216 | empties the window, the ordinal goes on |
| WindowGrowth.StillRetained | src/cvf/features/rolling.py:107-115 | an item in a window was in every earlier one since it was accepted |
| WindowGrowth.GrownWindowIsSuffix | src/cvf/features/single_venue.py:416-438 | old window followed by what was appended since ends in the new window |
| Lineage.JoinLaws | src/cvf/features/lineage.py:117-147 | combination is commutative and associative with the empty commitment as unit |
| Lineage.JoinKeepsValid | src/cvf/features/lineage.py:66-89 | combination keeps what construction enforces |
| Lineage.LineageIsOrderFree | src/cvf/features/lineage.py:91-146 | the commitment depends on the multiset of items only |
| Lineage.LineageFields | src/cvf/features/lineage.py:51-89 | count is the number of items; oldest and newest are attained bounds of their times |
| Lineage.PrefixDifference | src/cvf/features/single_venue.py:488-504 | masked subtraction and exclusive or of prefixes give the commitment of the stretch between |
| Lineage.BitsAreBinary | src/cvf/features/lineage.py:91-110 | the digits that enter the exclusive or are the binary representation of the digest |
| Lineage.Combine | src/cvf/features/lineage.py:117-147 | the accumulating loop joins in the order given |
| PricePoints.SecondsRise | src/cvf/features/single_venue.py:253-255 | a later time is never filed under an earlier second, float rounding included |
| PricePoints.SecondsCutLikeTimestampsIff | src/cvf/features/single_venue.py:253-255 | the second a time is filed under and its timestamp are cut alike by every second boundary exactly if the time lies in that second |
| PricePoints.CutsCleanlyIff | src/cvf/features/single_venue.py:253-255 | that holds exactly for whole seconds, for times since the epoch not rounded up to the next second, and for earlier times rounded down; rounding starts at 2^34 seconds |
| PricePoints.WholeSecondsOfNearestFloat | src/cvf/features/single_venue.py:253-255 | from one second to the end of the calendar: the whole seconds of the binary64 number nearest to a time are those it is filed under |
| PricePoints.ChainedAppend | src/cvf/features/single_venue.py:257-295 | an appended point continues the prefix values |
| PricePoints.ChainedDrop | src/cvf/features/single_venue.py:395-402 | after a physical trim the remaining points continue from the new base |
| PricePoints.ReturnDifferences | src/cvf/features/single_venue.py:465-473 | differences of prefixes equal the direct sum and count of returns between neighbouring positive prices |
| PricePoints.FoldsOverPositions | src/cvf/features/single_venue.py:265-272 | the number of returns is that of the positions with two positive neighbouring prices, and their sum is the sum of the squared returns over exactly these positions |
| PricePoints.PositivePricesReturn | src/cvf/features/single_venue.py:265-272 | positive prices all the way give one return less than there are prices |
| PricePoints.ReferencePriceIsMid | src/cvf/features/single_venue.py:71-76 | the price of a quote is as far above the bid as below the ask; trades and marks are their own price |
| PricePoints.LineageByDifference | src/cvf/features/single_venue.py:483-505 | the lineage by subtraction is the combination of the per-item commitments |
| PriceBars.BarsConcat | src/cvf/features/single_venue.py:303-314 | bars of later seconds never change earlier ones |
| PriceBars.BarIndex | src/cvf/features/single_venue.py:553-554 | bisecting bar seconds counts the bars of the earlier samples |
| PriceBars.StretchOverSeconds | src/cvf/features/single_venue.py:543-570 | bars of a stretch are a partial first bar, whole bars, and a partial last bar |
| PriceBars.BarExtremes | src/cvf/features/single_venue.py:572-583 | highest and lowest of the bars are those of the prices |
| PriceBars.ExtremesBound | src/cvf/features/single_venue.py:580-583 | they bound every price and are attained |
| PriceBars.TrueRangeSpansClose | src/cvf/features/single_venue.py:594-600 | the true range is the length of the least interval holding the bar and the previous close |
| PriceBars.AverageRange | src/cvf/features/single_venue.py:592-604 | the loop over bars sums true ranges against the previous close |
| PriceBars.RangeSumIsTotal | src/cvf/features/single_venue.py:592-604 | the true ranges add up, bar by bar, the least interval holding the bar and the close before it |
| PriceBars.AtrIsMeanReach | src/cvf/features/single_venue.py:585-604 | the average true range, defined from two samples on, is the mean of these intervals over the bars |
| PriceBars.Group | src/cvf/features/single_venue.py:172-175 | the dict of per-second prices holds exactly what the incremental bars are made of |
| PriceBars.OneSecondAtr | src/cvf/features/single_venue.py:167-193 | the naive grouping reference equals the average true range of the incremental bars |
| PriceCache.BisectLeft | src/cvf/features/single_venue.py:347-350 | the first position not below a value |
| PriceCache.PriceHistoryCache.Append | src/cvf/features/single_venue.py:257-314 | an item in time order extends points, timestamps and bars consistently |
| PriceCache.PriceHistoryCache.AppendPrice | src/cvf/features/single_venue.py:303-314 | the last bar grows, or a new one starts |
| PriceCache.PriceHistoryCache.Rebuild | src/cvf/features/single_venue.py:316-333 | a rebuild holds exactly the given items |
| PriceCache.PriceHistoryCache.RebuildFirstBucket | src/cvf/features/single_venue.py:335-351 | the first bar is made of the points left of the end of its second, and is right when all points lie in their seconds; the divergence error is unreachable |
| PriceCache.PriceHistoryCache.DropInactive | src/cvf/features/single_venue.py:395-414 | a physical trim keeps points, prefix base and bars consistent |
| PriceCache.PriceHistoryCache.TrimIndex | src/cvf/features/single_venue.py:363-381 | bisection and the tie loop find the earliest retained item; the fallback rebuild and the boundary error are unreachable |
| PriceCache.PriceHistoryCache.TrimToRetainedWindow | src/cvf/features/single_venue.py:353-414 | active points are the window items, and few inactive ones remain |
| PriceCache.PriceHistoryCache.InOrder | src/cvf/features/single_venue.py:418-435 | the key comparison detects exactly the updates that would break the order |
| PriceCache.PriceHistoryCache.Update | src/cvf/features/single_venue.py:416-438 | the active points are exactly the window items in (timestamp, ordinal) order, within maximum_items + 4096 points |
| PriceCache.PriceHistoryCache.UpdateAfter | src/cvf/features/single_venue.py:416-438 | the same after any run of window appends, late, expired and evicting ones included |
| PriceCache.PriceHistoryCache.Bounds | src/cvf/features/single_venue.py:440-456 | bisection finds the active items in (start, end]; end before start raises |
| PriceCache.PriceHistoryCache.Range | src/cvf/features/single_venue.py:458-481 | number, first and last price are those of the selected items; returns are counted, and their squares added, over exactly the positions with two positive neighbouring prices |
| PriceCache.PriceHistoryCache.Lineage | src/cvf/features/single_venue.py:483-505 | the answer is the commitment to the selected items, after any trims |
| PriceCache.PriceHistoryCache.PartialBucket | src/cvf/features/single_venue.py:520-541 | a bar of the selected items that lie in a second, if there are any |
| PriceCache.PriceHistoryCache.Buckets | src/cvf/features/single_venue.py:543-570 | for every selection the bars that PriceAnswers characterises, even when inactive points share the first bar; they are those of a plain scan when the ends of the selection cut cleanly |
| PriceCache.PriceHistoryCache.HighLow | src/cvf/features/single_venue.py:572-583 | the extremes of those bars; maximum and minimum of the selected prices when no item is lost |
| PriceCache.PriceHistoryCache.AverageTrueRange | src/cvf/features/single_venue.py:585-604 | the average true range of those bars; that of a plain scan when the selection cuts cleanly |
| PriceCache.PriceHistoryCache.AtrAgreesWithReference | src/cvf/features/single_venue.py:167-193 | after an update, cache and naive reference give the same answer over the window when the selection cuts cleanly |
| PriceCache.DropKeepsBars | src/cvf/features/single_venue.py:409-414 | whole bars before the first second go, and only that bar changes |
| PriceCache.SelectionIsStretch | src/cvf/features/single_venue.py:445-456 | the two bisections delimit exactly the selected items |
| PriceCache.LocateBars | src/cvf/features/single_venue.py:551-569 | bisecting the bar seconds finds exactly the cached bars from the first to the last selected second, and the inner ones are those of the selected items |
| PriceCache.SelectionRises | src/cvf/features/single_venue.py:543-604 | for a consistent cache each of the three conditions makes its answer that of a plain scan |
| PriceCache.OrderStep | src/cvf/features/single_venue.py:427-435 | one comparison with the previous key decides the order |
| PriceCache.GrownActive | src/cvf/features/single_venue.py:416-438 | the window is the tail of cached and new items |
| PriceAnswers.BarsRightIff | src/cvf/features/single_venue.py:543-570 | the bars of a selection are right under any prices exactly if its first two seconds and its last one hold only items that lie in them |
| PriceAnswers.ExtremesRightIff | src/cvf/features/single_venue.py:572-583 | highest and lowest are right under any prices exactly if the items of the first second lie in it, and those of the last second too when it is not the next one |
| PriceAnswers.AtrRightIff | src/cvf/features/single_venue.py:585-604 | the average true range is right under any prices exactly for fewer than two items, clean ends, or a lone item in each of the first two seconds with a clean first and last second |
| PriceAnswers.EveryQueryRightIff | src/cvf/features/single_venue.py:543-583 | every query for bars, and every query for extremes, of a stream is right exactly if every item lies in its second |
| PriceAnswers.EveryAtrRightIff | src/cvf/features/single_venue.py:585-604 | every query for the average true range is right under any prices exactly if every item lies in its second or there are fewer than two |
| PriceAnswers.QueryOneTime | src/cvf/features/single_venue.py:520-583 | the query for the time of one item answers with no bar and no extremes exactly if that time does not lie in its second |
| PriceAnswers.StraddledEpoch | src/cvf/features/single_venue.py:520-570 | a query around the epoch that loses a price |
| PriceAnswers.LateMicrosecond | src/cvf/features/single_venue.py:520-570 | the query for the last microsecond of the year 2514 has no bar |
| FeatureIndex.HoldsInsert | src/cvf/storage/features.py:764-780 | a new reservation adds one pending row and touches no other |
| FeatureIndex.HoldsDelete | src/cvf/storage/features.py:794-813 | rolling a reservation back removes exactly its pending row |
| FeatureIndex.MarkingSucceeds | src/cvf/storage/features.py:815-846 | marking outstanding rows always succeeds and moves exactly them to committed |
| FeatureIndex.MarkRowsIff | src/cvf/storage/features.py:815-846 | marking succeeds exactly if every row has a pending entry of its own content and no id repeats, and then commits exactly these entries |
| FeatureIndex.RollbackKeepsCommitted | src/cvf/storage/features.py:848-872 | deleting pending rows leaves the committed ones |
| FeatureIndex.IndexOfIsRowMap | src/cvf/storage/features.py:1403-1430 | the rebuild succeeds exactly for unique ids, and then is the map of the rows |
| FeatureIndex.GroupsPermute | src/cvf/storage/features.py:1058-1064 | grouping by partition loses and invents no row |
| FeatureIndex.GroupsArePartitions | src/cvf/storage/features.py:1064-1071 | every file is non-empty and of one partition, partitions ascend |
| FeatureProtocol.HotCacheIsTransparent | src/cvf/storage/features.py:735-792 | the bounded hot cache never changes the answer of a reservation |
| FeatureProtocol.ReservationsStay | src/cvf/storage/features.py:838-842 | the error of a disappeared reservation is unreachable |
| FeatureProtocol.PublishUnique | src/cvf/storage/features.py:1066-1071 | publishing pending rows repeats no id on disk |
| FeatureProtocol.StepKeeps | src/cvf/storage/features.py:745-1118 | every step, failures, cancellations, late files and crashes included, keeps the invariant, but for a start over the thread of a cancelled worker |
| FeatureProtocol.FilesStay | src/cvf/storage/features.py:491-549 | published files stay, whatever the steps |
| FeatureProtocol.PersistedOnce | src/cvf/storage/features.py:745-872 | over all runs with failures, cancelled workers, late files, crashes and restarts every id is in at most one persisted row, unless a writer is started while the thread of a cancelled worker is still at work |
| FeatureProtocol.StartIsSafeIff | src/cvf/storage/features.py:664-728 | that condition is exact: from any state ready to start, every careful continuation keeps ids unique, and every careful continuation keeps one content for each id, exactly when no such thread is at work |
| FeatureProtocol.LateFileIsReached | src/cvf/storage/features.py:1022-1118 | a careful run reaches a state ready to start with such a thread at work |
| FeatureProtocol.CarelessRunPersistsTwice | src/cvf/storage/features.py:664-728 | so some run from nothing with one such start persists an id with two contents |
| FeatureProtocol.StartFindsDisk | src/cvf/storage/features.py:1386-1447 | start after any run succeeds with an index that is exactly the map of the persisted rows |
| FeatureProtocol.RestartAnswersFromDisk | src/cvf/storage/features.py:745-792 | after a restart a write is new, duplicate or conflicting by what the files hold of its id |
| FeatureProtocol.CrashCanRestart | src/cvf/storage/features.py:664-728 | wherever a careful run crashes, the next start succeeds over the files it left |
| FeatureProtocol.LiveWriterAccounts | src/cvf/storage/features.py:969-1010 | accepted = written + flushing + batched + queued, and every reserved row has exactly one pending entry |
| FeatureProtocol.LiveWriterNeverSurprised | src/cvf/storage/features.py:815-846 | over all runs marking never fails on a missing reservation, and the cache is transparent |
| FeatureProtocol.BatchIsNeverFull | src/cvf/storage/features.py:1109-1114 | over every run fewer than batch_rows rows are taken and not yet flushed |
| FeatureProtocol.FullBatchIsFlushed | src/cvf/storage/features.py:1055-1114 | the take that completes a batch flushes exactly its rows, by ascending partition, and empties it; any other take only adds to it |
| FeatureProtocol.FirstInFirstFlushed | src/cvf/storage/features.py:1091-1114 | takes and timeouts flush rows in the order of acceptance and lose none |
| FeatureProtocol.AcceptedGoesLast | src/cvf/storage/features.py:900-942 | an accepted row goes in behind all others |
| FeatureProtocol.WriteIsCounted | src/cvf/storage/features.py:969-994 | a write reserves, counts a duplicate or changes nothing, by what the index holds of its id, and is remembered unless it conflicts |
| FeatureProtocol.RememberKeepsNewest | src/cvf/storage/features.py:735-743 | the cache keeps the newest identities up to its capacity, the one just remembered last |
| FeatureProtocol.SentinelTakesASlot | src/cvf/storage/features.py:1034-1036 | over every run queued rows and the sentinel together are within the queue capacity |
| FeatureProtocol.FailedMarkingKeepsFirstRows | src/cvf/storage/features.py:815-846 | when the index fails while a published file is marked, the rows marked so far stay committed, the others have no entry, and the file stays |
| FeatureProtocol.EndedHoldsNothing | src/cvf/storage/features.py:848-872 | over every run, careful or not, a writer that failed or is closed holds no reservation |
| FeatureProtocol.CleanClose | src/cvf/storage/features.py:1022-1053 | after a clean stop accepted = written, all on disk, and no pending entry is left to roll back |
| FeatureProtocol.CloseCanFinish | src/cvf/storage/features.py:1022-1118 | no deadlock on the way to a close: from any state of a live writer a finite schedule of its steps, the sentinel waiting for room included, ends it with every accepted row on disk |
| FeatureProtocol.ClosedAfterWorker | src/cvf/storage/features.py:1022-1053 | a writer is closed only when its worker has ended or never began, and no write is under way |
| FeatureProtocol.CancelledWriteIsForgotten | src/cvf/storage/features.py:794-813 | a cancelled write leaves no trace, and its id can be written again at once |
| FeatureWriter.RebuildFeatureIndex | src/cvf/storage/features.py:1386-1447 | the loops over files and rows build the index, or refuse a repeated id or a tree without rows |
| FeatureWriter.GroupByPartition | src/cvf/storage/features.py:1058-1066 | the dict of lists read by sorted partition is the specified grouping |
| FeatureWriter.DeleteAllPending | src/cvf/storage/features.py:848-872 | the chunked deletion loop ends with exactly the committed entries |
| FeatureWriter.MarkAll | src/cvf/storage/features.py:815-846 | marking in chunks equals marking row by row, and fails exactly when a row is missing |
| FeatureWriter.AsyncFeatureParquetWriter.Start | src/cvf/storage/features.py:664-728 | refused exactly while closing or closed and, when not yet started, over files that repeat an id or hold no row; nothing to do when started; otherwise runs on the rebuilt index |
| FeatureWriter.AsyncFeatureParquetWriter.RememberIdentity | src/cvf/storage/features.py:735-743 | refresh and evict the oldest beyond the capacity |
| FeatureWriter.AsyncFeatureParquetWriter.ReserveId | src/cvf/storage/features.py:745-792 | cache, then index; a new id gets a pending entry, a conflict changes nothing |
| FeatureWriter.AsyncFeatureParquetWriter.Write | src/cvf/storage/features.py:969-994 | new, deduplicated or refused, by the index alone |
| FeatureWriter.AsyncFeatureParquetWriter.Enqueue | src/cvf/storage/features.py:900-942 | enters the queue exactly when there is room, and counts as accepted |
| FeatureWriter.AsyncFeatureParquetWriter.RollbackReservation | src/cvf/storage/features.py:794-813 | gives entry and cache slot back |
| FeatureWriter.AsyncFeatureParquetWriter.Take | src/cvf/storage/features.py:1109-1114 | takes one submission, and flushes when the batch is full |
| FeatureWriter.AsyncFeatureParquetWriter.FlushInterval | src/cvf/storage/features.py:1100-1104 | a timeout flushes the batch |
| FeatureWriter.AsyncFeatureParquetWriter.WritePartitionFile | src/cvf/storage/features.py:1069-1074 | the file appears whole, or the worker fails and all reservations are rolled back |
| FeatureWriter.AsyncFeatureParquetWriter.CancelWorker | src/cvf/storage/features.py:1115-1118 | a cancelled worker fails and rolls back, and the file its thread writes may still appear |
| FeatureWriter.AsyncFeatureParquetWriter.FinishLateFile | src/cvf/storage/features.py:491-549 | that file appears whole or not at all |
| FeatureWriter.AsyncFeatureParquetWriter.MarkCommitted | src/cvf/storage/features.py:1075-1087 | published rows become committed and count as written |
| FeatureWriter.AsyncFeatureParquetWriter.EnqueueStop | src/cvf/storage/features.py:1034-1035 | the sentinel goes in behind the last submission |
| FeatureWriter.AsyncFeatureParquetWriter.TakeStop | src/cvf/storage/features.py:1106-1108 | the last flush |
| FeatureWriter.AsyncFeatureParquetWriter.FinishClose | src/cvf/storage/features.py:1042-1053 | rolls pending entries back; after a clean stop there are none |
| RecentMap.RefreshKeepsDistinct | src/cvf/exchanges/deduplication.py:57-60 | refreshing moves a key to the end and keeps keys distinct |
| Deduplicator.RecencyInOrder | src/cvf/exchanges/deduplication.py:52-64 | without limits the dict lists every identity once, in the order of last sightings |
| Deduplicator.ItemsBehind | src/cvf/exchanges/deduplication.py:52-64 | the entries behind one are the identities sighted since |
| Deduplicator.RememberedIff | src/cvf/exchanges/deduplication.py:45-64 | an identity is in the dict exactly when its last sighting is within the TTL and fewer than capacity others were sighted since |
| Deduplicator.RememberStep | src/cvf/exchanges/deduplication.py:57-64 | refresh, insertion and eviction keep the newest sightings |
| Deduplicator.BoundedTTLDeduplicator.Expire | src/cvf/exchanges/deduplication.py:45-50 | pops exactly the entries that outlived their time |
| Deduplicator.BoundedTTLDeduplicator.SeenOrAdd | src/cvf/exchanges/deduplication.py:38-64 | true exactly for a recalled identity; size within capacity; time running backwards raises and changes nothing |
| Deduplicator.BoundedTTLDeduplicator.Clear | src/cvf/exchanges/deduplication.py:34-36 | forgets everything, the last time included |
| Compaction.AuditIsOrderFree | src/cvf/storage/compact.py:111-186 | trees with the same multiset of rows have the same audit |
| Compaction.AuditAcceptsIff | src/cvf/storage/compact.py:132-168 | a tree passes exactly if every row has schema version 1, its own raw reference and a payload, lies in its partition, and no record id repeats |
| Compaction.AuditIsAdditive | src/cvf/storage/compact.py:156-158 | payload sizes add up, and each row adds its hash modulo 2^256 |
| Compaction.AuditRawTree | src/cvf/storage/compact.py:111-186 | the loops over files and batches return the audit of the rows, or raise exactly for an invalid row or a repeated record id |
| Compaction.AddRow | src/cvf/storage/compact.py:247-261 | one iteration moves one row, closing the chunk exactly on a new partition or at the target |
| Compaction.CompactRows | src/cvf/storage/compact.py:241-266 | chunks are non-empty, of one partition and at most target_rows, concatenate to the source rows, and each is full or followed by another partition |
| Compaction.CompactRawTree | src/cvf/storage/compact.py:212-291 | raises exactly for a bad target or a source that fails its checks, an empty journal directory without manifest included; the audit mismatch is unreachable |
| Compaction.AuditNeverMismatches | src/cvf/storage/compact.py:268-276 | no compaction of an admitted source fails its after-audit |
| Compaction.FinishedIsAccepted | src/cvf/replay/source.py:66-93 | a finished output is accepted as its source is |
| Compaction.StoppingIsSafe | src/cvf/storage/compact.py:233-291 | wherever it stops, AUTO replay accepts exactly nothing-begun or all-done, so accepted rows are the source rows |
| Compaction.AutoDecides | src/cvf/replay/source.py:66-93 | AUTO takes a tree as raw exactly without journal directory, manifest, manifest temporary and sentinel, and as journal exactly behind a clean manifest that fits audit and journal, with nothing unfinished |
| Compaction.AlteredTreeIsRefused | src/cvf/replay/source.py:66-93 | behind a clean manifest other files are refused unless rows, content digest, payload bytes, partitions and journal figures all agree |
| Compaction.CompactionFinishes | src/cvf/storage/compact.py:233-291 | left alone it reaches the accepted end |
| Compaction.NoJournalStays | src/cvf/storage/collection_manifest.py:175-200 | the output of a tree without journal directories has none, wherever the compaction stops |
| DepthWalk.DepthWalkBps | src/cvf/features/single_venue.py:141-164 | the loop with early exit returns the slippage of the full walk |
| DepthWalk.SpentAndRemaining | src/cvf/features/single_venue.py:149-158 | spent and remaining always make the target |
| DepthWalk.FillsIffDeepEnough | src/cvf/features/single_venue.py:159-164 | a target fills exactly when the side holds it, and is then spent exactly |
| DepthWalk.SlippageMeans | src/cvf/features/single_venue.py:141-164 | there is a slippage exactly for a filled target, and it moves the mid price to the average price, in hundredths of a percent, up for a buyer and down for a seller |
| DepthWalk.AverageWithin | src/cvf/features/single_venue.py:161-161 | the average lies within any bounds of the touched prices |
| DepthWalk.AverageBetweenEnds | src/cvf/features/single_venue.py:141-164 | on a sorted side the average lies between the first price and that of the filling level |
| DepthWalk.SlippageGrows | src/cvf/features/single_venue.py:141-164 | a larger target never has less slippage, for buys and sells |

## Left out

- Connectors, sessions, configuration, logging and the command line: input and output only.
- Upper-casing of venue symbols, book views, and the book managers: symbols are compared as given.
- The `books5` book of OKX: every message is a whole book, so there is no chain to keep.
- Human-readable reasons (`last_error`, transition reasons): the results carry kinds, not texts.
- `BookChange` deltas and the lineage of the feature book: recorded beside the state, never read by it.
- Depth-truncated snapshots and concurrent publishers of the bus: snapshots are full, one publisher at a time.
- Starting, closing and the stop sentinel of the event bus: the bus is modelled while it runs.
- FeatureDriver.ReceiveTimeDriver.Publish: an exception of the bus or the runtime during the transition also marks the driver failed; in the model only a full buffer does.
- FeatureDriver.ReceiveTimeDriver.AdvanceTo: the same.
- FeatureDriver.ReceiveTimeDriver.Finish: the same.
- The polling loop of the live clock: it only calls `advance_to`, which may be called with any time.
- PriceCache.PriceHistoryCache.Update: requires a window that was never cleared, as no price window is.
- PriceCache.PriceHistoryCache.Range: gives the sum of squared returns before the square root, over exact reals.
- PriceAnswers.BarsRightIff: for some prices a wrong bar may coincide with the right one; the conditions are exact over all prices.
- FeatureProtocol.PersistedOnce: does not hold when a writer is started while the thread of a cancelled worker still writes, as `FeatureProtocol.CarelessRunPersistsTwice` shows; files of equal rows, which share a name, count as two.
- `covers_source` of the price cache: it compares object identity.
- FeatureWriter.AsyncFeatureParquetWriter.MarkCommitted: the index failing midway is a step of `FeatureProtocol`, not of this method.
- The backpressure callback and latency figures of the feature writer: no effect on what is persisted.
- Deduplicator.BoundedTTLDeduplicator.SeenOrAdd: takes the clock reading as a parameter, over exact reals.
- Compaction.StoppingIsSafe: assumes that nobody else writes to the source or the output, and takes the journal audit as a function of the multiset of journal rows.
- Compaction.AuditRawTree: a file with another Parquet schema also raises; files are sequences of rows here.
- Compaction.CompactRawTree: the path checks (disjoint trees, existing source, empty output directory) also raise; paths are not modelled.
- Formatting of lineage fingerprints and identifiers: text made from values that are modelled.
- Percent-encoding of partition directories: partitions are compared as values.
- DepthWalk.SlippageGrows: exact arithmetic, where the code rounds the quotient in a decimal context and converts it to a float.
- Metric history and z-scores, cross-venue features, availability and the state tables: single-branch or floating-point code.
