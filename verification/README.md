# vmestimator, modelled and proved

vmestimator counts time series. Remote-write requests are decoded into recycled memory, a
deduplicator of ten rotating Bloom filters drops series it has seen lately, and every configured
stream inserts what is left into a sharded estimator: each shard keeps a current and a previous epoch
of HyperLogLog sketches, one per group, and all shards share one group limit. Snapshots of the
estimators are emitted in batches, merged across nodes, and compared over time for churn. The
configuration can be reloaded while requests are in flight.

These modules model that core and prove what it is for: which hashes and groups are held, for how
long, under which interleavings, and where the limits of those promises are. A sketch is the set of
64-bit hashes it was given, together with its precision.

| Module | About |
|---|---|
| `Base`, `Series`, `Strings` | shared vocabulary: sums, folds over sequences, sorting |
| `ReloadProtocol`, `ReloadRuns`, `LoadOrders`, `StaleDrops`, `LabelFingerprints` | reloads against requests in flight, over every interleaving: what is safe to drop, for which estimators, in which order of steps |
| `GroupLimitProtocol`, `SnapshotProtocol`, `BloomProtocol`, `CapacityProtocol` | the other step relations: every interleaving of the steps that run without one common lock |
| `Retention`, `RetentionLimit`, `RotationLoops` | the rotation schedules, and how long a series is kept, over time |
| `Bloom`, `Deduplicator` | the Bloom filter and the in-place filter, used by one thread |
| `EstimatorModel`, `KeptGroups`, `Sharding`, `Rounds`, `GlobalModel` | the estimator as a state with operations, and what whole runs keep |
| `SeriesFeeds`, `ShownFingerprints` | the same, from batches of series to the snapshot |
| `GroupKeys`, `Contributions` | which inserts a series contributes, also said on its labels alone; what keys stand for, and the visiting order |
| `EstimatorBuckets`, `Estimators`, `EstimatorSnapshots` | the objects updated in place, proved to perform exactly those operations |
| `Snapshots`, `SnapshotObjects` | merging snapshots, as values and as objects that share no sketch |
| `EstimatorId`, `Config`, `Loading` | the identity string, validation, loading and reloading |
| `Churn` | churn baselines and the churn ratio |
| `Unmarshal` | the label arena and recycled series slots of the remote-write decoder |

Classes carry the single-threaded contracts; the protocol modules carry the concurrency. Hash
functions, the interval formatter, the filter predicate, the start offset of a batch, the number of
CPUs, the clock readings and the answers of a callback are parameters, so every result holds for all
of them.

## Where the obvious claim is false

* Two loads in the wrong order lose deliveries. `SafeExactlyInProgramOrder` shows that of the four
  orders of (swap estimators, reset deduplicator) and (filter, load estimators) only the program's is
  safe. Even then a request that took its filter pointer before a load may drop a repeat through it,
  which deprives an estimator that the load has added. Drops through a filter are safe for an
  estimator exactly if it has been active ever since the generation of that filter
  (`DropsAreSafeIff`).
* Handed over is not counted. A request parsed before a load turned label fingerprints on can be
  filtered after the reset; a stream with `__label__` skips it, and its repeats are dropped. What is
  dropped is counted exactly if the estimator has been active since the filter's generation and, when
  it groups by label, a stream of the startup configuration did so too (`CountedIff`).
* The group limit can be overshot by one less than the number of buckets, and no more. The capacity of a
  Bloom filter can be overshot by one less than the number of writers between their check and the end
  of their add, and no more (`CapacityProtocol.OvershootAttained`, `OvershootBoundedByInFlight`).
* A churn baseline is at most an interval old over all runs exactly if the interval is not negative
  (`AlwaysRecentIff`), which nothing checks.
* The group key only hashes the labels a series has. Series that lack different group-by names can
  share a key and not their values (`MissingNamesCollide`); series that share a text show the same
  values exactly if they have non-empty values for the same names (`SharedTextSameValuesIff`).
* The visiting order adds the start offset and counts the series in 32 bits: above 2^31 series in one
  batch some are visited twice or never (`VisitsEachOnceIffSmall`).
* The estimator's rotation loop rotates twice if it reads the clock at the very boundary it has just
  served (`NextTickOnSchedule`). A series can then be gone at the boundary it arrived at.
* A live series is only safe behind the deduplicator if that never happens, and a round of clears, the
  longest gap between arrivals, a late clear and a late rotation fit strictly between two rotations of
  a bucket (`NeverLostIff`). A reset of the estimator leaves the deduplicator alone and hides a live series
  until it passes again (`LiveSeriesNeverLost`, `LiveSeriesPassesAgain`).
* `prepare` does not look at the size or sign of an interval. With less than two nanoseconds for each
  bucket the rotation period is zero and the loop panics; a negative interval makes it spin
  (`TinyIntervalIsAccepted`, `IntervalIsNotChecked`, `PeriodSign`, `NegativeNeverWaits`).
* Merging ignores that sketches of different precisions do not merge, and the identity does not hold
  the precision. What any number of arrivals merge to is independent of their order exactly if they
  agree on values and precision of every group that they share and that is not there yet
  (`OrderIrrelevantIff`).
* The identity string is not injective for label names with an equals sign, label values with a NUL,
  or group-by names with a comma. `prepare` accepts such names, and refuses two different streams
  whose identities collide as duplicates (`CollidingStreamsAreRefused`).
* Resetting a global stream dereferences a previous sketch that does not exist before the first
  rotation of each bucket; it gets through exactly if every bucket has rotated (`ResettableIff`).
* The group limit of a merged snapshot is that of the last arrival (app/vmestimator/snapshot.go:140),
  so it is independent of the order exactly if all arrivals agree on it (`LimitOrderIrrelevantIff`).
* Code and documentation disagree in two places, and the model follows the code: pass-through of the
  deduplicator starts when a filter is full, not at 80% (the flag text at
  app/vmestimator/deduplicator.go:24-27 against lines 125-128); and the guard at
  app/vmestimator/main.go:66 lets through what the constructor panics on at
  app/vmestimator/deduplicator.go:77, exactly if the interval is 30 seconds and the size is large
  enough (`LetThroughAndPanicsIff`).

## Model

| member | source | states |
|---|---|---|
| ReloadProtocol.ReloadIsSafe | app/vmestimator/config.go:200-206 | in every reachable state in which a load has finished, each fingerprint in a published filter has been handed, or will be by the request that recorded it, to every estimator of the new set |
| ReloadProtocol.QuiescentMeansHanded | app/vmestimator/main.go:113-126 | with no request in flight, "will be handed" is "was handed" |
| ReloadProtocol.LastingAreCovered | app/vmestimator/deduplicator.go:110-131 | in every state of every run, in the middle of a load too, what any filter has recorded, published or not, has reached or will reach each estimator that was active ever since that filter's generation |
| ReloadProtocol.RepeatDropIsSafe | app/vmestimator/deduplicator.go:119-123 | so dropping a repeat through any filter, however stale, never deprives an estimator active since that filter's generation, also when another request is still adding it |
| ReloadProtocol.CurrentDropIsSafe | app/vmestimator/deduplicator.go:119-123 | and through a filter of the present generation it deprives no active estimator |
| LoadOrders.SafeExactlyInProgramOrder | app/vmestimator/config.go:200-206 | all reachable states are safe if and only if estimators are swapped before the reset and requests filter before they load the estimators |
| StaleDrops.DropsAreSafeIff | app/vmestimator/deduplicator.go:110-131 | for every startup configuration, every sequence of loads that create or only remove estimators, filter generation and estimator: all drops through filters of that generation, in all runs that make exactly those loads, of what they have or are being given are safe for the estimator if and only if it is in every active set from that generation on |
| StaleDrops.StaleDropIsPossible | app/vmestimator/deduplicator.go:119-123 | for every such sequence with a set that lacks the estimator, from a filter's generation on, a reachable drop through such a filter leaves the estimator without the series |
| LabelFingerprints.CountedIff | app/vmestimator/protoparser/write_request.go:72-75 | for every such sequence and every choice of estimators that group by label: all dropped repeats are counted or will be by an estimator if and only if it is in every active set from the filter's generation on and, if it groups by label, so does some estimator of the startup set |
| LabelFingerprints.LabelsCanBeMissed | app/vmestimator/estimator.go:273-277 | a stream grouping by label that a load adds, with none at startup: a run in which a dropped repeat is never counted by it |
| LabelFingerprints.RunKeepsSure | app/vmestimator/config.go:193-199 | with label fingerprints on from the start, or for a stream that does not group by label, everything handed over is counted |
| LoadOrders.ResetFirstIsUnsafe | app/vmestimator/config.go:200-206 | with the reset first, an unsafe state is reachable |
| LoadOrders.LoadFirstIsUnsafe | app/vmestimator/main.go:113-126 | with the estimators loaded before filtering, an unsafe state is reachable |
| LoadOrders.LoadsAreSafe | app/vmestimator/config.go:193-206 | whatever a load does that changes the set of streams, its order of swap and reset is the one under which every reachable state is safe |
| LoadOrders.SafeExactlyIfSwapsFirst | app/vmestimator/config.go:200-206 | and any list of effects with a reset before the swap has the order under which an unsafe state is reachable |
| ReloadProtocol.RunKeepsInv | app/vmestimator/config.go:163-214 | every step of every interleaving of requests, rotations and loads keeps the coverage invariant |
| GroupLimitProtocol.OvershootBoundedByInFlight | app/vmestimator/estimator.go:579-595 | with at most k inserts between check and increment at once, the shared size stays between 0 and limit + k - 1; with k = 1 it never exceeds the limit |
| GroupLimitProtocol.OvershootBoundedByBuckets | app/vmestimator/estimator.go:510-545 | for every interleaving under per-bucket locks the size is at most limit + B - 1 for B buckets |
| GroupLimitProtocol.OvershootAttained | app/vmestimator/estimator.go:579-595 | for every positive limit and every number of buckets that 64-bit keys can fill, a reachable state has exactly limit + B - 1 |
| GroupLimitProtocol.QuiescentCountersExact | app/vmestimator/estimator.go:494-545 | when no operation is in flight each bucket's counter is the number of its keys in either epoch and the size is their sum |
| SnapshotProtocol.SnapshotConsistent | app/vmestimator/estimator.go:337-390 | whatever inserts, rotations and resets run between batches, each collected key is emitted exactly once, with all it held when collected and only hashes inserted under it in the two captured epochs |
| SnapshotProtocol.SnapshotComplete | app/vmestimator/estimator.go:337-390 | nothing is missed and nothing made up: there is exactly one state of the run from which the bucket of a key is collected, and the key is emitted if and only if it is tracked there, with every hash the bucket holds for it there |
| SnapshotProtocol.TrackedThroughoutIsEmitted | app/vmestimator/estimator.go:337-390 | so a key tracked in every state from before the first bucket is collected is emitted, with every hash held all the time |
| SnapshotProtocol.CollectedOnce | app/vmestimator/estimator.go:337-347 | no two states of a run are collected for one bucket |
| SnapshotProtocol.BatchKeysHaveSketch | app/vmestimator/estimator.go:350-380 | every key of a batch is in one of the captured maps, so there is a sketch to merge into |
| Bloom.PositionDoesNotOverflow | app/vmestimator/deduplicator.go:185-188 | the index arithmetic in 64 bits never wraps |
| Bloom.PositionsAre | app/vmestimator/deduplicator.go:179-188 | a hash has the four bits low, low + high, low + 2 high and low + 3 high, from its 32-bit halves and modulo the number of bits |
| Bloom.WordCountSuffices | app/vmestimator/deduplicator.go:234-237 | the array has at least sixteen bits an item and less than a word too many, unless the item count is within four of wrapping, where it is too small |
| Bloom.BloomFilter.Contains | app/vmestimator/deduplicator.go:182-197 | true exactly when all positions of the hash are set |
| Bloom.BloomFilter.SetBit | app/vmestimator/deduplicator.go:212-226 | sets one bit and no other, and reports whether it was clear |
| Bloom.BloomFilter.Add | app/vmestimator/deduplicator.go:201-232 | afterwards the set bits are the old ones and the four positions; the result is true, and counted, exactly when contains was false; the bits stay the union of the positions of all recorded hashes and size counts between a quarter of them and all |
| Bloom.NewBitsCounted | app/vmestimator/deduplicator.go:228-231 | adding at most four positions, one of them absent, adds between one and four bits |
| Bloom.SetBitAdds | app/vmestimator/deduplicator.go:213-220 | setting a bit of a word changes exactly the numbered bit it stands for |
| BloomProtocol.BitsNeverCleared | app/vmestimator/deduplicator.go:216-225 | no interleaving of compare-and-swap loops clears a bit |
| BloomProtocol.ContainsAfterAdd | app/vmestimator/deduplicator.go:182-232 | after an add has returned, no contains of that hash reports it absent |
| BloomProtocol.PresentMeansCovered | app/vmestimator/deduplicator.go:182-197 | a contains only reports a hash present if every one of its bits belongs to an add that began |
| BloomProtocol.SizeBoundedBySetBits | app/vmestimator/deduplicator.go:219-231 | every add that returned true flipped a bit itself, so size never exceeds the number of set bits |
| BloomProtocol.SetBitsBoundedBySize | app/vmestimator/deduplicator.go:212-231 | and a flipped bit belongs to a counted add or one in flight: at rest there are between size and four times size set bits |
| BloomProtocol.QuiescentBitsExact | app/vmestimator/deduplicator.go:201-232 | with no call in flight the bits are exactly the positions of the added hashes |
| BloomProtocol.FailedSwapLosesZeros | app/vmestimator/deduplicator.go:217-225 | between a load and the swap that fails on it the word has lost a zero bit |
| BloomProtocol.RetriesBounded | app/vmestimator/deduplicator.go:217-225 | so one round retries at most 64 times |
| CapacityProtocol.OvershootBoundedByInFlight | app/vmestimator/deduplicator.go:119-128 | for every interleaving of lookups, checks and adds: with at most k writers between their check and the end of their add at once, a filter counts at most its capacity and k - 1 series, and at most four times as many bits are set |
| CapacityProtocol.OvershootBoundedByWriters | app/vmestimator/deduplicator.go:119-128 | so with k writers at all; and of a filter whose size does not wrap at most a quarter of the bits are set, and four for each writer but one |
| CapacityProtocol.OvershootAttained | app/vmestimator/deduplicator.go:125-128 | for every slot, positive capacity and number of writers with bits for that many fingerprints of the slot, a reachable state counts exactly capacity + k - 1 |
| CapacityProtocol.FilterRun | app/vmestimator/deduplicator.go:119-128 | whatever the writers do with it, the filter goes through a run of the lock-free one, so that all that is proved of those holds |
| Deduplicator.RememberedUnlessFull | app/vmestimator/deduplicator.go:115-131 | after a batch each of its series is remembered or its filter is full |
| Deduplicator.RepeatPassesOnlyWhenFull | app/vmestimator/deduplicator.go:125-128 | a repeat passes only once its filter has reached its capacity |
| Deduplicator.PassesExactlyWhenLearned | app/vmestimator/deduplicator.go:119-131 | below capacity a series passes exactly when its filter first learns it, and a dropped one changes nothing |
| Deduplicator.OutputIsSelection | app/vmestimator/deduplicator.go:110-133 | the output is the passing series of the input in their order, each at the place counted by the passing ones before it |
| Deduplicator.BitsOnlyGrow | app/vmestimator/deduplicator.go:110-133 | filtering never forgets |
| Deduplicator.FiltersKeepApart | app/vmestimator/deduplicator.go:116-127 | over a batch a filter only gets bits of fingerprints whose last digit is its number, and stays as it is without any |
| Deduplicator.FillBounded | app/vmestimator/deduplicator.go:110-133 | under sequential use at most a quarter of the bits of a filter is set, and the ten sizes sum to at most the maximum |
| Deduplicator.Deduplicator.Filter | app/vmestimator/deduplicator.go:110-133 | with destination and source in one array the result is the functional filter of the original contents, the rest of the array is untouched, and the filters are those of the whole batch |
| Deduplicator.Deduplicator.Admit | app/vmestimator/deduplicator.go:116-130 | one series: passes unless seen, recorded only if its filter has room; the nine other filters stay |
| Deduplicator.Deduplicator.Rotate | app/vmestimator/deduplicator.go:162-163 | one slot gets a fresh filter, nine stay |
| Deduplicator.Deduplicator.Reset | app/vmestimator/deduplicator.go:136-140 | all ten slots get fresh filters |
| Deduplicator.Deduplicator.constructor | app/vmestimator/deduplicator.go:73-105 | ten empty filters of a tenth of the maximum each |
| Deduplicator.Start | app/vmestimator/main.go:58-73 | for every size and interval: no deduplicator, a refusal, a panic, or a running one, each exactly when |
| Deduplicator.LetThroughAndPanicsIff | app/vmestimator/main.go:63-70 | the guards let through what the constructor panics on exactly if the interval is 30 seconds and the size is large enough |
| RotationLoops.NextTickIsFirstBoundary | app/vmestimator/estimator.go:434-446 | the estimator's next tick is the first multiple of the period from now on |
| RotationLoops.NextTickOnSchedule | app/vmestimator/estimator.go:438-452 | the loop serves successive boundaries exactly if it is woken more than nothing and at most one period after each; at zero delay it fires twice |
| RotationLoops.PeriodSign | app/vmestimator/estimator.go:431-435 | for every interval the rotation period is positive if and only if each bucket gets two nanoseconds of it, zero below that, and negative for negative intervals as large |
| RotationLoops.PeriodBounds | app/vmestimator/estimator.go:434-435 | the period, twice for each bucket, is the interval up to less than one more nanosecond of it, for intervals of either sign |
| RotationLoops.NegativeNeverWaits | app/vmestimator/estimator.go:438-446 | with a negative period the loop never waits |
| RotationLoops.BucketPeriod | app/vmestimator/estimator.go:431-452 | on schedule a bucket rotates once per round, and two rounds are the interval, but for less than two nanoseconds for each bucket |
| RotationLoops.RunRotation | app/vmestimator/estimator.go:431-455 | for every interval: it panics exactly if the period is zero; the buckets take turns; with delays that fit into the interval twice for each bucket the ticks are consecutive boundaries, and a bucket has its turn again after half the interval, less than a nanosecond for each bucket early; with a negative interval it ticks whenever it gets to run |
| RotationLoops.NextBoundaryOnSchedule | app/vmestimator/deduplicator.go:151-154 | the deduplicator's loop serves successive boundaries exactly when woken within one period |
| RotationLoops.NextBoundaryIsFirst | app/vmestimator/deduplicator.go:152-153 | its next boundary is the first multiple of the period after the clock reading |
| RotationLoops.SlotMeans | app/vmestimator/deduplicator.go:162 | the slot is the last decimal digit of the number of periods since the Unix epoch |
| RotationLoops.SlotAdvances | app/vmestimator/deduplicator.go:162 | successive boundaries clear successive slots, whatever the phase of the two time origins |
| RotationLoops.TenBoundariesClearEachSlotOnce | app/vmestimator/deduplicator.go:148-165 | any ten consecutive boundaries clear each slot exactly once |
| RotationLoops.RunClearing | app/vmestimator/deduplicator.go:148-165 | on schedule the clears are consecutive boundaries with the slots they stand for, and a slot has its turn again after the interval, less than ten nanoseconds early |
| Retention.TimedRetention | app/vmestimator/estimator.go:431-508 | whatever is delivered, cleared, reloaded or reset, a hash is visible for no more than two rounds after it last passed, up to how late a rotation comes; and for a full one, unless its bucket is reset or a boundary is served twice |
| Retention.VisibleAtMostInterval | app/vmestimator/estimator.go:431-436 | with the period derived from the interval that is at most the interval and the lateness |
| Retention.VisibleAtLeastHalfInterval | app/vmestimator/estimator.go:431-436 | and at least half the interval, less a nanosecond for each bucket and the lateness, unless its bucket is reset or a boundary is served twice |
| Retention.SuppressedAtMostInterval | app/vmestimator/deduplicator.go:148-165 | a fingerprint is suppressed for at most the deduplicator's interval, and as late as a clear comes, after it last passed |
| Retention.TimedSuppression | app/vmestimator/deduplicator.go:148-165 | a fingerprint is suppressed for at most ten clearing periods, and as late as a clear comes, after it last passed |
| Retention.LiveSeriesPassesAgain | app/vmestimator/main.go:153-157 | a reset of the estimators hides a live series for at most a round of clears, their lateness and its longest gap |
| Retention.LiveSeriesNeverLost | app/vmestimator/deduplicator.go:110-165 | if no boundary is served twice and a round of clears, the longest gap, a late clear and a late rotation fit strictly between two rotations, a live series is visible from its first delivery on exactly while its bucket has not been reset since it last passed |
| RetentionLimit.NeverLostIff | app/vmestimator/estimator.go:431-455 | and only then: for every live series, all reachable states show it if and only if no boundary is served twice and that inequality holds |
| RetentionLimit.LostAtOnce | app/vmestimator/estimator.go:438-452 | if the clock can be read at the boundary just served, a series can be lost at the boundary at which it was delivered |
| RetentionLimit.LiveSeriesCanBeLost | app/vmestimator/deduplicator.go:148-165 | for every series and every setup that violates the inequality, a reachable state in which the series keeps arriving and is not visible |
| EstimatorModel.RunsAreExact | app/vmestimator/estimator.go:494-607 | over any run of inserts, rotations and resets each counter counts the keys of its bucket in either epoch, keys live where they hash to, the size is the sum and stays within the limit |
| EstimatorModel.InsertTracks | app/vmestimator/estimator.go:510-545 | one insert: its key ends up tracked if it was or if there is room, otherwise only the reject sketch of its bucket learns it |
| EstimatorModel.LoweringKeepsExact | app/vmestimator/estimator.go:598-607 | lowering the counters to what a bucket keeps leaves all of them exact |
| EstimatorModel.SizeIsNumberOfKeys | app/vmestimator/estimator.go:568-576 | the size is the number of different keys tracked anywhere |
| EstimatorModel.BatchAdmission | app/vmestimator/estimator.go:579-595 | a batch with no rotation ends at the limit or at the old size plus the distinct unseen keys, whichever is less, and evicts nothing |
| EstimatorModel.BatchOrderIrrelevant | app/vmestimator/estimator.go:226-230 | two orders of the same batch end with the same size |
| EstimatorModel.OfferedIsTrackedOrRejected | app/vmestimator/estimator.go:579-595 | until the first rotation the keys offered fall into tracked and rejected ones, none in both, none rejected below the limit |
| EstimatorModel.TotalIsOffered | app/vmestimator/estimator.go:609-626 | until then the reported total is the number of distinct keys offered, from whatever threshold up to the limit rejected keys are added |
| EstimatorModel.RejectedMeans | app/vmestimator/estimator.go:579-607 | over any run, a bucket's reject sketch has exactly the keys turned away for lack of room since the bucket last rotated or was reset |
| EstimatorModel.ContentShowsAll | app/vmestimator/estimator.go:337-390 | what a snapshot shows has one entry for each tracked key, as many as the size |
| KeptGroups.HitGroupsAreKept | app/vmestimator/estimator.go:510-545 | a group hit in every epoch of its bucket is never evicted or rejected and keeps its values, whatever else the run does |
| KeptGroups.MissedEpochEvicts | app/vmestimator/estimator.go:494-508 | a group that misses one whole epoch of its bucket is gone with the rotation that ends it, whatever else is inserted and whichever other buckets rotate or reset meanwhile |
| KeptGroups.StepKeeps | app/vmestimator/estimator.go:510-545 | each operation keeps such a group, and each hit of it is recorded |
| Sharding.ShardingInvisible | app/vmestimator/estimator.go:191-320 | for every run of inserts, bucket rotations and bucket resets in any order, as long as the held keys fit under the limit: a key is shown, with exactly those hashes, that were inserted under it with at most one rotation and no reset of its bucket since |
| Sharding.RejectedIff | app/vmestimator/estimator.go:579-595 | and an insert is rejected exactly if with it the held keys no longer fit |
| Sharding.ContentIsReference | app/vmestimator/estimator.go:337-390 | with values determined by keys, the snapshot is the independently defined reference content of the run |
| Sharding.SameHeldSameContent | app/vmestimator/estimator.go:191-320 | so instances that hold the same hashes show the same snapshot, whatever their buckets, limits and orders |
| Rounds.HeldAfterRounds | app/vmestimator/estimator.go:431-455 | when every bucket rotates once between two batches, in whatever order, held are the last batch and the one before it |
| Rounds.SameContentEverywhere | app/vmestimator/estimator.go:191-320 | so then instances fed the same last two batches show the same snapshot |
| GlobalModel.ShardingInvisible | app/vmestimator/estimator.go:301-320 | for global streams, any number of buckets and any mix of inserts and of rotations and resets of single buckets: the union over the buckets has a hash exactly if it was inserted with at most one rotation and no reset of its bucket since |
| GlobalModel.ResettableIff | app/vmestimator/estimator.go:478-486 | after any such run a reset of a global stream gets through if and only if every bucket has rotated; on a fresh one it fails |
| GlobalModel.FullRoundsShown | app/vmestimator/estimator.go:301-320 | after full rounds that is the open epoch and the one before |
| SeriesFeeds.SeriesShown | app/vmestimator/estimator.go:191-398 | from series to snapshot: batches of series with every explicit name, among any rotations and resets, under a hash that does not collide on their texts, show the reference content |
| SeriesFeeds.SameSeriesSameSnapshot | app/vmestimator/estimator.go:191-398 | two estimators with different buckets, limits, orders and start offsets that hold the same show the same snapshot |
| SeriesFeeds.SameBatchesSameSnapshot | app/vmestimator/estimator.go:191-398 | in particular after full rounds that fit, when the last two batches of series are the same, whatever came before and whatever offsets they were visited from |
| ShownFingerprints.ShownAreInserted | app/vmestimator/estimator.go:191-398 | every hash shown for a group is a fingerprint that a series inserted under the values of that group |
| ShownFingerprints.RecentIsShown | app/vmestimator/estimator.go:191-398 | and what the series of a batch insert is shown under their values as long as no bucket rotates twice or is reset since |
| GroupKeys.TextDeterminesValues | app/vmestimator/estimator.go:239-250 | among series that carry the same names, with NUL-free values, the text that is hashed and the values determine each other |
| Contributions.SeriesInserts | app/vmestimator/estimator.go:229-286 | said on labels alone: a series inserts a fingerprint under group values exactly if it passes the filter, carries one of the explicit names or there are none, each value is that of the first label of its name, or empty, and the fingerprint is its own or, with `__label__`, a non-zero one of a label whose name is the last value |
| Contributions.SeriesCount | app/vmestimator/estimator.go:225-286 | a series that takes part counts once, or once for each label with a fingerprint |
| Contributions.EstimatorInserts | app/vmestimator/estimator.go:209-289 | a batch puts exactly the fingerprints into a grouped estimator that its series insert under their values, from any start offset |
| Contributions.GlobalInserts | app/vmestimator/estimator.go:194-211 | and into a global one those of the series that pass the filter |
| GroupKeys.SharedTextSameValuesIff | app/vmestimator/estimator.go:239-250 | series that share a text show the same values exactly when they have non-empty values for the same names |
| GroupKeys.MissingNamesCollide | app/vmestimator/estimator.go:239-250 | two series with different values and the same key under every hash function |
| GroupKeys.OffersAreFunctional | app/vmestimator/estimator.go:239-286 | among series with every explicit name, per-label streams included, texts and values determine each other |
| GroupKeys.VisitsEachOnceIffSmall | app/vmestimator/estimator.go:225-230 | for every batch size: every start offset visits each series exactly once if and only if there are at most 2^31 |
| GroupKeys.StartOffsetIrrelevant | app/vmestimator/estimator.go:225-289 | whatever the offset, a batch offers the same inserts, each as often |
| GroupKeys.OffsetsEndWithSameSize | app/vmestimator/estimator.go:225-289 | so the group size after a batch does not depend on the offset |
| EstimatorBuckets.GroupSize.AllowInsertLocked | app/vmestimator/estimator.go:579-595 | either both counters count the key or its bucket's reject sketch takes it |
| EstimatorBuckets.GroupSize.RotateLocked | app/vmestimator/estimator.go:598-607 | takes from both counters what the bucket no longer tracks and drops its reject sketch |
| EstimatorBuckets.GroupSize.TotalRejected | app/vmestimator/estimator.go:628-640 | the sum of the reject sketches |
| EstimatorBuckets.GroupSize.TotalReported | app/vmestimator/estimator.go:609-626 | the size, and from the threshold on the rejected keys as well |
| EstimatorBuckets.EstimatorBucket.Insert | app/vmestimator/estimator.go:510-545 | the bucket and the shared counters change as the specified insert says; global mode only touches the sketch |
| EstimatorBuckets.EstimatorBucket.Rotate | app/vmestimator/estimator.go:494-508 | the current epoch becomes the previous one and the counters follow |
| EstimatorBuckets.EstimatorBucket.Reset | app/vmestimator/estimator.go:478-492 | drops both epochs; in global mode exactly if a previous sketch exists |
| Estimators.BuildKey | app/vmestimator/estimator.go:236-256 | the nested scan yields the specified key text, values and participation |
| Estimators.Estimator.constructor | app/vmestimator/estimator.go:77-121 | buckets wired to one counter, everything empty |
| Estimators.Estimator.InsertMany | app/vmestimator/estimator.go:191-289 | the new state is the run of the offers of the batch in visiting order, the count is their number, and all counters stay exact; which offers these are is said on labels by `Contributions` |
| Estimators.Estimator.RotateBucket | app/vmestimator/estimator.go:447-449 | one rotation, in either mode, with all counters exact |
| Estimators.Estimator.Reset | app/vmestimator/estimator.go:291-295 | a grouped estimator is as good as new; a global one resets its buckets up to the first that never rotated |
| Estimators.ResetsEmpty | app/vmestimator/estimator.go:478-492 | with exact counters, resetting every bucket leads back to the initial state |
| EstimatorSnapshots.GroupSnapshot | app/vmestimator/estimator.go:301-398 | merging all callbacks yields each tracked key once with the union of its epochs, as many entries as the size, and the reject total exactly once; batches have at most 1000 entries; if a callback fails, what was sent is a part |
| EstimatorSnapshots.EmitKey | app/vmestimator/estimator.go:362-380 | the entry of a key; its merges never fail |
| EstimatorSnapshots.EmitBucket | app/vmestimator/estimator.go:337-390 | the keys of both maps are sent once each, in batches, up to the call that fails |
| EstimatorSnapshots.GlobalSnapshot | app/vmestimator/estimator.go:302-320 | one entry with the union of all sketches |
| Snapshots.ArrivalOrderIrrelevant | app/vmestimator/snapshot.go:106-142 | if the arrivals agree on the groups that are not there yet, two orders of them merge to the same |
| Snapshots.OrderIrrelevantIff | app/vmestimator/snapshot.go:106-142 | for any start and any number of arrivals: sketches, values, reject total, churn flag and minimum are the same for every order if and only if the arrivals agree on values and precision of each group that they share and the start lacks |
| Snapshots.FoldedContent | app/vmestimator/snapshot.go:111-130 | which groups and hashes a merge has, said without an order |
| Snapshots.FoldedValues | app/vmestimator/snapshot.go:111-119 | a group keeps the values and the precision it has at the start, or those of the first arrival that has it |
| Snapshots.FoldedRejectSize | app/vmestimator/snapshot.go:141 | reject sizes add up |
| Snapshots.FoldedMinCardinality | app/vmestimator/snapshot.go:122-126 | any negative minimum yields -1, otherwise the largest |
| Snapshots.FoldedLimitIsLast | app/vmestimator/snapshot.go:140 | the group limit of a merge is the one that arrived last |
| Snapshots.LimitOrderIrrelevantIff | app/vmestimator/snapshot.go:140 | it is the same for every order of the arrivals if and only if they all have the same limit |
| Snapshots.BatchesIrrelevant | app/vmestimator/snapshot.go:106-142 | cutting a snapshot into batches, the reject size in one of them, changes nothing |
| SnapshotObjects.Snapshot.Merge | app/vmestimator/snapshot.go:106-142 | the receiver's contents become the merge, group limit and metadata are those of the other, and no sketch object is shared with it |
| SnapshotObjects.Snapshot.Reset | app/vmestimator/snapshot.go:279-290 | the decode buffer is empty again |
| SnapshotObjects.Collection.Add | app/vmestimator/snapshot.go:26-43 | the snapshot is merged into the one kept under its id, or a fresh one, which takes over its group limit and description, labels on top of those it had; other ids keep theirs, and nothing kept is shared with the argument |
| SnapshotObjects.SketchesPool.GetForMerge | app/vmestimator/snapshot.go:431-457 | hands out an empty sketch of the pool's precision that is no longer in the pool |
| SnapshotObjects.SketchesPool.Put | app/vmestimator/snapshot.go:459-467 | takes a sketch back emptied; pooled sketches stay empty and distinct |
| SnapshotObjects.Sketch.Merge | vendor/github.com/axiomhq/hyperloglog/hyperloglog.go:109-123 | union for equal precisions, nothing and an error otherwise, nothing for nil |
| Strings.SortIsCanonical | app/vmestimator/config.go:45 | sorting gives the same sequence for every order of the same strings |
| EstimatorId.EstimatorID | app/vmestimator/estimator.go:139-163 | the string is the specified identity, whatever the order in which the label map is ranged over |
| EstimatorId.IdIsInjective | app/vmestimator/estimator.go:139-163 | for clean names and values two identities are equal if and only if labels, group-by, formatted interval and filter are |
| EstimatorId.LabelsDecode | app/vmestimator/estimator.go:145-160 | the label part can be read back: names, values and where it ends |
| EstimatorId.JoinDecode | app/vmestimator/estimator.go:140-143 | comma-joined names without commas can be read back |
| EstimatorId.EqualsInNameCollides | app/vmestimator/estimator.go:152-158 | an equals sign in a name makes two label maps collide |
| EstimatorId.NulInValueCollides | app/vmestimator/estimator.go:152-158 | a NUL in a value makes two label maps collide |
| EstimatorId.CommaOrGlobalCollides | app/vmestimator/estimator.go:140-143 | a comma in a group-by name, or the reserved name, collides |
| Config.CanonicalKeeps | app/vmestimator/config.go:45-64 | a normalised group-by list keeps its names and has the label keyword only at its end |
| Config.CanonicalIgnoresOrder | app/vmestimator/config.go:45-64 | it does not depend on the order it was written in |
| Config.NormalizedIsIdempotent | app/vmestimator/config.go:43-69 | normalising twice is normalising once, and valid streams stay valid |
| Config.NormalizedIsUsable | app/vmestimator/config.go:109-130 | a normalised stream has a limit, buckets, a valid precision, a group-by list that never panics the constructor, and an interval that is not zero; its rotation period is positive exactly if the interval has two nanoseconds for each bucket |
| Config.NormalizedKeeps | app/vmestimator/config.go:43-130 | what is configured is kept, and what is missing is five minutes, 10000 groups, two buckets for each CPU between 4 and 64, precision 14 and sparse sketches |
| Config.NormalizedIsSettled | app/vmestimator/config.go:109-130 | filling in defaults again changes nothing, so a running estimator's configuration can be compared with the file's |
| Config.IntervalIsNotChecked | app/vmestimator/config.go:97-160 | a stream stays acceptable with any other interval |
| Config.TinyIntervalIsAccepted | app/vmestimator/config.go:97-160 | an accepted stream whose rotation period is zero, and one whose period is negative |
| Config.CollidingStreamsAreRefused | app/vmestimator/config.go:77-91 | two streams with different labels, each acceptable although a label name holds an equals sign, that are refused together |
| Config.IdIgnoresGroupByOrder | app/vmestimator/config.go:43-94 | reordering group-by gives the same identity |
| Config.SameIdentityIff | app/vmestimator/config.go:86-90 | clean streams are taken for duplicates exactly if they agree on labels, group-by, interval and filter |
| Config.AcceptedStaysAccepted | app/vmestimator/config.go:43-94 | an accepted configuration, normalised, is accepted as it is |
| Config.AcceptableIff | app/vmestimator/config.go:43-94 | a configuration is accepted if and only if every precision is in range or missing, no list has `__label__` twice, no label is named like one of the program's own, and no two streams have the same identity once normalised |
| Config.AcceptedCanBeLoaded | app/vmestimator/config.go:77-91 | accepted streams have pairwise distinct identities |
| Config.NormalizeStream | app/vmestimator/config.go:44-69 | succeeds exactly on valid streams, with the normalised stream, and names the right problem otherwise |
| Config.CheckIds | app/vmestimator/config.go:77-91 | succeeds exactly without reserved labels and duplicate identities; a reported pair has the same identity |
| Config.ConfigFile.Prepare | app/vmestimator/config.go:43-94 | accepts exactly the acceptable configurations and leaves them normalised |
| Config.PrepareAndLoad | app/vmestimator/config.go:219-241 | a parsed file to running estimators: refused exactly if it is not acceptable, failing exactly if a new stream cannot be created, and otherwise served stream by stream, by the same object where the stream was served before; unless changed nothing moves |
| Loading.Loader.LoadConfig | app/vmestimator/config.go:163-214 | running estimators are exactly the published ones with distinct identities; it fails exactly if a new stream cannot be created, and then changes nothing and stops what it created; it reports no change exactly if the set of streams is the same; kept streams keep their object, others get a new one; there is one swap, before it fingerprinting is turned on exactly if a new stream needs it, after it, with the new estimators published, the deduplicator is reset exactly if a stream is new, and last exactly the estimators left over are stopped, once each |
| Loading.Loader.Resolve | app/vmestimator/config.go:168-191 | every stream is served by the active estimator with its configuration or by a new one |
| Loading.Loader.StopAll | app/vmestimator/config.go:182-184 | each listed estimator is stopped, none twice |
| Loading.RunningAfter | app/vmestimator/config.go:163-210 | after stopping the removed estimators exactly the served ones run |
| Loading.UnchangedIff | app/vmestimator/config.go:190-192 | nothing created and nothing removed if and only if the set of streams is the same |
| Loading.KeptIsSameObject | app/vmestimator/config.go:174-179 | an estimator whose configuration is in the new file stays the same object |
| Loading.Reload | app/vmestimator/config.go:219-269 | over any sequence of unreadable, failing, unchanged and good files the estimators serve exactly the last configuration that loaded, and a stream in every configuration in force keeps its object |
| Churn.ChurnSnapshots.Update | app/vmestimator/churn.go:49-94 | each group of the snapshot has its sketch as the current one, whatever the order of the map, all other entries stay, and every entry is what the samples and cleanups of its key make of it over the whole history of calls |
| Churn.ChurnSnapshots.Cleanup | app/vmestimator/churn.go:97-103 | drops exactly the entries not updated for two intervals, and keeps every entry what its history makes of it |
| Churn.RunCharacterisation | app/vmestimator/churn.go:49-103 | after any run of samples and cleanups, each sample with its interval and group values, current is the last sample and the baseline is the sample before the last greedy rotation point, or nothing before the first rotation; interval and values are those of the first sample since the last drop |
| Churn.EntriesAreCharacterised | app/vmestimator/churn.go:49-103 | so after any calls on the object that is what it has for each key, with the samples of the snapshots of that id that had the group |
| Churn.GreedyIsUnique | app/vmestimator/churn.go:84-91 | there is only one way to choose greedy rotation points |
| Churn.BaselineIsRecent | app/vmestimator/churn.go:84-91 | after any run the current sample is at most an interval after the baseline if and only if the interval is not negative or the clock has gone back since |
| Churn.AlwaysRecentIff | app/vmestimator/churn.go:84-91 | it is after all runs if and only if the interval is not negative |
| Churn.Ratio | app/vmestimator/churn.go:134-157 | lies in [0, 1] for every estimate, monotone or not |
| Churn.ExactRatio | app/vmestimator/churn.go:134-157 | with exact estimates it is the symmetric difference over the union, zero exactly for equal and one exactly for disjoint sets |
| Unmarshal.Unmarshaler.UnmarshalProtobuf | app/vmestimator/protoparser/write_request.go:72-113 | from any earlier history it fails exactly if a field of the request, of a series or of a label is bad; otherwise the slots show the series of the series messages in order, their labels in the order of the label messages, and as fingerprint the hash of all label messages one after the other; a failed read leaves no series |
| Unmarshal.RequestDecodes | app/vmestimator/protoparser/write_request.go:72-113 | the pure decoder means the same, field by field |
| Unmarshal.SeriesDecodes | app/vmestimator/protoparser/write_request.go:115-186 | a label has the name and the value of its last fields, or none, and the hash of the value as its fingerprint if labels are fingerprinted, and 0 otherwise |
| Unmarshal.ReadSeries | app/vmestimator/protoparser/write_request.go:93-108 | one more series leaves the labels of all earlier ones as they were, also when the arena or the slots move |
| Unmarshal.UnmarshalSeries | app/vmestimator/protoparser/write_request.go:115-186 | appends the labels of a series to the arena without touching what is in use, and fails exactly on bad fields |
| Unmarshal.AppendLabel | app/vmestimator/protoparser/write_request.go:175-179 | appends in place while there is room and in a larger copy otherwise |
| Unmarshal.ParseLabel | app/vmestimator/protoparser/write_request.go:154-172 | the last name and the last value of a label count |

## Left out

- HTTP serving, remote fetching, gob transport, signals, tickers, logging, operational metrics, response caching and Prometheus text output: input and output. Of the request handler only its order of steps is kept.
- The inside of the HyperLogLog library and the accuracy of estimates: a sketch is the set of its hashes. Where a result needs exact estimates its contract says so; elsewhere estimates are arbitrary.
- xxhash and metro hash: arbitrary functions. The start offset is an arbitrary number.
- Decompression and the wire format of fields: requests are streams of fields already told apart, and strings are values, so that decoded strings share memory with the request buffer is not modelled.
- Filter compilation and regular expressions: the filter is an arbitrary predicate on labels.
- Words of the Bloom filter are sets of bit numbers instead of machine words: reading and setting one bit is all the code does with them.
- Sketches inside an estimator are values in its maps. That snapshots, pool and decode buffer share no sketch object is proved in `SnapshotObjects`.
- Deduplicator.FillBounded: is about one thread; what writers that check together do to a filter is in `CapacityProtocol`.
- Bloom.BloomFilter.Add: is the single-threaded contract; concurrent calls are in `BloomProtocol`.
- EstimatorBuckets.EstimatorBucket.Insert: is the contract under the bucket's lock; what the shared counter sees from several buckets at once is in `GroupLimitProtocol`.
- EstimatorSnapshots.GroupSnapshot: is the contract without interleaved inserts; batches with the lock dropped in between are in `SnapshotProtocol`.
- Retention.LiveSeriesNeverLost: is about rotations less than a period late, for which the loops miss no boundary, and one delivery at a time; that a delivery interleaves with a rotation step by step is in `ReloadProtocol` and `BloomProtocol`.
- LabelFingerprints.CountedIff: says of a label whose fingerprint is 0 by hashing what it says of one without a fingerprint, as the program does.
- EstimatorBuckets.GroupSize.TotalReported: takes the threshold, eighty percent of the limit rounded by floating point in the program, as a number.
- Churn.Ratio: is computed in exact arithmetic; the rounding of floating-point division is not modelled.
- Config.ConfigFile.Prepare: does not say how far the streams of a rejected configuration were rewritten, since the caller discards them.
- Loading.Loader.LoadConfig: takes the identity and whether an estimator can be created as given; `Config.PrepareAndLoad` instantiates both with what `EstimatorId` and `Config` say they are, and a filter compiles or not as given.
- EstimatorId.IdIsInjective: takes the interval as formatted text, so two intervals are told apart as far as the formatter does.
- Conversion of a memory budget to a number of items, and the flags of the deduplicator: one division.
