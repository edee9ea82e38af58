# PulseAnalytics: verified models of its in-process algorithms

Dafny models of the parts of PulseAnalytics whose behaviour does not show in any single function: routing on the
consistent hash ring, the Redis token bucket, the two-tier query cache, the write-behind ClickHouse writer and its
sharded form, the bulkhead, the circuit breaker, the session engine, the funnel service, and two kernels of the query
service (splitting paths, funnel rates). `dafny verify dfyconfig.toml` checks everything.

Objects that the Go code updates in place are classes here; their methods follow the Go methods statement by statement
and are proved equal to a step function on values. What goroutines interleave is modelled as a state machine over the
same step functions, with one step per channel operation, locked section or clock reading, and results about it hold for
every schedule. One machine is coarser: in `TieredCache.dfy` a Get or Set of L1 is one step. `L1Races.dfy` takes them
apart, and the staleness bound does not depend on the difference: an expiry check that comes late is
`DelayedCheckIsBounded`, a delete that comes late the step `LoseL1`, a refresh elected at any time the step `ElectLate`.
Time, hashes, Redis and ClickHouse are inputs: each clock reading is a parameter, hashes are
uninterpreted functions, Redis is a map whose values expire, ClickHouse an oracle that may answer anything.

| file | models |
|---|---|
| `Common.dfy` | lists without duplicates, filtered lists, decimal formatting |
| `Ring.dfy`, `RingRouting.dfy` | `internal/consistent/hash.go`: the ring and its histories; lookups and failover |
| `TokenBucket.dfy` | the rate limit script and `AllowRate` |
| `L1Cache.dfy`, `L1Races.dfy`, `L1Reads.dfy` | `internal/cache/l1.go`: one call at a time; interleaved; what the readers of a key are told |
| `TieredCache.dfy` | L1 per pod, Redis, ClickHouse, stale-while-revalidate |
| `Writer.dfy`, `WriterCalls.dfy` | the batching loop with producers, ticker and shutdown; what callers of `Write` can rely on when they overlap |
| `Sharding.dfy` | `Write` and the sharded writer, one call at a time |
| `Bulkhead.dfy`, `Breaker.dfy` | the two resilience wrappers |
| `Session.dfy`, `Funnel.dfy` | the two stream processors against batch definitions |
| `PathSplit.dfy`, `FunnelRates.dfy` | `splitPath`; the rates of `Funnel` in the query service |

## Where the code does not do what is said of it

The models follow the code. For each promise below, the exact condition under which the code keeps it is proved.

- The repository's README (line 261) says the ring uses FNV-1a; the code hashes with SHA-256 cut to 32 bits. Registering a node and
  removing it again restores the ring, and the order of registrations does not matter, if and only if the points
  involved do not collide (`AddThenRemoveIsIdentityIff`, `OrderIrrelevantIff`).
- `GetN` promises the first n distinct nodes. It returns if and only if min(n, nodes) nodes own a point
  (`GetNReturnsIff`); without collisions it always returns if and only if every weight is at least 1
  (`AlwaysReturnsIffWeighted`). Otherwise it loops forever, or divides by zero when no node owns a point
  (`WeightZeroNeverReturns`).
- The rate limiter limits nothing when `2 * burst < rate`: the expiry is then 0 seconds, Redis refuses the `SET`, and
  `AllowRate` fails open (`LimitEnforcedIff`).
- `internal/cache/l1.go:22-24` says the oldest entries are evicted. A key that expired and was set again keeps its old
  slot, so it may go first although it is the newest (`DoubledSlotEvictsNewer`). The promise holds if and only if the
  unexpired keys have their first and their last slots in the same order (`SweepKeepsNewestIff`).
- A cached query result is not bounded by either tier's expiry but by their sum, and that bound is reached
  (`BoundedStaleness`, `StalenessBoundIsReached`).
- `internal/clickhouse/writer.go:34-35` says `Write` blocks at the hard limit. It drops the event and counts it; and the
  error it returns is judged by the gauge before the call. Over all runs in which at most c calls overlap, with at most k
  events each, and the loop moves as it likes, callers are told of every drop if and only if the calls carry nothing, or
  take turns (c = 1) and are no larger than the buffer less the soft limit, and one; of any size if the soft limit is 0
  (`NeverSilentIff`). Once two calls may overlap, one event each is too many: a call that began at an empty buffer loses
  its event without an error (`OverlapLosesEvent`).
- `internal/bulkhead/bulkhead.go:4-5` promises that one tenant cannot starve others. A request over its own tenant's
  limit holds a global slot until it rolls back, and others can be refused meanwhile. At whatever limits this can happen
  if and only if there are more goroutines than global slots (`NoisyTenantStarvesIff`, `RefusedBelowLimitIff`).
- `internal/circuitbreaker/breaker.go:7,13` promises a single probe and recovery after `successThreshold` of them. The
  gate reads a counter that only `record` raises: a half-open breaker admits calls exactly until the first outcome is
  recorded (`HalfOpenAdmitsIff`, `ProbesUnlimited`), and for callers taking turns recovery works if and only if the
  threshold is 1; the default is 2 (`SequentialRecoveryIff`, `HalfOpenRecoversIff`).
- A session whose device stays silent for more than 35 minutes never gets its `session_end`, because Redis has dropped
  the state by then (`EverySessionEndsIff`).
- The funnel service measures the window from the first step it ever saw and drops the event that exceeds it, so every
  funnel of two or more steps misses some conversions that lie inside the window (`FindsAllIff`). It never reports a
  conversion that is not there (`EmissionsAreSound`).
- `splitPath` panics when two separators share a space (`PanicsIff`), as for an event named `->` between two others
  (`ArrowPanics`), and undoes the join if and only if no name hides a separator (`RoundTripIff`).

## Model

| member | source | states |
|---|---|---|
| ConsistentHash.VnodeKeyInjective | internal/consistent/hash.go:65-66 | the label `node:i` identifies the virtual node, whatever colons node names contain |
| Common.DecimalValue | internal/consistent/hash.go:66 | `%d` writes the decimal digits of its number, without leading zeros |
| ConsistentHash.PointsAreLabels | internal/consistent/hash.go:65-66 | a node of weight w claims the w points hash(node:0) to hash(node:w-1) |
| ConsistentHash.AscendingUnique | internal/consistent/hash.go:70 | two ascending lists with the same points are equal, so which sort is used does not matter |
| ConsistentHash.AddKeepsWellFormed | internal/consistent/hash.go:56-71 | even with collisions: `sorted` stays ascending, lists exactly the owned points, and every owner is registered and claims its point |
| ConsistentHash.RemoveKeepsWellFormed | internal/consistent/hash.go:74-98 | the same for removal |
| ConsistentHash.AddKeepsExact | internal/consistent/hash.go:56-71 | registration without collision keeps `sorted` strictly increasing and every node owner of exactly its points |
| ConsistentHash.RemoveKeepsExact | internal/consistent/hash.go:74-98 | removal keeps that, unconditionally |
| ConsistentHash.RunIsWellFormed | internal/consistent/hash.go:54-98 | the collision-tolerant invariant after every history |
| ConsistentHash.RunIsExact | internal/consistent/hash.go:54-98 | the exact invariant after every collision-free history |
| ConsistentHash.ExactOwnsLabels | internal/consistent/hash.go:54-98 | on an exact ring every node owns the hashes of its labels up to its weight |
| ConsistentHash.ExactOwnsOnlyLabels | internal/consistent/hash.go:54-98 | and every listed point is the hash of a label of its owner, below its weight |
| ConsistentHash.ExactUnique | internal/consistent/hash.go:27-34 | the weighted node map determines the point map and the sorted list |
| ConsistentHash.HistoryIndependence | internal/consistent/hash.go:54-98 | two collision-free histories that end in the same weighted node set give the same ring and the same replica order for every key |
| ConsistentHash.SeparatingHashIsCollisionFree | internal/consistent/hash.go:65-66 | if the hash separates the labels a history uses, the history is collision-free: labels add no collisions |
| ConsistentHash.AddThenRemoveIsIdentityIff | internal/consistent/hash.go:56-98 | adding a new node and removing it restores the whole state if and only if none of its points was owned |
| ConsistentHash.OrderIrrelevantIff | internal/consistent/hash.go:56-71 | two new nodes give the same ring in either order if and only if they share no point |
| RingRouting.CollectsIff | internal/consistent/hash.go:139-150 | the loop of GetN ends, without dividing by zero on an empty list, if and only if no more nodes are wanted than the lap from the key has distinct owners |
| RingRouting.LapMeetsEveryOwner | internal/consistent/hash.go:139-150 | collisions or not, the lap from any key meets as many distinct owners as own a point |
| RingRouting.GetNReturnsIff | internal/consistent/hash.go:123-151 | GetN returns for a key and n if and only if min(n, nodes) nodes own a point |
| RingRouting.AlwaysReturnsIffAllOwn | internal/consistent/hash.go:123-151 | collisions or not, every GetN returns if and only if there are as many owners of points as nodes |
| RingRouting.AlwaysReturnsIffWeighted | internal/consistent/hash.go:123-151 | without collisions, every GetN returns if and only if every registered weight is at least 1 |
| RingRouting.WeightZeroNeverReturns | internal/consistent/hash.go:56-71 | after AddWeighted(x, 0) on an empty ring, GetN for one node divides by zero |
| RingRouting.PrimaryHeadsPreference | internal/consistent/hash.go:102-119 | Get is the head of the clockwise preference list |
| RingRouting.PrimaryOwnsNearest | internal/consistent/hash.go:100-119 | Get names the owner of the point nearest clockwise to the key's hash, modulo 2^32 |
| RingRouting.PreferenceByDistance | internal/consistent/hash.go:121-151 | GetN's replicas are ordered by clockwise distance: each has a point nearer to the key than every point of those after it |
| RingRouting.PreferenceIsComplete | internal/consistent/hash.go:121-151 | on an exact ring the preference list of any key names every node of positive weight once and nothing else |
| RingRouting.ReplicaShape | internal/consistent/hash.go:121-151 | GetN gives min(n, nodes) distinct nodes headed by Get, and a longer request extends a shorter one |
| RingRouting.LookupsAreRegistered | internal/consistent/hash.go:100-151 | even with collisions lookups name only registered nodes |
| RingRouting.RemovalStrikesNode | internal/consistent/hash.go:74-98 | removal takes the node out of every preference list and changes nothing else in it |
| RingRouting.FailoverReplicas | internal/consistent/hash.go:74-151 | after a removal GetN(k, n) is the old list cut at n + 1, without the node, cut at n |
| RingRouting.FailoverPrimary | internal/consistent/hash.go:74-119 | keys of other nodes keep their owner, keys of the removed node go to their old second replica |
| RingRouting.AdditionMovesKeysOnlyToNewNode | internal/consistent/hash.go:56-119 | a new node leaves the other replicas in their order, and a key either keeps its owner or moves to the new node |
| RingRouting.Ring.constructor | internal/consistent/hash.go:38-47 | empty ring; a replica count that is not positive becomes 150 |
| RingRouting.Ring.Add | internal/consistent/hash.go:50-52 | registration with the default weight, as a step on the whole state |
| RingRouting.Ring.AddWeighted | internal/consistent/hash.go:56-71 | the loop and the sort perform the registration step of the histories on all three fields |
| RingRouting.Ring.Remove | internal/consistent/hash.go:74-98 | both loops perform the removal step of the histories on all three fields |
| RingRouting.Ring.Search | internal/consistent/hash.go:112-114 | binary search finds the first point at or after the hash |
| RingRouting.Ring.Get | internal/consistent/hash.go:102-119 | the owner of the first point clockwise from the key, "" on an empty ring |
| RingRouting.Ring.CollectFrom | internal/consistent/hash.go:139-150 | the wrapping loop returns the first distinct owners clockwise |
| RingRouting.Ring.GetN | internal/consistent/hash.go:123-151 | the first min(n, nodes) distinct owners clockwise; required: that many exist, else the loop does not end |
| TokenBucket.RateLimiter.AllowRate | internal/redis/client.go:166-211 | one evaluation of the script on the key space, including the refused expiry and failing open |
| TokenBucket.TokensInRange | internal/redis/client.go:176-195 | stored tokens never leave [0, burst] |
| TokenBucket.GreedyIsOptimal | internal/redis/client.go:186-194 | after every prefix of every trace the script has admitted at least as many requests as any policy whose own bucket never goes negative |
| TokenBucket.Envelope | internal/redis/client.go:181-195 | between any two requests of any run at most burst + rate * elapsed are admitted |
| TokenBucket.TtlPositiveIff | internal/redis/client.go:173-174 | the expiry is at least a second if and only if 2 * burst >= rate |
| TokenBucket.ExpiryUnseen | internal/redis/client.go:173-187 | whether or not the keys have expired, the refilled level is the same |
| TokenBucket.StoreTracksBucket | internal/redis/client.go:173-195 | among any traffic on independent keys the two Redis cells hold exactly the key's bucket |
| TokenBucket.EvictionUnobservable | internal/redis/client.go:173-195 | every answer for a key is that of a bucket that never expires |
| TokenBucket.KeyEnvelope | internal/redis/client.go:166-211 | in traffic of any other keys, of a key's requests number i to j at most burst + rate * elapsed are admitted |
| TokenBucket.AllAdmittedBelow | internal/redis/client.go:203-208 | with 2 * burst < rate every request is admitted |
| TokenBucket.LimitEnforcedIff | internal/redis/client.go:166-211 | all traces of a key obey burst + rate * elapsed if and only if 2 * burst >= rate |
| L1.PopKeepsCover | internal/cache/l1.go:217-222 | popping ends at exactly the capacity when over it, touches no surviving entry, and every entry keeps a slot |
| L1.SweepRestoresBound | internal/cache/l1.go:204-232 | after the janitor: min(capacity, unexpired) entries, none expired, none changed, and the slots list exactly the entries |
| L1.SweepSurvivors | internal/cache/l1.go:204-232 | with stale and doubled slots, the survivors are the unexpired keys whose first slot comes last |
| L1.LastSlotIsInsertion | internal/cache/l1.go:106-111 | the order of last slots is insertion order: an absent key goes last, an overwrite changes nothing, a removed key just leaves |
| L1.SweepKeepsInsertion | internal/cache/l1.go:210-231 | the janitor, dropping and rewriting slots, leaves the survivors in that order and only removes the keys that go |
| L1.SweepKeepsNewestIff | internal/cache/l1.go:204-232 | the janitor keeps the newest keys, at every capacity, if and only if the unexpired keys have first and last slots in the same order |
| L1.SweepKeepsNewest | internal/cache/l1.go:204-232 | without any doubled slot the survivors are the last min(capacity, unexpired) keys of the slice, the newest |
| L1.DoubledSlotEvictsNewer | internal/cache/l1.go:217-222 | a key that expired, was read and set again is evicted before an older one |
| L1.L1Cache.Set | internal/cache/l1.go:92-121 | entry and expiry times, a slot only for a key without entry, the revalidation flag cleared; every entry has a slot |
| L1.L1Cache.Get | internal/cache/l1.go:123-154 | miss, expired with deletion, stale with election of a refresher, fresh; the whole state after each |
| L1.L1Cache.Delete | internal/cache/l1.go:156-162 | entry and flag go, the slot stays |
| L1.L1Cache.EvictExpired | internal/cache/l1.go:204-232 | the three loops together are the sweep above and restore the bound |
| L1.L1Cache.DeleteExpired | internal/cache/l1.go:210-215 | in any map order exactly the expired entries go |
| L1.L1Cache.PopOverflow | internal/cache/l1.go:217-222 | pops the front of the slice while over capacity |
| L1.L1Cache.RebuildOrder | internal/cache/l1.go:224-231 | keeps the slots of present keys, in order |
| L1Races.RunKeepsInv | internal/cache/l1.go:92-161 | in every interleaving the entries are the latest sets and at most one reader per key is elected between clearings |
| L1Races.ServesLatestElectsOne | internal/cache/l1.go:92-161 | whatever is served was the latest value set for its key at lookup and unexpired when checked; at most one refresher |
| L1Races.RacingSetIsLost | internal/cache/l1.go:132-137 | an interleaving in which the delete of an expired entry throws away a fresh value |
| L1Reads.FirstStaleReaderRefreshes | internal/cache/l1.go:92-154 | after a Set, whatever is read and written of other keys: Gets answer the value until one finds it past ttl, then all miss; of those strictly between staleTTL and ttl the first and no other is told to refresh |
| L1Reads.FirstOfTwo | internal/cache/l1.go:92-154 | an entry for 60, stale after 45, read at 44, 50, 51 and 61: hit, hit with refresh, hit, miss |
| L1Reads.DeletedIsMissed | internal/cache/l1.go:156-162 | after Delete every Get misses until the key is set again |
| L1Reads.GetIsSteps | internal/cache/l1.go:123-154 | Get as one call is its interleaved steps in a row, with the same value served and the same reader told to refresh |
| L1Reads.WritesAreSteps | internal/cache/l1.go:92-162 | so are Set, Delete and the sweep |
| L1Reads.ElectsExactlyOne | internal/cache/l1.go:143-149 | in every interleaving, once a stale reader has been through the election exactly one reader of the key has been told |
| TieredCache.RunKeepsInv | internal/querying/service.go:171-276 | over any pods, readers, refreshes, sweeps and losses: what each tier holds until its expiry was answered by ClickHouse for that key within the tier's age bound |
| TieredCache.BoundedStaleness | internal/querying/service.go:43-276 | every value read at t was answered by ClickHouse for the same key no earlier than t minus both expiries and twice the write lag |
| TieredCache.DelayedCheckIsBounded | internal/cache/l1.go:123-137 | an entry looked up in L1 and found unexpired only after any other steps is still within the bound when served |
| TieredCache.StalenessBoundIsReached | internal/querying/service.go:191-199 | a run with two pods that serves a value exactly six minutes old |
| TieredCache.Service.Read | internal/querying/service.go:171-250 | the tiered read as one step: the answer, the state of both tiers, and that what is served was answered within the age bound |
| TieredCache.Service.ReadBehindL1 | internal/querying/service.go:189-212 | Redis with refill of L1, then ClickHouse with both tiers filled; a value from Redis is within the bound of that tier |
| TieredCache.Service.Refill | internal/querying/service.go:193-196 | a value from Redis enters L1 for a full expiry and stays within the age bound |
| TieredCache.ReadIsSteps | internal/querying/service.go:171-250 | the read as one call is a run of the interleaved steps, from any world, with nothing in between |
| TieredCache.StaleHitRefreshes | internal/querying/service.go:179-187 | a stale hit serves its value at once and starts a refresh exactly if nobody refreshes the key |
| TieredCache.AnyoneMayRefresh | internal/querying/service.go:182-184 | a refresh can be started at any time, which covers elections that come late |
| TieredCache.CallersJoin | internal/querying/service.go:203-205 | a caller joins the query under way for the same key on its pod, and no other |
| TieredCache.FollowerIsAnswered | internal/querying/service.go:203-212 | and gets that query's value when the call returns |
| TieredCache.Lifetimes | internal/querying/service.go:43-49 | L1 keeps a value for 60 seconds, stale from 45, Redis for 300 |
| TieredCache.RefreshIsSteps | internal/querying/service.go:252-276 | the refresh as one call is a run of its steps |
| TieredCache.FailedRefreshIsMissed | internal/querying/service.go:256-260 | after a failed refresh the next read misses in L1 and a refresher can be elected again |
| TieredCache.Service.Populate | internal/querying/service.go:534-541 | writes both tiers and keeps their age bounds |
| TieredCache.Service.Refresh | internal/querying/service.go:252-276 | success fills both tiers, failure removes the L1 entry; age bounds kept |
| WriteBehind.RunKeepsInv | internal/clickhouse/writer.go:86-160 | order, bounds, gauge, account and the meaning of every returned error, after every schedule of producers, ticker, loop and Stop |
| WriteBehind.Conservation | internal/clickhouse/writer.go:86-183 | each offered event is in exactly one of inserted, failed, buffer, hand, channel, dropped; at most 2 * bufSize held; batches of 1 to bufSize |
| WriteBehind.FlushCounts | internal/clickhouse/writer.go:162-183 | a batch's events count as inserted or as failed by what the insert returned |
| WriteBehind.FlushedInOrder | internal/clickhouse/writer.go:115-160 | what was handed to doFlush is a prefix of what was accepted |
| WriteBehind.TickFlushes | internal/clickhouse/writer.go:153-157 | in every run, a tick that finds events in the buffer hands exactly these to doFlush; until it returns the loop does nothing else, and then they are one batch and the buffer is empty |
| WriteBehind.FlushStartsIff | internal/clickhouse/writer.go:115-160 | a flush starts exactly on a tick, on a full buffer after draining, or on the closed empty channel, each with events in the buffer |
| WriteBehind.DrainEndsIff | internal/clickhouse/writer.go:134-146 | draining stops exactly when the channel is empty or the buffer full |
| WriteBehind.TickIsSeen | internal/clickhouse/writer.go:118-153 | a fired ticker stays pending and can be taken whenever the loop selects |
| WriteBehind.GaugeIsExactWhenQuiet | internal/clickhouse/writer.go:86-133 | with no Write in progress `pending` is the channel length plus the event in hand |
| WriteBehind.BackpressureMeans | internal/clickhouse/writer.go:86-106 | when calls interleave: the error is returned only if the soft limit of events really waited when the call began, and missed by at most one event per other call in progress |
| WriteBehind.FlushedKeepsOfferedOrder | internal/clickhouse/writer.go:86-183 | what was handed to doFlush is what callers offered, in their order, with some events left out |
| WriteBehind.LoopStepDecreases | internal/clickhouse/writer.go:115-160 | after close every step of the loop comes nearer to its end |
| WriteBehind.OnlyLoopMoves | internal/clickhouse/writer.go:225-230 | after close nothing but the loop moves, and it can until it returns |
| WriteBehind.ContinueBounded | internal/clickhouse/writer.go:225-230 | every continuation after close is bounded and accepts nothing more |
| WriteBehind.StopDrainsEverything | internal/clickhouse/writer.go:225-230 | Stop returns, and then every accepted event has been handed to doFlush exactly once, in order |
| Sharding.AloneIsAfterWrite | internal/clickhouse/writer.go:86-107 | Write as one step is the producer of the state machine when nothing interleaves |
| Sharding.AloneAnswers | internal/clickhouse/writer.go:87-106 | and the error it returns is the one the machine records |
| Sharding.DropsSilentlyIff | internal/clickhouse/writer.go:86-107 | for one call that nothing interleaves with: it drops events and returns no error if and only if it has more events than there is room and begins below the soft limit |
| Sharding.SafeSizeIff | internal/clickhouse/writer.go:86-107 | for calls that nothing interleaves with, at an exact gauge: none of k events drops silently if and only if the soft limit is 0 or k is at most the buffer less the soft limit, and one |
| Sharding.DropsOneOfFour | internal/clickhouse/writer.go:86-107 | with a buffer of ten, seven waiting and four more, one is dropped and no error returned |
| Sharding.Writer.Write | internal/clickhouse/writer.go:86-107 | one call that nothing interleaves with: what fits is queued in order, the rest dropped and counted; the error depends only on the gauge before the call |
| Sharding.AppStaysTogether | internal/clickhouse/client.go:194-202 | an app's events are all in the shard ShardFor names, in input order, and in no other |
| Sharding.ShardForIsModulo | internal/clickhouse/client.go:194-202 | ShardFor, special case included, is FNV-1a of the app modulo the number of shards, as in the sharded writer |
| Sharding.ShardsPartition | internal/clickhouse/writer.go:265-270 | the shards' events together are the input |
| Sharding.OneShardTakesAll | internal/clickhouse/writer.go:258-260 | a single shard is the pass-through case |
| Sharding.FlushedAppOrder | internal/clickhouse/writer.go:234-279 | per-app ordering end to end for one caller: over several Writes, what the app's shard flushes of it is what the calls contained of it, in order, with some events left out; other shards flush none |
| Sharding.ShardedWriter.Group | internal/clickhouse/writer.go:262-270 | the buckets are exactly the non-empty per-shard subsequences |
| Sharding.ShardedWriter.WriteBuckets | internal/clickhouse/writer.go:272-278 | for any map order every writer gets its bucket once, and the error is that of some bucket's writer |
| Sharding.ShardedWriter.Write | internal/clickhouse/writer.go:257-279 | one call that nothing interleaves with: every shard ends as after a single Write of its events; the error does not depend on iteration order |
| WriterCalls.NeverSilentIff | internal/clickhouse/writer.go:86-160 | over every run with at most c overlapping calls of at most k events and a free loop: no reachable state has a drop whose caller gets no error if and only if c or k is 0, or c is 1 and the soft limit is 0 or k at most the buffer less the soft limit, and one |
| WriterCalls.TurnsKeepTurn | internal/clickhouse/writer.go:86-160 | while calls take turns the channel never exceeds what the call read by more than its own events |
| WriterCalls.LargeCallDropsSilently | internal/clickhouse/writer.go:86-107 | for every buffer, a run of calls taking turns whose last, larger call drops silently |
| WriterCalls.OverlapDropsSilently | internal/clickhouse/writer.go:86-107 | for every buffer, a run of two overlapping callers with one event per call that reaches a silent drop |
| WriterCalls.OverlapLosesEvent | internal/clickhouse/writer.go:86-107 | and in which that event is dropped and its call, begun at an empty buffer, returns no error |
| WriterCalls.OverlapIsNotSafe | internal/clickhouse/writer.go:86-160 | with two overlapping calls every size of call can drop silently, also with a buffer of one event, where the gauge can go below 0 |
| WriterCalls.EachCallInOrder | internal/clickhouse/writer.go:86-183 | in every interleaving of any calls, every flushed event belongs to one call and those of a call are flushed in its order, with dropped and waiting ones left out |
| WriterCalls.EachCallAppOrder | internal/clickhouse/writer.go:234-279 | per-app ordering for callers that race: what is flushed of a call's share for an app is the app's part of its input, in order, and only by the app's shard |
| Bulkhead.RunKeepsInv | internal/bulkhead/bulkhead.go:62-107 | in every schedule each channel holds one token per goroutine between taking and returning it, within its capacity |
| Bulkhead.LimitsHold | internal/bulkhead/bulkhead.go:62-107 | at most maxPerTenant bodies per tenant and maxGlobal overall, no default branch of Release, nobody ever blocked |
| Bulkhead.QuietIsEmpty | internal/bulkhead/bulkhead.go:62-107 | with no goroutine in flight all channels are empty and the active counter is 0 |
| Bulkhead.GlobalIsTenantsPlusTransient | internal/bulkhead/bulkhead.go:62-107 | global occupancy is the sum of the tenants' plus the goroutines entering, rolling back or leaving |
| Bulkhead.GlobalRejectionIff | internal/bulkhead/bulkhead.go:64-69 | a request meets the global limit if and only if tenant slots and transient goroutines fill it |
| Bulkhead.TenantRejectionIff | internal/bulkhead/bulkhead.go:71-80 | in every schedule, a request past the global limit is rolled back exactly when its own tenant's requests hold all its slots, and otherwise gets one |
| Bulkhead.NoisyTenantCausesRejection | internal/bulkhead/bulkhead.go:64-80 | for all limits and more goroutines than global slots: a schedule of one tenant's requests alone, its limit of them running, in which another tenant is refused |
| Bulkhead.FewAreNeverRefused | internal/bulkhead/bulkhead.go:64-69 | with no more goroutines than global slots nobody is ever refused globally |
| Bulkhead.RefusedBelowLimitIff | internal/bulkhead/bulkhead.go:64-80 | a request can be refused globally although fewer than maxGlobal hold a tenant slot if and only if there are more goroutines than global slots |
| Bulkhead.NoisyTenantStarvesIff | internal/bulkhead/bulkhead.go:4-5 | one tenant's requests can get another refused if and only if there are more goroutines than global slots, whatever the limits |
| Bulkhead.ReleaseUndoesAcquire | internal/bulkhead/bulkhead.go:62-97 | Release restores the state before a successful Acquire, up to the created semaphore |
| Bulkhead.AcquireIsMoves | internal/bulkhead/bulkhead.go:62-84 | Acquire as one call is the state machine with one goroutine moving |
| Bulkhead.ReleaseIsMoves | internal/bulkhead/bulkhead.go:87-98 | the same for Release |
| Bulkhead.Semaphores.constructor | internal/bulkhead/bulkhead.go:43-58 | limits that are not positive become 50 and 500 |
| Bulkhead.Semaphores.GetOrCreate | internal/bulkhead/bulkhead.go:126-135 | creates an empty semaphore only for a new tenant |
| Bulkhead.Semaphores.Acquire | internal/bulkhead/bulkhead.go:62-84 | succeeds exactly below the global limit and below the tenant's own, takes both slots or none, leaves other tenants alone, counts the rejection |
| Bulkhead.Semaphores.Release | internal/bulkhead/bulkhead.go:87-98 | frees both slots, tolerating empty channels |
| Bulkhead.Semaphores.Do | internal/bulkhead/bulkhead.go:101-107 | runs the function exactly below the global limit and the tenant's own, and leaves all slots as they were |
| Breaker.Config.WithDefaults | internal/circuitbreaker/breaker.go:61-73 | each value that is not positive becomes 5, 30 seconds or 2, the others stay, and the result is usable |
| Breaker.CircuitBreaker.Allow | internal/circuitbreaker/breaker.go:142-161 | half-opening by time, then admission by state, as one atomic step |
| Breaker.CircuitBreaker.Record | internal/circuitbreaker/breaker.go:163-192 | counters and transitions in whatever state the outcome arrives |
| Breaker.CircuitBreaker.Reset | internal/circuitbreaker/breaker.go:134-138 | to Closed with fresh counters, nothing when already Closed |
| Breaker.CircuitBreaker.Execute | internal/circuitbreaker/breaker.go:108-116 | a call during which nothing else uses the breaker is an allow and, if admitted, a record |
| Breaker.ExecuteIsSteps | internal/circuitbreaker/breaker.go:108-116 | such a call is the two steps of the runs below with nothing in between |
| Breaker.RunIsCharacterised | internal/circuitbreaker/breaker.go:142-219 | whatever arrives late: the counters are those of the outcomes since the last transition; Closed has fewer than MaxFailures trailing failures; HalfOpen has only successes, fewer than SuccessThreshold |
| Breaker.AdmittedIff | internal/circuitbreaker/breaker.go:142-161 | in every run, a call is admitted exactly if the breaker is closed, half-open without an outcome yet, or open since a failure at least OpenTimeout ago |
| Breaker.ClosedRunsAndRecords | internal/circuitbreaker/breaker.go:108-116 | a closed breaker runs every function and records its outcome, opening on failure number MaxFailures in a row |
| Breaker.ResetCloses | internal/circuitbreaker/breaker.go:134-138 | in every run Reset leaves the breaker closed, keeps the counters of one that was, and the next call is admitted |
| Breaker.HalfOpenAdmitsIff | internal/circuitbreaker/breaker.go:150-157 | in every run a half-open breaker admits a call exactly while no outcome has been recorded since it was entered |
| Breaker.OpenSpan | internal/circuitbreaker/breaker.go:163-200 | in every run that has left the breaker open: a recorded failure opened it, the MaxFailures-th in a row or half-open, at the time it keeps, and since then there was no Reset, no admitted call and no look after OpenTimeout |
| Breaker.LeavesOpenIff | internal/circuitbreaker/breaker.go:134-161 | and it leaves Open exactly by Reset, or by a call or look when OpenTimeout has passed since that failure |
| Breaker.HalfOpenRecoversIff | internal/circuitbreaker/breaker.go:150-157 | after a recorded probe a half-open breaker admits a call again without Reset, in a run starting at any time with a clock that does not go back, if and only if an admitted call is outstanding |
| Breaker.SequentialRecoveryIff | internal/circuitbreaker/breaker.go:11-14 | probes taken in turn close an open breaker if and only if SuccessThreshold is 1 |
| Breaker.ProbesUnlimited | internal/circuitbreaker/breaker.go:150-155 | until an outcome is recorded a half-open breaker admits any number of calls |
| Breaker.OutstandingSuccesses | internal/circuitbreaker/breaker.go:184-191 | successes of calls still outstanding close the breaker exactly on reaching the threshold |
| Session.InactiveIsGap | internal/session/engine.go:80-81 | the 64-bit nanosecond comparison is a gap above 30 minutes for all times up to the year 2262 |
| Session.WrapsOutsideRange | internal/session/engine.go:80-81 | beyond that range the 64-bit nanoseconds wrap: a gap of about 584 years counts as none |
| Session.SplitIsBatch | internal/session/engine.go:79-101 | the batch sessions are the maximal stretches without a gap above the timeout, and together the input |
| Session.Engine.Process | internal/session/engine.go:50-141 | id, emitted events and saved state of one event, for a state that is present, absent or expired |
| Session.RefinesBatch | internal/session/engine.go:50-141 | for every event sequence ids, emitted events and saved state are those of the batch sessions, also when Redis forgets after longer silences |
| Session.EventsConserved | internal/session/engine.go:103-164 | without loss: one start per session, and ended counts plus the open count are the events processed |
| Session.EmittedEventsReport | internal/session/engine.go:103-163 | each session_end says, field by field, id, app, user, device, start, end a millisecond before the next session, seconds, count, screens, first and last screen of a batch session; each session_start its first event |
| Session.ScreensAreShown | internal/session/engine.go:122-130 | the screens of a session are those of its screen_view and page_view events with a non-empty name, in order |
| Session.FirstUserIsFirst | internal/session/engine.go:118-120 | the user of a session is the first one named in it |
| Session.SessionsDisjoint | internal/session/engine.go:79-101 | for events in time order the batch sessions of a device follow each other without overlap |
| Session.ReportedIntervalsDisjoint | internal/session/engine.go:79-162 | the intervals that the emitted session ends report are disjoint, in order, and before the open session, also when Redis forgets after long silences |
| Session.IdsRightIff | internal/session/engine.go:56-80 | under any loss of state the ids are the batch ids if and only if each loss came at a session boundary or repeated the start time |
| Session.KeysSeparate | internal/session/engine.go:54 | Redis keys tell devices apart when app ids contain no colon |
| Session.KeysClash | internal/session/engine.go:54 | two devices of the apps a:b and a that share a key |
| Session.StoreRunsDevice | internal/session/engine.go:54-60 | among any other devices a device behaves as alone, its state forgotten after every silence over 35 minutes |
| Session.KeptThirtyFiveMinutes | internal/session/engine.go:135-138 | a saved state is found for 35 minutes and not after |
| Session.EverySessionEndsIff | internal/session/engine.go:135-138 | every closed session gets its end event if and only if no silence between sessions exceeds 35 minutes; ids are right regardless |
| Funnel.EarliestMatches | funnel/internal/service/service.go:89-99 | the greedy positions are an ordered match of a prefix of Steps |
| Funnel.EarliestIsLongest | funnel/internal/service/service.go:89-99 | no ordered match reaches further than the greedy one or has an earlier position |
| Funnel.StateIsLongestMatch | funnel/internal/service/service.go:77-125 | after any run under any loss, CompletedSteps is the longest prefix of Steps occurring in order in the present attempt, StepTimestamps its earliest times, as many, and Converted says it is all of Steps |
| Funnel.AttemptIsWithin | funnel/internal/service/service.go:101-111 | the matched steps of the present attempt lie within the window of the first |
| Funnel.EmissionsAreSound | funnel/internal/service/service.go:113-124 | under any loss each emission reports an ordered match in the history inside the window, ending at that event; a conversion matches all steps |
| Funnel.EmitsOnProgress | funnel/internal/service/service.go:94-124 | under any loss an event is reported exactly when it completes a step, with one more than before |
| Funnel.ConvertedIffSubsequence | funnel/internal/service/service.go:77-125 | while nothing has expired, converted means Steps is a subsequence of the event names, equivalently a match inside the window exists |
| Funnel.CompleteInsideWindow | funnel/internal/service/service.go:77-125 | if no event is later than an earlier one by more than the window, converted if and only if Steps is a non-empty subsequence |
| Funnel.ConvertsOnce | funnel/internal/service/service.go:85-87 | at most one conversion plus one per loss of state |
| Funnel.EmittedOnce | funnel/internal/service/service.go:85-87 | without loss a conversion is emitted once if the user has converted, else never |
| Funnel.OvertakenIsMissed | funnel/internal/service/service.go:101-110 | for every definition of two steps or more, a history whose match inside the window is missed |
| Funnel.FindsAllIff | funnel/internal/service/service.go:77-125 | all matches inside the window are found in all histories if and only if the funnel has one step |
| Funnel.FunnelService.EvaluateFunnel | funnel/internal/service/service.go:77-125 | the outcome and the stored state of one event for one funnel, with the expiry of its key |
| Funnel.FunnelService.Process | funnel/internal/service/service.go:55-75 | the definitions of the event's app in list order, conversions collected in that order |
| Funnel.KeyInjective | funnel/internal/service/service.go:78 | keys tell funnel and user apart when ids contain no colon |
| Funnel.StoreRunsUser | funnel/internal/service/service.go:55-125 | among any other users and funnels, store and emissions of a user are the run of that user's events, with loss where the key had expired |
| Funnel.KeptSevenDays | funnel/internal/service/service.go:106-115 | a state is found for seven days after the event that wrote it and not after |
| Funnel.ConversionsInListOrder | funnel/internal/service/service.go:60-74 | the conversions of one event come in the order of the definitions, at most one for each of the event's app |
| Funnel.ServiceConvertsIff | funnel/internal/service/service.go:55-125 | over at most seven days and inside the window Process reports exactly one conversion if Steps is a subsequence of the user's events, else none |
| PathSplit.SplitPath | internal/querying/analytics.go:883-895 | the loop computes the scan, and stops with a panic exactly where the scan says |
| PathSplit.SplitIsExact | internal/querying/analytics.go:883-895 | joining the parts gives the path back and no part hides a separator |
| PathSplit.SplitIff | internal/querying/analytics.go:883-895 | the result is the one list whose join is the path and whose only separators are the joins |
| PathSplit.PanicsIff | internal/querying/analytics.go:887-890 | a slice bound fails if and only if two separators overlap in a space |
| PathSplit.ArrowPanics | internal/querying/analytics.go:883-895 | the path of an event named -> between two others makes splitPath panic |
| PathSplit.RoundTripIff | internal/querying/analytics.go:883-895 | splitting undoes joining if and only if no name, with the spaces beside it, contains a separator |
| PathSplit.RoundTrip | internal/querying/analytics.go:90 | in particular for all non-empty lists of names without '>' |
| FunnelRates.SumIsAtLeast | internal/querying/service.go:316-335 | in every map order the sum for a step is the number of users at that level or beyond |
| FunnelRates.Rates | internal/querying/service.go:316-344 | the three loops give name, users and both rates of every step, for all map orders, and never divide by zero |
| FunnelRates.CountLevels | internal/querying/service.go:316-324 | the first loop adds up the rows of each level |
| FunnelRates.SumLevels | internal/querying/service.go:327-333 | the inner loop adds up the levels at or beyond the step, in the given map order |
| FunnelRates.FillRates | internal/querying/service.go:336-343 | the last loop, in place, sets every conversion and drop-off rate |
| FunnelRates.AtLeastAntitone | internal/querying/service.go:326-335 | user counts never increase from step to step |
| FunnelRates.RatesAreProportions | internal/querying/service.go:336-343 | both rates lie in [0, 1], users and conversion never increase |
| FunnelRates.ConversionIsShare | internal/querying/service.go:336-343 | ConversionRate times the users of step 0 is the users of the step |
| FunnelRates.DropOffIsShare | internal/querying/service.go:336-343 | 1 - DropOffRate times the users of a step is the users of the next |
| FunnelRates.EightFiveTwo | internal/querying/service.go:316-344 | eight, five and two users of three steps: rates 1, 0.625, 0.25 and drop-offs 0.375, 0.6 |
| FunnelRates.ConversionIsSurvival | internal/querying/service.go:336-343 | with users at step 0, ConversionRate[i] is the product of 1 - DropOffRate[j] over j < i |
| FunnelRates.NoUsersNoRates | internal/querying/service.go:336-343 | with none, every count and rate is zero |

## Left out

- HTTP handlers, Kafka, PostgreSQL, MongoDB, GeoIP, tracing, metrics and configuration: plumbing over libraries.
- `internal/funnel/processor.go`: an older processor that never looks at the step it is at; the service above replaces it.
- Event validation, round-robin over replicas, health aggregation, alert cooldown, deduplication and SDK batching: each keeps at most a counter, a timestamp or a filter per key, shares no state with the components above, and is not modelled.
- Errors of Redis: an unreadable value counts as missing in the session engine and the funnel service, and a lost one is covered by the arbitrary loss in `Session.Run`, `Funnel.Run` and `TieredCache.LoseL2`; a failed save is not modelled in the classes.
- Skew between the clocks of pods, Redis and events: one clock for the tiered cache and, in the lemmas about its store, for the session engine; in the funnel service Redis has a clock of its own.
- Byte-level SHA-256 and FNV-1a: uninterpreted functions, injective only where a lemma says so.
- Rounding: levels, rates and `0.8 * bufSize` are exact, and numbers do not change when Redis stores them as text.
- Integer width: session times are 64-bit where the engine multiplies them; window, count and timestamp arithmetic elsewhere is unbounded, as are `EventCount` and the funnel sums.
- JSON encoding of cached responses and of stored states: values are stored as they are; a response that does not decode is not modelled.
- The cache key of a query, its truncation and its injectivity: runs are over keys.
- In-place reuse of slices (`sorted[:0]`, `order[:0]`, `buf[:0]`): sequences are replaced, so aliasing is not shown.
- Memory model below locks, channels and atomics: their operations are the steps.
- RingRouting.Ring.GetN: a negative `n`, which panics in Go, is not a value of its parameter.
- WriteBehind.RunKeepsInv: requires bufSize at least 1; an unbuffered channel (bufSize 0) hands events over only to a waiting loop and is not modelled. Stop is taken once and no Write runs into it, since closing or sending on a closed channel panics; the loop and Stop are the steps of the state machine, not methods of a class.
- Bulkhead.LimitsHold: goroutines use Do, so each Release follows its own Acquire; a stray Release is modelled in the class only.
- TieredCache.Service.Read: single-flight, bulkhead and breaker enter as the result the caller gets; sharing one result among callers is a step of the state machine.
- TieredCache.BoundedStaleness: the lag between a query, or a Redis read, and the cache writes after it is a parameter; nothing in the code bounds it. Retention caches for 10 minutes in Redis without L1 and is not part of this model.
- TokenBucket.Envelope: like the results about expiry, requires a clock that does not run backwards, because the script stores whatever time it is given; optimality needs no such clock.
- Breaker.CircuitBreaker.Execute: one call that nothing interleaves with, and without the state-change callback; calls in parallel are the steps of the state machine.
- Sharding.Writer.Write: one call that nothing interleaves with; calls racing each other and the loop are the steps of the machine in `Writer.dfy`, including the error they return.
- Sharding.ShardedWriter.Write: one call that nothing interleaves with; each shard's writer under interleaving is that machine, where the order of each call is kept (`EachCallAppOrder`) and no order between racing calls is promised.
- Sharding.DropsSilentlyIff: one call that nothing interleaves with; overlapping calls are `WriterCalls.NeverSilentIff`.
- Sharding.SafeSizeIff: calls that nothing interleaves with; overlapping calls are `WriterCalls.NeverSilentIff`.
- Sharding.FlushedAppOrder: one caller, whose Writes follow each other; racing callers are `WriterCalls.EachCallAppOrder`.
- Session.StoreRunsDevice: for a device whose Redis key no other device in the trace has; keys clash only when an app id contains a colon (`KeysSeparate`, `KeysClash`).
- Funnel.StoreRunsUser: funnel ids are distinct and without colon, as the UUIDs of the schema are; replacing definitions under existing state (Reload) is not modelled.
- FunnelRates.Rates: the limits of 2 to 10 steps, checked before the query, are not needed and not modelled.
