# A verified model of the Aneiang.Yarp gateway's hard parts

Aneiang.Yarp is a dynamic API gateway on top of YARP. This project models the parts of it
that are protocols rather than plumbing, in Dafny 4.11, and proves what they keep:

- the three rate-limit scripts Redis runs, over whole runs and with keys expiring in between;
- the proxy-log pipeline: bit-masked ring, bounded channel, batching consumer, drain;
- capturing and cutting response bodies;
- the configuration control plane: the mutable working set with its sixteen operations,
  publication by compare-and-swap, the memo of compiled plans, the provider's snapshots and
  change sources, compiling plugin bindings, and saving to the tables;
- the circuit breaker, interleaved with requests in flight, and the sampled circuits of single destinations;
- IP isolation: destination keys, registration histories and picking a destination.

Run `dafny verify dfyconfig.toml` in this directory to check all of it.

## How it is built

Each operation appears twice. A function on values says what one call, script or step does;
the class of the source's own shape, with mutable fields, records edited in place and loops,
has methods proved equal to that function. The lemmas are about the functions and about runs
of them. Concurrent code (publication, the plan memo, the log ring and pipeline, change
sources, the circuit breaker with requests in flight) is a state machine whose events
interleave freely, beside the class whose methods are single calls of it.

| Modules | What they model |
|---|---|
| SlidingWindow, SlidingWindowBounds, TokenBucket, FixedWindow, AdmissionLog | the Redis scripts and the log of admissions they are compared with |
| Bits, ProxyLogStore, RingWriters, LogPipeline, LogRuns | 32-bit ring, threads adding to it, channel, consumer |
| BodyCapture | capture stream and UTF-8 cut |
| WorkingSet, WorkingSetInvariant, WorkingSetBatches, RouteDeletion, WorkingSetInverses, WorkingSetTheorems | the working set as a value, and what its operations keep |
| OperationGuards, StoredRecords | when an operation is refused and when it changes anything, by its guards; what each one stores, field by field |
| LiveRegistration | whose address a registration through the route operations stores |
| RouteIdentity | a route that stays keeps its uid |
| ConfigRecords, ClusterManager, RouteManager, BatchService | the same operations over mutable records |
| UniqueUids, Persister, PersisterTheorems, Reload | tables with a unique uid, saving in full and incrementally, and loading again |
| ConfigPublisher, StableSort, SnapshotCompiler, CompiledTargets, SnapshotPublisher, PlanMemo | from working set to installed snapshot and plans |
| LockedCall, RenamedBindings | a whole call with publication, hand-over and save, each of which may fail; bindings across a rename |
| Provider, ChangeTokens, HandOvers | the provider's aliased snapshots, its change sources, and publishers that overlap |
| CircuitBreaker, DestinationCircuits, IpIsolation | as named |
| KeyedList, Wrappers, Arithmetic | lookup in lists by key; Option and Result; minimum and maximum |

## Assumptions

- The Redis server clock does not run backwards and expires a key no earlier than it is due;
  neither does the local clock the circuits read, although it is the wall clock.
  Numbers are exact, failure ratios included; the limit is positive, as the caller checks before it runs a script.
- In the sliding window, no call draws a member that an earlier call drew; the script relies
  on a random number for that, and the assumption is an explicit hypothesis.
- A repository batch write is all or nothing. The token passed to a stop does not fire while
  the stop waits.
- Ids are canonical. The code compares them without regard to case in memory, but the
  tables' keys are case-sensitive. White space is space, tab, line feed and carriage return.
- A new record gets a uid never used before. Destinations are represented by their address
  and the address their health is probed at, health checks and metadata by opaque values,
  and a conversion between the domain's and the proxy's health check by the identity.
- Logging, recording validation errors and the callbacks of a change source do not throw.
- Compilers of plugin bindings are arbitrary functions.

## Where the code does not do what it says

Where code and documentation disagree the model follows the code. Each of these is proved,
with the exact condition where there is one:

- The retry time of the sliding window is computed as `now - oldest + window`; the least
  wait is `oldest + window - now`. It suffices but is too long unless the two coincide.
- The retry time of the fixed window is Redis' time to live in seconds, which is rounded to
  the nearest: waiting it can be up to half a second too short.
- The head of the log ring is a 32-bit counter; from 2^31 adds on reading it throws while
  the head is negative.
- With several threads adding, a call overtaken by a whole lap of the ring leaves its older
  entry there, and the eviction counter counts entries that replaced nothing.
- Every request asks the circuits of all destinations before it is sent to one. One that is
  half-open spends its probes on requests sent elsewhere, which never report to it, and is
  then locked out for good.
- The comment that trimming is a no-op on GBK text is false.
- The circuit breaker can lock itself out: in half-open state the probes of the circuit for
  requests without a destination report elsewhere once they reach one.
- The unlocked path of the plan memo can return another plan than that of the snapshot the
  call observed: it returns the one exactly when the last plan stored by then was for it.
- The clean-up after a batch deletion of routes removes at most one cluster, because the
  survivors are added up from the first deletion on.
- Removing a route for a client address can remove a cluster another route still names.
- An isolated registration into a cluster that is known changes no cluster: the address of
  every client but the first is lost, and its requests go to the first one's.
- Renaming a route enables it; and whether a route is enabled is not saved at all, so that
  after a restart every route is forwarded again.
- Adding a route configuration corrects the transforms of every route but saves only one; a
  registration that names no cluster creates one with the empty id, which is not saved.
- The address a destination's health is probed at is written to its own column and never
  read back, against the comment that the representation is lossless.
- Route and cluster tables have a unique index on the uid, but upserts resolve conflicts on
  the id alone. After renames that swap the names of two clusters and were not saved, every
  save in full is refused.
- The incremental save does not make up for an earlier save that failed, although the
  comment beside it says that the next operation retries the full save.
- A call whose publication throws leaves its change in the working set, unsaved. When a
  compiler threw or another publisher got ahead, it is unpublished too. When the hand-over
  threw, its snapshot is installed, but the proxy was not handed it. An import and a full
  replacement also throw when only the save fails, after they have been published.
- Applying a configuration to the proxy throws when another apply ends between its reading
  the change source and its taking the token, since that disposes the source.
- Publishers install a snapshot and hand it over without a lock around the two, so that the
  proxy can be left on an older one than the one installed.
- A rename of a cluster or route is published before it is saved, so that its snapshot lacks
  the bindings recorded under the uid of what was renamed.
- The helpers for IP clusters, which no code of the repository calls, drop the metadata of a
  cluster when they register a client and its health check when they remove one; the
  registration and removal that run keep both.
- Two addresses that differ in dots and dashes alone share a destination.

## Model

| member | source | states |
|---|---|---|
| SlidingWindow.RedisSortedSet.TryAcquire | src/Aneiang.Yarp.Plugin.RateLimit.Redis/RedisLuaRateLimitStore.cs:118-136 | The commands of the sliding-window script, issued one after another on the sorted set, leave the key and give the reply of one atomic step. |
| SlidingWindow.RefinesLog | src/Aneiang.Yarp.Plugin.RateLimit.Redis/RedisLuaRateLimitStore.cs:118-136 | Over any run in which every call draws a fresh member, keys vanishing anywhere at or after their expiry, the replies are those of a log that keeps every admission: allowed exactly when fewer than `limit` earlier admissions lie in `(now - window, now]`; and the admissions are that log. |
| SlidingWindow.StepTracks | src/Aneiang.Yarp.Plugin.RateLimit.Redis/RedisLuaRateLimitStore.cs:118-131 | One call on a key that holds, above the purge horizon, as many members as the log has admissions: it is answered as by the log and keeps that relation. |
| SlidingWindow.VanishTracks | src/Aneiang.Yarp.Plugin.RateLimit.Redis/RedisLuaRateLimitStore.cs:123-127 | A key whose expiry of twice the window has passed held nothing the log still counts, so its loss keeps the relation. |
| SlidingWindowBounds.ExpiryIsInvisible | src/Aneiang.Yarp.Plugin.RateLimit.Redis/RedisLuaRateLimitStore.cs:123-127 | A run in which keys vanish at or after their expiry gives the answers of the run in which they never do. |
| SlidingWindowBounds.WindowBound | src/Aneiang.Yarp.Plugin.RateLimit.Redis/RedisLuaRateLimitStore.cs:118-136 | Every interval `(a, a + window]` of such a run holds at most `limit` admissions. |
| SlidingWindowBounds.RepeatedMemberBreaksTheBound | src/Aneiang.Yarp.Plugin.RateLimit.Redis/RedisLuaRateLimitStore.cs:123-124 | The freshness of the random member is needed: with one member drawn three times at one instant and a limit of two, three calls are admitted. |
| SlidingWindowBounds.RetryAfterSuffices | src/Aneiang.Yarp.Plugin.RateLimit.Redis/RedisLuaRateLimitStore.cs:132-135 | After any denial in any run a later undisturbed call is admitted exactly from `oldest + window` on. The advertised seconds are `now - oldest + window` milliseconds rounded up; they always suffice, and before rounding they are the least wait only when the oldest admission happened at the very instant of the denial. |
| SlidingWindowBounds.RemainingIs | src/Aneiang.Yarp.Plugin.RateLimit.Redis/RedisLuaRateLimitStore.cs:118-131 | Each call of a run is told how many more its window has room for, the limit less the admissions in the window, its own included, or none when it is denied; an admission keeps the key for two windows. |
| SlidingWindowBounds.NoLimitAdmitsNone | src/Aneiang.Yarp.Plugin.RateLimit.Redis/RedisLuaRateLimitStore.cs:118-136 | With a limit that is not positive every call of every run is denied and told to wait for the window, in seconds rounded up. |
| SlidingWindowBounds.RunKeepsKeyOk | src/Aneiang.Yarp.Plugin.RateLimit.Redis/RedisLuaRateLimitStore.cs:118-131 | Every key of a run is in order of score, holds nothing from the future and never more than `limit` members, repeated ones included. |
| TokenBucket.RedisHash.TryAcquire | src/Aneiang.Yarp.Plugin.RateLimit.Redis/RedisLuaRateLimitStore.cs:139-162 | The token-bucket script on the hash fields leaves the key and gives the reply of one atomic step. |
| TokenBucket.ScriptBucket | src/Aneiang.Yarp.Plugin.RateLimit.Redis/RedisLuaRateLimitStore.cs:139-156 | For any window and burst and a positive limit: the capacity, the rate, and that the key lives long enough to refill to the brim. |
| TokenBucket.TtlIs | src/Aneiang.Yarp.Plugin.RateLimit.Redis/RedisLuaRateLimitStore.cs:156 | A key is kept for twice the least whole number of seconds in which it refills, one at least, and a second more. |
| TokenBucket.KeyLives | src/Aneiang.Yarp.Plugin.RateLimit.Redis/RedisLuaRateLimitStore.cs:155-156 | At every point of a run the key expires that time after the last call, to the millisecond. |
| TokenBucket.ScriptTokensInRange | src/Aneiang.Yarp.Plugin.RateLimit.Redis/RedisLuaRateLimitStore.cs:139-157 | At every point of a run stored tokens lie between `min(0, limit + burst)` and `limit + burst`. |
| TokenBucket.ExpiredIsFull | src/Aneiang.Yarp.Plugin.RateLimit.Redis/RedisLuaRateLimitStore.cs:147-156 | By its expiry a key has refilled to capacity, so a call finds what it would find with no key at all. |
| TokenBucket.ExpiryIsInvisible | src/Aneiang.Yarp.Plugin.RateLimit.Redis/RedisLuaRateLimitStore.cs:147-156 | A run in which keys vanish at or after their expiry gives the replies of the run in which they never do. |
| TokenBucket.AdmissionBound | src/Aneiang.Yarp.Plugin.RateLimit.Redis/RedisLuaRateLimitStore.cs:139-162 | Between any two instants `s <= t` of a run at most `max(0, limit + burst) + (t - s) * limit / max(1, window)` requests are admitted, wherever the key vanishes. |
| TokenBucket.RetryAfterSuffices | src/Aneiang.Yarp.Plugin.RateLimit.Redis/RedisLuaRateLimitStore.cs:158-162 | After a denial a later undisturbed call is admitted exactly when the capacity is at least one token and the missing part has been refilled; the advertised seconds are the fewest that are enough, one at least. |
| TokenBucket.RemainingIs | src/Aneiang.Yarp.Plugin.RateLimit.Redis/RedisLuaRateLimitStore.cs:139-162 | At any point of a run a call is told exactly how many more calls at the same instant would all be admitted. |
| TokenBucket.FreshBurst | src/Aneiang.Yarp.Plugin.RateLimit.Redis/RedisLuaRateLimitStore.cs:139-152 | A key that is not there admits exactly `limit + burst` calls at one instant. |
| FixedWindow.RedisCounter.TryAcquire | src/Aneiang.Yarp.Plugin.RateLimit.Redis/RedisLuaRateLimitStore.cs:103-115 | The fixed-window script on the counter leaves the key and gives the reply of one atomic step. |
| FixedWindow.WindowBound | src/Aneiang.Yarp.Plugin.RateLimit.Redis/RedisLuaRateLimitStore.cs:103-115 | Any interval of one window holds at most `2 * limit - 1` admissions (none for a limit below one), wherever keys expire. |
| FixedWindow.LifetimeAdmitsFirst | src/Aneiang.Yarp.Plugin.RateLimit.Redis/RedisLuaRateLimitStore.cs:103-115 | One lifetime of the key admits exactly its first `limit` calls. |
| FixedWindow.BoundIsTight | src/Aneiang.Yarp.Plugin.RateLimit.Redis/RedisLuaRateLimitStore.cs:103-115 | For every positive limit and window some run admits `2 * limit - 1` requests within one window. |
| FixedWindow.RemainingIs | src/Aneiang.Yarp.Plugin.RateLimit.Redis/RedisLuaRateLimitStore.cs:103-115 | Each call of a lifetime is admitted exactly while there is room, and told how many more it has room for. |
| FixedWindow.RetryAfterSufficesIff | src/Aneiang.Yarp.Plugin.RateLimit.Redis/RedisLuaRateLimitStore.cs:103-115 | The advertised seconds are the time left rounded to the nearest second, or the window when that is none; waiting them reaches the end of the lifetime exactly when the rounding was not downwards. |
| FixedWindow.RetryAfterIsTooShort | src/Aneiang.Yarp.Plugin.RateLimit.Redis/RedisLuaRateLimitStore.cs:103-115 | A concrete denial told to wait one second, after which it is denied again. |
| Bits.NextPowerOf2 | src/Aneiang.Yarp.Plugin.ProxyLog/Services/ProxyLogStore.cs:82-92 | For requests up to 2^30 the smearing loop returns the least power of two that is at least the request; above that the 32-bit addition wraps to -2^31; values up to one give two. |
| Bits.MaskIsModulo | src/Aneiang.Yarp.Plugin.ProxyLog/Services/ProxyLogStore.cs:94-98 | Masking with a power of two less one is the remainder by that power, on every natural number. |
| Bits.SmearDoubles | src/Aneiang.Yarp.Plugin.ProxyLog/Services/ProxyLogStore.cs:85-90 | Or-ing in a copy shifted by m doubles a run of m leading ones. |
| ProxyLogStore.ProxyLogStore.constructor | src/Aneiang.Yarp.Plugin.ProxyLog/Services/ProxyLogStore.cs:42-65 | The ring has the least power of two at least `max(16, requested)` slots and is empty. |
| ProxyLogStore.ProxyLogStore.FastModulo | src/Aneiang.Yarp.Plugin.ProxyLog/Services/ProxyLogStore.cs:94-98 | The slot of a wrapped 32-bit index is the true index modulo the ring length. |
| ProxyLogStore.ProxyLogStore.Add | src/Aneiang.Yarp.Plugin.ProxyLog/Services/ProxyLogStore.cs:108-129 | An entry always joins the log the ring stands for; with persistence on it joins the channel unless that is full or completed, and is counted as dropped otherwise. |
| ProxyLogStore.ProxyLogStore.GetRecent | src/Aneiang.Yarp.Plugin.ProxyLog/Services/ProxyLogStore.cs:136-159 | For fewer than 2^31 adds since the last clear, the newest-first last `min(adds, capacity, max(1, count))` entries; it throws exactly when the wrapped head is negative. |
| ProxyLogStore.ProxyLogStore.Clear | src/Aneiang.Yarp.Plugin.ProxyLog/Services/ProxyLogStore.cs:164-169 | Clearing empties the log and leaves the channel and the drop counter alone. |
| ProxyLogStore.ProxyLogStore.CompletePersistence | src/Aneiang.Yarp.Plugin.ProxyLog/Services/ProxyLogStore.cs:72 | Completing closes the channel to further entries and changes nothing else. |
| ProxyLogStore.EvictionsAre | src/Aneiang.Yarp.Plugin.ProxyLog/Services/ProxyLogStore.cs:108-129 | While the head has not wrapped the eviction counter is `max(0, adds - capacity)`. |
| ProxyLogStore.HeadWrapsNegative | src/Aneiang.Yarp.Plugin.ProxyLog/Services/ProxyLogStore.cs:112-113 | 2^31 is the first number of adds whose 32-bit value is negative. |
| RingWriters.HoldsLastIff | src/Aneiang.Yarp.Plugin.ProxyLog/Services/ProxyLogStore.cs:108-113 | Over every interleaving of adds, once all entries are stored the ring holds the last `min(adds, capacity)` exactly when after the store of none of them a call with a smaller index stored in the same slot. |
| RingWriters.EvictionsExceedBy | src/Aneiang.Yarp.Plugin.ProxyLog/Services/ProxyLogStore.cs:115-117 | Once all adds are through, the eviction counter is `max(0, adds - capacity)` plus the number of calls with an index below the capacity that counted only after more than `capacity` indices had been taken. |
| RingWriters.OvertakenStoreStays | src/Aneiang.Yarp.Plugin.ProxyLog/Services/ProxyLogStore.cs:108-117 | A concrete interleaving of two adds in which the older entry stays and one eviction too many is counted. |
| LogPipeline.Conservation | src/Aneiang.Yarp.Plugin.ProxyLog/Services/AsyncLogPersistenceService.cs:113-208 | Over every interleaving each entry added with persistence on is dropped at the channel, queued, in the consumer's hand, or in exactly one finished batch (written, failed or cancelled); cancelled batches hold at most 100 entries each and there are no more of them than stops; the counters agree. |
| LogPipeline.WritesKeepChannelOrder | src/Aneiang.Yarp.Plugin.ProxyLog/Services/AsyncLogPersistenceService.cs:113-208 | Finished batches are consecutive slices of the sequence of accepted entries, so writes keep channel order and no position is written twice. |
| LogPipeline.NothingWrittenTwice | src/Aneiang.Yarp.Plugin.ProxyLog/Services/AsyncLogPersistenceService.cs:180-208 | An entry accepted at most once is written at most once. |
| LogPipeline.DrainSettlesAll | src/Aneiang.Yarp.Plugin.ProxyLog/Services/AsyncLogPersistenceService.cs:162-177 | When the channel is found empty while draining with nothing in hand, every entry accepted so far has met its outcome. |
| LogPipeline.EndsDrained | src/Aneiang.Yarp.Plugin.ProxyLog/Services/AsyncLogPersistenceService.cs:119-177 | In every run in which a consumer was started and is over, however it came to its end (a stop while it waited or wrote, a completed channel, an exception), it last found the channel empty while draining, from then on only wrote what it held, and everything accepted before that moment is in a finished batch. |
| LogRuns.EntryAfterLastDrainStays | src/Aneiang.Yarp.Plugin.ProxyLog/Services/AsyncLogPersistenceService.cs:162-177 | What that leaves open: in a concrete run an entry accepted while the last batch is written stays in the channel. |
| LogRuns.KeepsConsuming | src/Aneiang.Yarp.Plugin.ProxyLog/Services/AsyncLogPersistenceService.cs:119-161 | A consumer goes on waiting, filling and writing, whatever its writes do, until a stop, a completed channel or an exception of the clean-up. |
| LogRuns.LoopIsOver | src/Aneiang.Yarp.Plugin.ProxyLog/Services/AsyncLogPersistenceService.cs:119-163 | Once its wait or a flush was cancelled, the channel ended or the clean-up threw, the consumer only drains, whatever follows, until another one is started. |
| LogRuns.ReturnsToWait | src/Aneiang.Yarp.Plugin.ProxyLog/Services/AsyncLogPersistenceService.cs:121-155 | Wherever it is in its loop, a consumer can come to wait again by writing what it holds. |
| LogRuns.DrainCanEnd | src/Aneiang.Yarp.Plugin.ProxyLog/Services/AsyncLogPersistenceService.cs:162-177 | Wherever it is, a drain can end, with the channel empty and every accepted entry in a finished batch. |
| LogRuns.FillsExactly | src/Aneiang.Yarp.Plugin.ProxyLog/Services/AsyncLogPersistenceService.cs:121-135 | A waiting consumer can take any number of queued entries into one batch up to a hundred and no more, the oldest in order. |
| LogRuns.DrainBatchesAreFull | src/Aneiang.Yarp.Plugin.ProxyLog/Services/AsyncLogPersistenceService.cs:162-177 | In every run each batch written while the drain goes on has a hundred entries. |
| LogRuns.GivesUpIff | src/Aneiang.Yarp.Plugin.ProxyLog/Services/AsyncLogPersistenceService.cs:180-207 | In every run a batch is given up exactly by the third write of its flush that throws, in the drain as before it; the first two leave it in hand. |
| LogRuns.AcceptedIff | src/Aneiang.Yarp.Plugin.ProxyLog/Services/ProxyLogStore.cs:119-125 | In every run an entry is accepted exactly while the channel has room and was not completed. |
| LogPipeline.StopCanCancelABatch | src/Aneiang.Yarp.Plugin.ProxyLog/Services/AsyncLogPersistenceService.cs:148-161 | A stop during a flush loses the batch: an accepted entry is neither written nor failed nor drained. |
| LogPipeline.FlushBatch | src/Aneiang.Yarp.Plugin.ProxyLog/Services/AsyncLogPersistenceService.cs:180-208 | For any answers of the store the retry loop writes the batch exactly when some attempt succeeds after attempts that threw and delays that ran out, gives up exactly after three throws, counts the entries once, and is a run of the pipeline. |
| BodyCapture.TeeResponseCaptureStream.Write | src/Aneiang.Yarp.Plugin.ProxyLog/Services/TeeResponseCaptureStream.cs:36-58 | Any write is forwarded whole, and the captured bytes stay the first `min(limit, total)` bytes forwarded. |
| BodyCapture.TeeResponseCaptureStream.Capture | src/Aneiang.Yarp.Plugin.ProxyLog/Services/TeeResponseCaptureStream.cs:60-69 | A capture appends exactly what of the buffer still fits under the limit. |
| BodyCapture.WriteAll | src/Aneiang.Yarp.Plugin.ProxyLog/Services/TeeResponseCaptureStream.cs:36-69 | For any chunking everything is forwarded and exactly the first `min(limit, total)` bytes are captured. |
| BodyCapture.TrimIncompleteUtf8 | src/Aneiang.Yarp.Plugin.ProxyLog/Services/ProxyLogBodyReader.cs:204-233 | The backward scan over at most the last four bytes computes the cut of the byte string. |
| BodyCapture.TrimYieldsWholeChars | src/Aneiang.Yarp.Plugin.ProxyLog/Services/ProxyLogBodyReader.cs:204-233 | For well-formed UTF-8 (section 4 of RFC 3629) trimming any prefix yields the longest prefix of whole characters, loses at most three bytes and nothing at a character boundary. |
| BodyCapture.TrimIsNoOpIff | src/Aneiang.Yarp.Plugin.ProxyLog/Services/ProxyLogBodyReader.cs:204-207 | On arbitrary bytes nothing is cut exactly when the last byte outside 80..BF, among the last four, is followed by as many bytes as it announces; a two-byte GBK character is cut, against the comment. |
| BodyCapture.ReadStream | src/Aneiang.Yarp.Plugin.ProxyLog/Services/ProxyLogBodyReader.cs:129-172 | Reading in pieces of any size keeps the first bytes up to the limit, cut at a character, and tells whether there was more. |
| BodyCapture.LoggedBodyIsWhole | src/Aneiang.Yarp.Plugin.ProxyLog/Services/ProxyLogBodyReader.cs:163-171 | For well-formed UTF-8 written in any chunks, the logged body is the longest prefix of whole characters that the two limits allow, marked as truncated exactly when a positive limit on the logged bytes was exceeded. |
| SnapshotPublisher.VersionsIncrease | src/Aneiang.Yarp/Services/GatewaySnapshotCompiler.cs:163-181 | Under every interleaving of calls the installed snapshots have strictly increasing versions. |
| SnapshotPublisher.AtMostOneWins | src/Aneiang.Yarp/Services/GatewaySnapshotCompiler.cs:168-180 | Of calls with equal version at most one succeeds. |
| SnapshotPublisher.EveryCall | src/Aneiang.Yarp/Services/GatewaySnapshotCompiler.cs:168-180 | A call throws only after it observed an installed version at least its own, a successful call's snapshot was installed, and a call makes at most as many swap attempts as its version exceeds the first version it observed. |
| SnapshotPublisher.FailureMeansProgress | src/Aneiang.Yarp/Services/GatewaySnapshotCompiler.cs:172-178 | A compare-and-swap that fails does so because another call with a higher version than the one observed has succeeded. |
| SnapshotPublisher.SwapSucceedsIff | src/Aneiang.Yarp/Services/GatewaySnapshotCompiler.cs:172-178 | A call that observed an older version, in any run: its swap installs its snapshot and ends the call exactly when no other call installed one in between; otherwise the field stays and the call looks again. |
| SnapshotPublisher.GatewaySnapshotPublisher.Publish | src/Aneiang.Yarp/Services/GatewaySnapshotCompiler.cs:168-180 | The loop against any rivals succeeds exactly when its version beats all it meets, and then its snapshot is current. |
| PlanMemo.FreeMemoIsCoherent | src/Aneiang.Yarp/Services/GatewayPluginExecutionPlanProvider.cs:33-53 | Whenever the lock is free the memo is the compilation of the remembered snapshot, or nothing has been compiled. |
| PlanMemo.ReturnedPlans | src/Aneiang.Yarp/Services/GatewayPluginExecutionPlanProvider.cs:33-53 | Every returned plan is the compilation of some published snapshot; one returned under the lock is the compilation of the snapshot that call observed. |
| PlanMemo.SoloCallIsCurrent | src/Aneiang.Yarp/Services/GatewayPluginExecutionPlanProvider.cs:33-53 | A call that overlaps no other returns the compilation of the snapshot current at the time. |
| PlanMemo.FastPathReturnsIff | src/Aneiang.Yarp/Services/GatewayPluginExecutionPlanProvider.cs:36-38 | A call whose unlocked comparison succeeded for a snapshot, in any reachable state and after any events of other calls, returns the plan of the snapshot for which one was last stored by then, and so that of its own snapshot exactly when that is the same. |
| PlanMemo.NoRecompilation | src/Aneiang.Yarp/Services/GatewayPluginExecutionPlanProvider.cs:40-51 | However calls overlap, the snapshot a call stores a plan for is never the one a plan was last stored for. |
| PlanMemo.FastPathCanReturnOlderPlan | src/Aneiang.Yarp/Services/GatewayPluginExecutionPlanProvider.cs:36-38 | A run from the start in which it is not: a call that read the second snapshot returns the plan of the first. |
| PlanMemo.GatewayPluginExecutionPlanProvider.Current | src/Aneiang.Yarp/Services/GatewayPluginExecutionPlanProvider.cs:33-53 | With both checks, and another call storing a plan while this one waits for the lock, it returns and remembers the compilation of the published snapshot, and compiles exactly when neither check finds it remembered. |
| CircuitBreaker.CircuitState.ApplyConfig | src/Aneiang.Yarp/Models/CircuitBreakerState.cs:5-41 | Non-positive settings fall back to five failures, thirty seconds and one probe, so the values in force are positive. |
| CircuitBreaker.CircuitState.TryEnter | src/Aneiang.Yarp.Plugin.CircuitBreaker/Middleware/CircuitBreakerMiddleware.cs:108-143 | The admission block is one step of the circuit machine. |
| CircuitBreaker.CircuitState.UpdateCircuitState | src/Aneiang.Yarp.Plugin.CircuitBreaker/Middleware/CircuitBreakerMiddleware.cs:205-244 | The completion block is one step of the circuit machine. |
| CircuitBreaker.CountersAndEpisodes | src/Aneiang.Yarp.Plugin.CircuitBreaker/Middleware/CircuitBreakerMiddleware.cs:108-143 | For any interleaving of admissions and completions the failure counter is the length of the trailing failing run, and each half-open episode admits at most `MaxHalfOpenAttempts + 1` requests. |
| CircuitBreaker.ReportIs | src/Aneiang.Yarp.Plugin.CircuitBreaker/Middleware/CircuitBreakerMiddleware.cs:205-244 | In every reachable state: a failure reported to a half-open circuit leaves it open with `OpenedAt` at that instant, a success closes it; a closed circuit opens exactly at the threshold, with `OpenedAt` at that report; an open one stays open. |
| CircuitBreaker.ArriveIs | src/Aneiang.Yarp.Plugin.CircuitBreaker/Middleware/CircuitBreakerMiddleware.cs:108-143 | In every reachable state: which requests are admitted and as what, which are rejected and with which answer, and what that leaves of the circuit. |
| CircuitBreaker.FailedProbeWaitsAgain | src/Aneiang.Yarp.Plugin.CircuitBreaker/Middleware/CircuitBreakerMiddleware.cs:111-122 | After a failed probe, whatever requests and reports follow, nothing is admitted for a whole recovery period. |
| CircuitBreaker.ClosedOpensAtThreshold | src/Aneiang.Yarp.Plugin.CircuitBreaker/Middleware/CircuitBreakerMiddleware.cs:205-244 | In any reachable state a closed circuit opens exactly when the failing run reaches the threshold. |
| CircuitBreaker.NothingBeforeRecovery | src/Aneiang.Yarp.Plugin.CircuitBreaker/Middleware/CircuitBreakerMiddleware.cs:111-122 | From an open circuit nothing is admitted before `OpenedAt + RecoveryTimeout`, whatever completes meanwhile. |
| CircuitBreaker.DeadBackendLoad | src/Aneiang.Yarp.Plugin.CircuitBreaker/Middleware/CircuitBreakerMiddleware.cs:108-143 | While everything fails, an open circuit lets at most `MaxHalfOpenAttempts + 1` requests through per recovery period. |
| CircuitBreaker.CanCloseIffNotStuck | src/Aneiang.Yarp.Plugin.CircuitBreaker/Middleware/CircuitBreakerMiddleware.cs:124-135 | A half-open circuit can still close exactly when a probe is left to admit or to report to it. |
| CircuitBreaker.StuckForever | src/Aneiang.Yarp.Plugin.CircuitBreaker/Middleware/CircuitBreakerMiddleware.cs:124-135 | A half-open circuit with its probes used up and none left to report here rejects every later request. |
| CircuitBreaker.LockOutIsReachable | src/Aneiang.Yarp.Plugin.CircuitBreaker/Middleware/CircuitBreakerMiddleware.cs:170-187 | That state is reached when both probes succeed at a destination, since their outcomes go to the circuit of that destination. |
| DestinationCircuits.InForce | src/Aneiang.Yarp/Models/CircuitBreakerState.cs:32-40 | Settings out of range fall back to defaults, so that those in force are positive and the ratio is at most one. |
| DestinationCircuits.DestinationCircuit.Acquire | src/Aneiang.Yarp.Dashboard/Infrastructure/State/InMemoryCircuitStateStore.cs:99-130 | The block under the circuit's lock is one step of the sampled circuit. |
| DestinationCircuits.DestinationCircuit.Record | src/Aneiang.Yarp.Dashboard/Infrastructure/State/InMemoryCircuitStateStore.cs:132-178 | The block with its dequeuing loop is one step of the sampled circuit. |
| DestinationCircuits.RefinesLog | src/Aneiang.Yarp.Dashboard/Infrastructure/State/InMemoryCircuitStateStore.cs:99-178 | After every run whose clock does not run backwards the next event is answered as by a log of all outcomes since the circuit last closed: a request by the status, and an outcome opens a closed circuit exactly when of those within the sampling duration there are enough and their failures are at least the configured share. |
| DestinationCircuits.ProbeDecides | src/Aneiang.Yarp.Dashboard/Infrastructure/Resilience/DestinationCandidateCoordinator.cs:36-55 | A request sent to a destination that is not closed decides: after a failure the destination gets nothing for the recovery time, after a success everything. |
| DestinationCircuits.PassedByLocksOutIff | src/Aneiang.Yarp.Dashboard/Infrastructure/Resilience/DestinationCandidateCoordinator.cs:36-55 | Requests sent elsewhere use up the probes of a half-open destination, which is locked out exactly when as many have come as it had left. |
| DestinationCircuits.LockedOutForever | src/Aneiang.Yarp.Dashboard/Infrastructure/Resilience/DestinationCandidateCoordinator.cs:36-55 | No later request is sent to a destination that is locked out, and its circuit never changes. |
| DestinationCircuits.ProbeSpentElsewhere | src/Aneiang.Yarp.Dashboard/Infrastructure/Resilience/DestinationCandidateCoordinator.cs:36-55 | Two destinations with one probe each: the recovered one is asked, the request goes to the other, and the first is never a candidate again. |
| IpIsolation.KeyRoundTripIff | src/Aneiang.Yarp/Services/ClusterEnsureHelper.cs:14-15 | Restoring the address from its destination key gives the address back exactly when it has no dash. |
| IpIsolation.KeysCollideIff | src/Aneiang.Yarp/Services/ClusterEnsureHelper.cs:14-15 | Two addresses share a destination key exactly when they differ in dots and dashes alone. |
| IpIsolation.RestoreIpAddress | src/Aneiang.Yarp/Services/IpBasedLoadBalancingPolicy.cs:66-76 | The span fill turns every dash of the key into a dot and keeps every other character. |
| IpIsolation.ClusterList.EnsureIpCluster | src/Aneiang.Yarp/Services/ClusterEnsureHelper.cs:27-76 | The list after a registration: the client's destination added or replaced, a missing policy set, metadata dropped. |
| IpIsolation.ClusterList.EnsureNormalCluster | src/Aneiang.Yarp/Services/ClusterEnsureHelper.cs:89-129 | The list after a plain registration: one destination, no policy; a blank address changes nothing. |
| IpIsolation.ClusterList.RemoveIpDestination | src/Aneiang.Yarp/Services/ClusterEnsureHelper.cs:139-180 | An edited copy without the client's destination, or without the cluster when it was the last; found exactly when the copy differs, removed exactly when it is shorter. |
| IpIsolation.ApplyLookup | src/Aneiang.Yarp/Services/ClusterEnsureHelper.cs:27-180 | One call changes exactly the destinations of the cluster it names, and of a client call exactly that client's. |
| IpIsolation.StoresRegistration | src/Aneiang.Yarp/Services/ClusterEnsureHelper.cs:27-180 | After any history of calls with dash-free addresses a client's stored destination is the one of its last registration not undone since, and there is none otherwise. |
| IpIsolation.StoresRegistrationIff | src/Aneiang.Yarp/Services/ClusterEnsureHelper.cs:27-180 | For any addresses a client's stored destination is its last registration exactly when no later call on the cluster, for another address with the same key, replaced or removed it. |
| IpIsolation.FieldsSurviveIff | src/Aneiang.Yarp/Services/ClusterEnsureHelper.cs:27-180 | A helper call keeps a cluster's metadata exactly when it had none or nothing was registered in it, and its health check exactly when it had none or nothing was removed from it. |
| IpIsolation.EnsureRecord | src/Aneiang.Yarp/Services/ClusterEnsureHelper.cs:27-76 | The record after a client's registration: a policy and a health check that are there stay, a missing policy is set, metadata are gone. |
| IpIsolation.NormalRecord | src/Aneiang.Yarp/Services/ClusterEnsureHelper.cs:89-129 | The record after a plain registration: no policy, no metadata, the health check kept; nothing changes without an address. |
| IpIsolation.RemoveRecord | src/Aneiang.Yarp/Services/ClusterEnsureHelper.cs:139-180 | The record after a removal: gone with its last destination, else without health check; nothing changes when the client had none. |
| IpIsolation.PickDestination | src/Aneiang.Yarp/Services/IpBasedLoadBalancingPolicy.cs:19-56 | The search loop returns the first destination whose metadata or key names the client, else the first one. |
| IpIsolation.PickIs | src/Aneiang.Yarp/Services/IpBasedLoadBalancingPolicy.cs:19-56 | The first destination whose metadata is the client's address or whose key reads as it with dashes for dots; the first of all when there is none, or no client address. |
| IpIsolation.RoutedToRegistered | src/Aneiang.Yarp/Services/IpBasedLoadBalancingPolicy.cs:19-56 | After any such history a client whose destination is available is routed to the address it last registered, for any order of any subset of the destinations and with any metadata lost, and the cluster carries the IP policy. |
| IpIsolation.DashedAddressesCollide | src/Aneiang.Yarp/Services/ClusterEnsureHelper.cs:14-15 | Two addresses that differ in a dash and a dot share a key, and the second registration takes over the first client's destination. |
| LiveRegistration.RegistrationKeepsFields | src/Aneiang.Yarp/Services/RouteConfigManager.cs:97-130 | A registration keeps every cluster, with its policy, health checks and metadata; only destinations change. |
| LiveRegistration.RemovalKeepsFields | src/Aneiang.Yarp/Services/RouteConfigManager.cs:242-291 | A route removal takes a cluster away or keeps all of it but destinations. |
| LiveRegistration.IsolatedStoredIff | src/Aneiang.Yarp/Services/RouteConfigManager.cs:97-130 | After an isolated registration its client's key holds its address exactly when the cluster was new or held it already. |
| LiveRegistration.FirstClientStays | src/Aneiang.Yarp/Services/RouteConfigManager.cs:97-130 | Over every sequence of registrations, those into the cluster isolated, the cluster keeps the first client's destination alone. |
| LiveRegistration.LaterClientsReachTheFirst | src/Aneiang.Yarp/Services/IpBasedLoadBalancingPolicy.cs:19-56 | After such a sequence every client is routed to the first client's address, and so to its own exactly when the two are the same. |
| LiveRegistration.SecondClientExample | src/Aneiang.Yarp/Services/RouteConfigManager.cs:97-130 | Two clients register; the second one's requests go to the first one's address. |
| ConfigRecords.DynamicConfigState.IncrementVersion | src/Aneiang.Yarp/Services/DynamicConfigState.cs:29-34 | Only the version changes, by one. |
| ConfigRecords.DynamicConfigState.ResolveClusterUid | src/Aneiang.Yarp/Services/DynamicConfigState.cs:61-66 | The uid of the first cluster with the id; none for a missing or blank id. |
| ConfigRecords.DynamicConfigState.NormalizeRoutes | src/Aneiang.Yarp/Services/RouteConfigManager.cs:197-199 | The loop corrects the transforms of every route in place and nothing else. |
| ClusterManager.ClusterConfigManager.TryAddClusterConfig | src/Aneiang.Yarp/Services/ClusterConfigManager.cs:35-74 | On the mutable records: the records edited in place are the working set of the value operation, the answer its answer; a refused call changes nothing. |
| StoredRecords.AddClusterConfigStores | src/Aneiang.Yarp/Services/ClusterConfigManager.cs:35-74 | An accepted call stores the configuration given, under the old uid and health check of a known record; source and author change only for a new source; no other cluster and no route changes. |
| ClusterManager.ClusterConfigManager.TryAddCluster | src/Aneiang.Yarp/Services/ClusterConfigManager.cs:80-130 | On the mutable records: likewise, metadata the caller leaves out kept. |
| StoredRecords.AddClusterStores | src/Aneiang.Yarp/Services/ClusterConfigManager.cs:80-130 | An accepted call stores exactly the keys given, each with its address and no probe address, the policy and health check given, and the metadata given or else kept. |
| ClusterManager.ClusterConfigManager.TryCreateCluster | src/Aneiang.Yarp/Services/ClusterConfigManager.cs:136-176 | On the mutable records: likewise, refused when the id is known. |
| StoredRecords.CreateClusterStores | src/Aneiang.Yarp/Services/ClusterConfigManager.cs:136-176 | An accepted call stores a new record under a new uid with exactly the destinations, policy and health check given. |
| ClusterManager.ClusterConfigManager.TryUpdateCluster | src/Aneiang.Yarp/Services/ClusterConfigManager.cs:182-226 | On the mutable records: likewise, what the request leaves out kept. |
| StoredRecords.UpdateClusterStores | src/Aneiang.Yarp/Services/ClusterConfigManager.cs:182-226 | An accepted call stores the destinations, policy and health check given, keeps those left out, and keeps uid, metadata, source and author. |
| ClusterManager.ClusterConfigManager.TryRemoveCluster | src/Aneiang.Yarp/Services/ClusterConfigManager.cs:232-256 | On the mutable records: likewise, refused while a route names the cluster. |
| StoredRecords.RemoveClusterLeaves | src/Aneiang.Yarp/Services/ClusterConfigManager.cs:232-256 | An accepted call removes exactly the cluster, which no route named. |
| ClusterManager.ClusterConfigManager.TryRenameCluster | src/Aneiang.Yarp/Services/ClusterConfigManager.cs:262-320 | On the mutable records: likewise, the record moved to the end under its old uid and the referencing routes redirected. |
| StoredRecords.RenameClusterStores | src/Aneiang.Yarp/Services/ClusterConfigManager.cs:262-320 | An accepted call stores under the new id what was given and keeps what was not, under the old uid and with the source and author of the call; exactly the routes that named the old id name the new one. |
| RouteManager.RouteConfigManager.TryAddRoute | src/Aneiang.Yarp/Services/RouteConfigManager.cs:52-143 | On the mutable records, as the value operation says: the route resolves its cluster before the registration creates it. |
| StoredRecords.AddRouteStores | src/Aneiang.Yarp/Services/RouteConfigManager.cs:52-143 | A registration stores the cluster name, path, order or the largest, and transforms of the request under the route's name; a known route keeps its uid and flag. |
| StoredRecords.AddRouteStoresCluster | src/Aneiang.Yarp/Services/RouteConfigManager.cs:97-130 | A registration with an unknown cluster stores its address under the client's key, with the IP policy, or under the plain key; a known cluster gets it under the plain key, keeping the others, unless it is blank or isolation is asked for. |
| RouteManager.RouteConfigManager.TryAddRouteConfig | src/Aneiang.Yarp/Services/RouteConfigManager.cs:156-211 | On the mutable records, as the value operation says: the route is put and the transforms of all routes corrected. |
| StoredRecords.AddRouteConfigStores | src/Aneiang.Yarp/Services/RouteConfigManager.cs:156-211 | An accepted call stores the configuration given with corrected transforms, and every other route keeps all but its transforms. |
| RouteManager.RouteConfigManager.TryRemoveRoute | src/Aneiang.Yarp/Services/RouteConfigManager.cs:225-299 | On the mutable records, as the value operation says: the route goes, with a client address that client's destination, otherwise an orphaned cluster. |
| StoredRecords.RemoveRouteLeaves | src/Aneiang.Yarp/Services/RouteConfigManager.cs:225-299 | An accepted call removes exactly the route, and of its cluster the client's destination, the cluster itself when that was the last one or it is cleaned up and no other route names it, or nothing. |
| RouteManager.RouteConfigManager.TrySetRouteEnabled | src/Aneiang.Yarp/Services/RouteConfigManager.cs:310-337 | On the mutable records, as the value operation says: the flag of the first route with the id. |
| StoredRecords.SetRouteEnabledStores | src/Aneiang.Yarp/Services/RouteConfigManager.cs:310-337 | An accepted call leaves the route as it was but for the flag, which is the one given. |
| RouteManager.RouteConfigManager.TryRenameRoute | src/Aneiang.Yarp/Services/RouteConfigManager.cs:352-430 | On the mutable records, as the value operation says: a new record under the old uid at the end of the list. |
| StoredRecords.RenameRouteStores | src/Aneiang.Yarp/Services/RouteConfigManager.cs:352-430 | An accepted call stores under the new id cluster id, path, order and transforms as given, or as they were, with the source and author of the call. |
| BatchService.DynamicYarpConfigService.ImportBatchAsync | src/Aneiang.Yarp/Services/DynamicYarpConfigService.cs:239-312 | On the mutable records, as the value operation says: dictionaries of the known records, every given cluster and then every given route put, all transforms corrected, one version. |
| StoredRecords.ImportStores | src/Aneiang.Yarp/Services/DynamicYarpConfigService.cs:239-312 | For every id an import stores the last configuration given for it field by field, a missing order as the largest and transforms corrected. |
| BatchService.DynamicYarpConfigService.BatchDeleteClustersAsync | src/Aneiang.Yarp/Services/DynamicYarpConfigService.cs:319-382 | On the mutable records, as the value operation says: the loop over the ids, with one version when anything was deleted. |
| BatchService.DynamicYarpConfigService.BatchDeleteRoutesAsync | src/Aneiang.Yarp/Services/DynamicYarpConfigService.cs:385-464 | On the mutable records, as the value operation says: the deletion loop with its survivors, then the clean-up. |
| BatchService.DynamicYarpConfigService.BatchSetRoutesEnabledAsync | src/Aneiang.Yarp/Services/DynamicYarpConfigService.cs:467-522 | On the mutable records, as the value operation says: the loop over the ids, with one version when any was found. |
| BatchService.DynamicYarpConfigService.ReplaceAllConfig | src/Aneiang.Yarp/Services/DynamicYarpConfigService.cs:553-584 | On the mutable records, as the value operation says: known records are reused under the given configurations, others created. |
| StoredRecords.ReplaceAllStores | src/Aneiang.Yarp/Services/DynamicYarpConfigService.cs:553-584 | The route at each position holds the configuration given there, a missing order as the largest, and resolves in the result; a known one keeps uid, flag, source and author, a new one is enabled. |
| WorkingSetTheorems.KeepsInvariantIff | src/Aneiang.Yarp/Services/ClusterConfigManager.cs:35-320 | From a working set with unique ids and uids in which every recorded cluster uid is the one its id resolves to, each of the sixteen operations leaves one exactly when it is safe: only removing a route for a client address whose cluster goes while another route has recorded it, and replacing everything with repeated ids, are not. |
| WorkingSetTheorems.RunKeepsInvariant | src/Aneiang.Yarp/Services/DynamicYarpConfigService.cs:239-584 | The invariant holds after every run of safe operations. |
| WorkingSetInvariant.RemoveRouteIff | src/Aneiang.Yarp/Services/RouteConfigManager.cs:225-299 | The exact condition for a route removal: no other route has recorded the uid of the cluster whose last destination goes with the client. |
| WorkingSetTheorems.ClientRemovalCanDangle | src/Aneiang.Yarp/Services/RouteConfigManager.cs:243-265 | Two routes of one single-destination cluster: removing one for its client address leaves the other with the uid of a cluster that is gone. |
| WorkingSetTheorems.ClientRemovalExample | src/Aneiang.Yarp/Services/RouteConfigManager.cs:243-265 | A concrete such removal breaks the invariant. |
| WorkingSetBatches.ReplaceAllIff | src/Aneiang.Yarp/Services/DynamicYarpConfigService.cs:553-584 | Replacing everything keeps the invariant exactly when neither list repeats an id. |
| WorkingSetTheorems.SurvivorsKeepUid | src/Aneiang.Yarp/Services/ClusterConfigManager.cs:35-320 | Across any operation a surviving or renamed cluster keeps its uid, and any other has one never used before. |
| WorkingSetTheorems.DeletedUidNeverReturns | src/Aneiang.Yarp/Services/ClusterConfigManager.cs:232-256 | The uid of a deleted cluster denotes no cluster after any run of safe operations. |
| LockedCall.ConfigService.ExecuteWithLockAsync | src/Aneiang.Yarp/Services/ConfigManagerBase.cs:38-86 | A call over publisher, provider, persister and working set, whatever others publish and apply meanwhile and whether compiling, the hand-over or saving throws, is one step of the locked call. |
| OperationGuards.RefusedIff | src/Aneiang.Yarp/Services/ClusterConfigManager.cs:35-320 | An operation is refused exactly by the guards of its refusing branches: missing ids and destinations, unknown targets, names in use, clusters that routes name. |
| OperationGuards.ReasonIs | src/Aneiang.Yarp/Services/ClusterConfigManager.cs:232-290 | The reason of a refusal: a blank id before anything else, then missing destinations, a rename to the same id, a cluster still named by a route, a missing record, and last a name in use; no two of them hold at once. |
| OperationGuards.ChangesIff | src/Aneiang.Yarp/Services/DynamicYarpConfigService.cs:239-522 | An operation changes the working set, and raises its version by one, exactly when it is not refused and, of a batch, some id can be deleted or found or anything was given. |
| LockedCall.FailedCallLeavesIff | src/Aneiang.Yarp/Services/ConfigManagerBase.cs:38-86 | A failed call leaves the working set, and everything else, as it was exactly when it was refused by a guard. One that throws has changed it and raised its version; whether its lists are installed and whether the proxy was handed them is exactly what it met; unless they were handed over nothing is saved, and else the tables are as the failing save left them. |
| LockedCall.ThrowsIff | src/Aneiang.Yarp/Services/DynamicConfigPublisher.cs:89-119 | A call throws exactly when by its guards it changes something and compiling throws, others have by its swap installed a version above the one it read and not below the working set's, the change source is disposed before the hand-over takes its token, or its save fails and it passes that on. |
| LockedCall.FailuresDoNotTouchConfig | src/Aneiang.Yarp/Services/ConfigManagerBase.cs:72-86 | Over every run with any failures the working set is that of the operations alone. |
| LockedCall.FailingRunKeepsInvariant | src/Aneiang.Yarp/Services/ConfigManagerBase.cs:72-86 | So it stays in order over every such run of safe operations. |
| LockedCall.HandedIs | src/Aneiang.Yarp/Services/DynamicConfigPublisher.cs:40-119 | Over every run of safe operations with any failures, the lists the proxy was handed last are the published routes and clusters of all operations up to the last call that handed over, those of failed calls included. |
| LockedCall.HandedIsCurrentIff | src/Aneiang.Yarp/Services/DynamicConfigPublisher.cs:40-119 | They are those of the working set itself exactly when no call since the last that handed over changed anything. |
| LockedCall.NextSaveRepairsIff | src/Aneiang.Yarp/Services/ConfigManagerBase.cs:76-85 | From tables in any state the next call that publishes and saves brings them into agreement exactly when it is saved in full and no row that stays holds the uid of a record under another id that is not rewritten before it, or it is saved incrementally and they agree already everywhere but on its target. |
| LockedCall.OvertakenRegistration | src/Aneiang.Yarp/Services/ConfigManagerBase.cs:72-75 | Another publisher installs the same version first: a registration throws, and its route and cluster are in the working set, unpublished and unsaved. |
| LockedCall.RegistrationNotHandedOver | src/Aneiang.Yarp/Services/DynamicConfigPublisher.cs:87-119 | In the run of `ChangeTokens.OverlapFails` a registration throws although nobody overtakes it: its route is installed, the proxy still has the empty lists, and nothing is saved. |
| LockedCall.ImportAfterSwapThrows | src/Aneiang.Yarp/Services/DynamicYarpConfigService.cs:239-312 | After three renames that swap the names of two clusters and whose saves threw, an import throws though everything but its save goes well. |
| WorkingSetTheorems.RenamePreservesMeaningIff | src/Aneiang.Yarp/Services/ClusterConfigManager.cs:262-320 | After a rename no route names the old id, routes naming others are untouched, and every route resolves to the same uid as before exactly when none named the new id already. |
| WorkingSetTheorems.NoDanglingRouteNamesNewId | src/Aneiang.Yarp/Services/ClusterConfigManager.cs:262-320 | Where every route that names a cluster resolves, no route names the free new id, so a rename preserves all resolutions. |
| WorkingSetTheorems.RenameRouteIs | src/Aneiang.Yarp/Services/RouteConfigManager.cs:352-430 | A renamed route keeps its uid, resolves its cluster now, and comes out enabled whatever it was; the old id is gone and no other route changes. |
| WorkingSetTheorems.ImportIs | src/Aneiang.Yarp/Services/DynamicYarpConfigService.cs:239-312 | For every id given an import leaves the last configuration given for it, imported routes resolve in its result and keep uid and enabled flag, and no other record changes but for corrected transforms. |
| WorkingSetBatches.BatchDeleteClustersIsSequence | src/Aneiang.Yarp/Services/DynamicYarpConfigService.cs:319-382 | The batch leaves the lists and the flags of removing each id in order, repeated ids included, as one version or none. |
| WorkingSetBatches.EnableRoutesIs | src/Aneiang.Yarp/Services/DynamicYarpConfigService.cs:467-522 | Exactly the named routes get the flag, at their positions, and nothing else changes. |
| WorkingSetBatches.EnableFlagsAre | src/Aneiang.Yarp/Services/DynamicYarpConfigService.cs:481-508 | An id is answered true exactly when it is not blank and names a route. |
| WorkingSetBatches.ReplaceAllRestores | src/Aneiang.Yarp/Services/DynamicYarpConfigService.cs:553-584 | The given configurations in order, known ids with their old uid and flag, others with new ones; every route resolved among the new clusters. |
| RouteDeletion.DeleteRoutesLeaves | src/Aneiang.Yarp/Services/DynamicYarpConfigService.cs:401-431 | Exactly the routes not named remain. |
| RouteDeletion.DeleteRoutesFlags | src/Aneiang.Yarp/Services/DynamicYarpConfigService.cs:401-431 | An id is answered true exactly when it names a route and did not come earlier in the list. |
| RouteDeletion.OrphanCleanupExactly | src/Aneiang.Yarp/Services/DynamicYarpConfigService.cs:398-450 | The clean-up removes exactly one cluster or none: that of the first deleted route with a cluster, when no other route, deleted or not, named it. |
| RouteDeletion.NeverRemovesReferenced | src/Aneiang.Yarp/Services/DynamicYarpConfigService.cs:385-464 | No cluster a remaining route names is removed, every remaining route resolves as before, and the invariant is kept. |
| RouteDeletion.FullCleanupIff | src/Aneiang.Yarp/Services/DynamicYarpConfigService.cs:424-450 | All clusters left orphaned are removed exactly when each of them is the one cluster above. |
| RouteDeletion.SharedOrphanStays | src/Aneiang.Yarp/Services/DynamicYarpConfigService.cs:424-430 | Deleting the only two routes of a cluster together leaves the cluster behind. |
| RouteDeletion.SharedOrphanExample | src/Aneiang.Yarp/Services/DynamicYarpConfigService.cs:424-430 | A concrete such deletion. |
| WorkingSetInverses.ClusterReadsBack | src/Aneiang.Yarp/Services/ClusterConfigManager.cs:35-74 | A configuration put under an id is found there, a known record keeps its uid, and no other cluster changes. |
| WorkingSetInverses.UpdateIsIdempotent | src/Aneiang.Yarp/Services/ClusterConfigManager.cs:182-226 | The same update again changes no cluster, nor does one that leaves everything out. |
| WorkingSetInverses.EnabledRoundTrip | src/Aneiang.Yarp/Services/RouteConfigManager.cs:310-337 | Flipping the flag changes the routes, and flipping it back restores the working set but for the version. |
| WorkingSetInverses.NormalizedIs | src/Aneiang.Yarp/Services/DynamicYarpConfigHelpers.cs:15-40 | A transform whose X-Forwarded action is neither white space nor one of the four names, upper or lower case, becomes the single Set action; every other one is kept, and nothing else of a configuration changes. |
| WorkingSetInverses.NormalizeIsIdempotent | src/Aneiang.Yarp/Services/DynamicYarpConfigHelpers.cs:15-40 | Correcting twice is correcting once. |
| WorkingSetInverses.RenameThereAndBackIff | src/Aneiang.Yarp/Services/ClusterConfigManager.cs:262-320 | Renaming there and back finds the same configuration under the same uid, and restores the routes exactly when none named the new id and those naming the old one had recorded its uid. |
| WorkingSetInverses.RegistrationUndoneIff | src/Aneiang.Yarp/Services/RouteConfigManager.cs:225-299 | Removing a route just registered with a new cluster restores the routes, and the clusters exactly when no other route names that cluster. |
| WorkingSetInverses.IsolatedRegistrationUndone | src/Aneiang.Yarp/Services/RouteConfigManager.cs:242-277 | The removal of an isolated registration for the same client restores both lists, whatever else names the cluster. |
| ConfigPublisher.DynamicConfigPublisher.Publish | src/Aneiang.Yarp/Services/DynamicConfigPublisher.cs:40-119 | Whatever others install while it compiles and swaps, its lists, the enabled routes with corrected transforms and the sanitized clusters, are installed exactly when compiling does not throw and its version, chosen before, beats the last of them; they are then handed over exactly when the change source was not disposed meanwhile, and only then it succeeds. |
| ConfigPublisher.PublishedExactlyEnabled | src/Aneiang.Yarp/Services/DynamicConfigPublisher.cs:42-60 | A route is published exactly when it exists and is enabled, with its transforms corrected. |
| ConfigPublisher.PublishedInOrder | src/Aneiang.Yarp/Services/DynamicConfigPublisher.cs:42-60 | The published routes are exactly the enabled ones in order, each as it is but for corrected transforms. |
| ConfigPublisher.SanitizeIs | src/Aneiang.Yarp/Services/DynamicConfigPublisher.cs:193-210 | Exactly the destinations with an address are published, and sanitizing again changes nothing. |
| ConfigPublisher.ValidDestinationsAre | src/Aneiang.Yarp/Services/DynamicConfigPublisher.cs:193-210 | A destination is published exactly when some character of its address is not white space, and then as it was given. |
| ConfigPublisher.PublishedClusterIs | src/Aneiang.Yarp/Services/DynamicConfigPublisher.cs:62-86 | The published cluster of an id: its destinations are exactly the record's with an address, its health check the native one or else the record's own, and nothing else differs. |
| RenamedBindings.BindingLostAtRenameIff | src/Aneiang.Yarp/Services/ConfigManagerBase.cs:72-86 | For a cluster or route rename: a binding is in the snapshot it publishes as it is in the next one, unless it is an enabled one of an active plugin that recorded the uid of what was renamed; that one is missing first and then stands under the new id. |
| RenamedBindings.RenameDropsItsBindings | src/Aneiang.Yarp/Services/GatewaySnapshotCompiler.cs:43-61 | The snapshot a rename publishes is the next one's, of the binding table without those of what was renamed. |
| RenamedBindings.RouteTableIff | src/Aneiang.Yarp/Services/GatewaySnapshotCompiler.cs:45-49 | The uid table read from a store in agreement resolves every uid as the working set does. |
| RenamedBindings.BindingLostExample | src/Aneiang.Yarp/Services/GatewaySnapshotCompiler.cs:43-61 | A concrete store, working set and binding of a cluster that is lost for one snapshot. |
| RenamedBindings.RouteBindingLostExample | src/Aneiang.Yarp/Services/GatewaySnapshotCompiler.cs:43-61 | Likewise of a route. |
| Persister.DynamicConfigPersister.SaveAsync | src/Aneiang.Yarp/Services/DynamicConfigPersister.cs:63-129 | The loops that delete stale rows and upsert the others leave the tables of the save function, incremental or full, also when a write is refused and it throws part-way. |
| Persister.DynamicConfigPersister.TryPersistIncremental | src/Aneiang.Yarp/Services/DynamicConfigPersister.cs:131-180 | It applies exactly to the named operations with a target that is found, and then writes that route with its cluster or that cluster. |
| Persister.DynamicConfigPersister.LoadAsync | src/Aneiang.Yarp/Services/DynamicConfigPersister.cs:30-60 | The loops over the rows list each of them once: a missing order as the largest, ids from their columns, the flag as it defaults, destinations from their own table and without the address their health is probed at. |
| UniqueUids.FitsIff | src/Aneiang.Yarp.Storage.Sqlite/Migrations/Migration005_Indexes.cs:25-26 | A transaction of upserts into a table with unique uids goes through exactly when no row holds the uid of a record under another id that no earlier record of the transaction rewrites. |
| Persister.Repositories.SaveRoutes | src/Aneiang.Yarp.Storage.Sqlite/SqliteRouteRepository.cs:91-117 | The transaction writes all routes, or is refused at one and leaves the table as it was. |
| PersisterTheorems.FullSaveGoesThroughIff | src/Aneiang.Yarp/Services/DynamicConfigPersister.cs:70-116 | A full pass goes through exactly when no row that is not stale so blocks a route or a cluster. |
| PersisterTheorems.FullSaveAgreesIff | src/Aneiang.Yarp/Services/DynamicConfigPersister.cs:70-116 | Whatever the tables hold, after a full pass they agree with the working set exactly when it went through. |
| PersisterTheorems.RefusedSaveIsRefusedAgain | src/Aneiang.Yarp/Services/DynamicConfigPersister.cs:70-116 | A full pass that is refused leaves tables on which it is refused again. |
| PersisterTheorems.RefusedSaveLeaves | src/Aneiang.Yarp/Services/DynamicConfigPersister.cs:70-116 | What a full pass leaves that is refused, row by row: at the routes, the rows that are not stale as they were and the clusters untouched; at the clusters, the routes written, stale clusters gone and the other rows as they were. |
| PersisterTheorems.SwappedNamesAreRefused | src/Aneiang.Yarp.Storage.Sqlite/Migrations/Migration005_Indexes.cs:25-26 | Two clusters whose names were swapped by three unsaved renames: the full pass is refused, and so is the one after it. |
| RouteIdentity.RoutesKeepUid | src/Aneiang.Yarp/Services/RouteConfigManager.cs:52-430 | Across any operation a route whose id names one before and after keeps its uid. |
| PersisterTheorems.SavesGoThrough | src/Aneiang.Yarp/Services/ConfigManagerBase.cs:72-86 | From tables in agreement the save of every safe operation goes through. |
| PersisterTheorems.UpsertedRoute | src/Aneiang.Yarp.Storage.Sqlite/SqliteRouteRepository.cs:91-117 | After all upserts of a pass that goes through every route has its row, a row that was there keeps its author, and no other row changes. |
| PersisterTheorems.UpsertedCluster | src/Aneiang.Yarp.Storage.Sqlite/SqliteClusterRepository.cs:162-186 | After all upserts of a pass that goes through every cluster has its row, a row that was there keeps its author, and no other row changes. |
| PersisterTheorems.ClusterSaveIs | src/Aneiang.Yarp/Services/DynamicConfigPersister.cs:163-177 | A cluster is saved exactly when no row under another id has its uid, and otherwise nothing is written. |
| PersisterTheorems.RouteSaveIs | src/Aneiang.Yarp/Services/DynamicConfigPersister.cs:137-160 | A route is saved with the cluster it names, if that is there, exactly when no row under another id has its uid, or the cluster's; a refusal of the cluster leaves the route written. |
| PersisterTheorems.IncrementalAgreesIff | src/Aneiang.Yarp/Services/DynamicConfigPersister.cs:131-180 | After an incremental pass the store agrees exactly when it agreed before everywhere but on what the pass writes, and then the pass goes through; it does not make up for an earlier one that failed. |
| PersisterTheorems.SaveKeepsAgreementIff | src/Aneiang.Yarp/Services/ConfigManagerBase.cs:72-86 | From a store in agreement each operation and its save leave it in agreement, except exactly a registration that creates the cluster with the empty id or gives it another address, and a route configuration whose correction changes another route. |
| PersisterTheorems.RegistrationChangesIff | src/Aneiang.Yarp/Services/RouteConfigManager.cs:97-130 | A registration changes its cluster exactly when it is unknown, or the address is not blank, isolation is off and the plain destination is not that address already. |
| PersisterTheorems.EmptyClusterIsNotSaved | src/Aneiang.Yarp/Services/DynamicConfigPersister.cs:143-158 | A registration that names no cluster leaves the store behind. |
| PersisterTheorems.CorrectionIsNotSaved | src/Aneiang.Yarp/Services/RouteConfigManager.cs:197-199 | Adding a second route configuration that corrects the first leaves the store behind. |
| PersisterTheorems.NotIncremental | src/Aneiang.Yarp/Services/DynamicConfigPersister.cs:63-68 | A cluster rename and the operations outside the named ones are saved in full. |
| PersisterTheorems.SavedIncrementallyIff | src/Aneiang.Yarp/Services/DynamicConfigPersister.cs:131-180 | Exactly the additions and updates of a cluster and the additions of a route are saved incrementally, unless the id of the created cluster or of the registered route is blank. |
| PersisterTheorems.RunStaysSaved | src/Aneiang.Yarp/Services/DynamicConfigPersister.cs:63-180 | Over every run of operations that are safe and save-safe no save is refused and the store agrees with the working set. |
| PersisterTheorems.EnabledIsNotSaved | src/Aneiang.Yarp/Storage/ConfigEntityMapper.cs:25-39 | The store agrees with either setting of a route's enabled flag. |
| Reload.RouteRoundTripIff | src/Aneiang.Yarp/Storage/ConfigEntityMapper.cs:25-82 | Saved in full into any tables that let it through and loaded, a route is as it was exactly when it was enabled, had an order and a cluster id, and no earlier row of its id held another author. |
| Reload.ClusterRoundTripIff | src/Aneiang.Yarp.Storage.Sqlite/SqliteClusterRepository.cs:112-222 | A cluster is as it was exactly when none of its destinations has an address of its own to probe its health at and no earlier row of its id held another author. |
| Reload.ClusterLoadsBackIff | src/Aneiang.Yarp.Storage.Sqlite/SqliteClusterRepository.cs:214-222 | From any store in agreement: a cluster loads as it was but for its author and the addresses its destinations are probed at, and when that is the cluster itself. |
| Reload.ProbeAddressIsNotRead | src/Aneiang.Yarp.Storage.Sqlite/SqliteClusterRepository.cs:214-222 | A concrete cluster, saved and loaded, comes back without the address its destination is probed at. |
| Reload.RouteLoadsBackIff | src/Aneiang.Yarp/Storage/ConfigEntityMapper.cs:41-82 | From any store in agreement: what a route loads as, and when that is the route itself. |
| Reload.ReloadKeepsInvariant | src/Aneiang.Yarp/Services/DynamicConfigPersister.cs:30-60 | Loading a store in agreement gives a working set in order, in which routes resolve as before. |
| Reload.ReloadPublishesEveryRoute | src/Aneiang.Yarp/Services/DynamicYarpConfigService.cs:86-93 | After a reload every route is published, before exactly the enabled ones were. |
| Reload.RestartPublishesSameIff | src/Aneiang.Yarp/Services/DynamicYarpConfigService.cs:86-93 | A restart publishes the same route ids exactly when no route was disabled. |
| Reload.DisabledRouteComesBackEnabled | src/Aneiang.Yarp/Storage/ConfigEntityMapper.cs:41-53 | A concrete disabled route, saved and loaded, is enabled and published. |
| Provider.AneiangProxyConfigProvider.CreateSnapshot | src/Aneiang.Yarp/Services/AneiangProxyConfigProvider.cs:102-116 | The listed configurations are the objects the records refer to. |
| Provider.AneiangProxyConfigProvider.ApplySnapshot | src/Aneiang.Yarp/Services/AneiangProxyConfigProvider.cs:119-142 | The snapshot is installed under a new change source that is not signalled, and the old source is cancelled and disposed. |
| Provider.AneiangProxyConfigProvider.ApplyFromDynamic | src/Aneiang.Yarp/Services/AneiangProxyConfigProvider.cs:175-183 | Installs the given records, listed configurations aliased to them. |
| Provider.AneiangProxyConfigProvider.Update | src/Aneiang.Yarp/Services/AneiangProxyConfigProvider.cs:190-228 | Afterwards listed configurations are the records' own objects; a known id keeps its record; of inputs with one id the last is listed itself, or as a copy when it lacked an order; ids that did not repeat still do not. |
| ChangeTokens.CancelledExactlyOnce | src/Aneiang.Yarp/Services/AneiangProxyConfigProvider.cs:119-142 | Under every interleaving the current source is never cancelled, none is cancelled twice, and each replaced one is cancelled once as soon as no call still holds it. |
| ChangeTokens.TokenFailsIff | src/Aneiang.Yarp/Services/AneiangProxyConfigProvider.cs:102-142 | In every run from the start a call fails exactly when between its reading a source and its taking the token another call disposed that source; otherwise it goes on. |
| ChangeTokens.OverlapFails | src/Aneiang.Yarp/Services/AneiangProxyConfigProvider.cs:102-142 | A run from the start in which two calls read the first source and one of them fails. |
| HandOvers.ShowsInstalledIff | src/Aneiang.Yarp/Services/DynamicConfigPublisher.cs:87-119 | Over every run of publishers that install and then hand over, the proxy never shows a snapshot newer than the installed one, and shows that one exactly when its hand-over came after every other. |
| HandOvers.OneByOneKeepsUp | src/Aneiang.Yarp.Plugin.ServiceDiscovery/ServiceDiscoveryRefreshService.cs:266-269 | Publications that do not overlap leave the proxy on the installed snapshot. |
| HandOvers.OlderOneStays | src/Aneiang.Yarp.Plugin.ServiceDiscovery/ServiceDiscoveryRefreshService.cs:266-269 | Two publishers that overlap leave the proxy on the older snapshot with nothing pending. |
| SnapshotCompiler.CompileAll | src/Aneiang.Yarp/Services/GatewaySnapshotCompiler.cs:65-107 | The nested loops over targets, bindings and compilers compile each target through its own group and order its plan. |
| CompiledTargets.SelectedAre | src/Aneiang.Yarp/Services/GatewaySnapshotCompiler.cs:56-61 | The bindings taken into the snapshot are, in table order and one each, the enabled ones of active plugins whose target is known. |
| CompiledTargets.SelectedIff | src/Aneiang.Yarp/Services/GatewaySnapshotCompiler.cs:120-135 | Each has the id, plugin, scope, configuration and order of its entity, and as scope id the one the uid table gives or else the recorded one. |
| CompiledTargets.GroupIs | src/Aneiang.Yarp/Services/GatewaySnapshotCompiler.cs:152-159 | A target's group holds exactly its bindings, orders ascending and of one order plugins in ordinal order, field by field; those of one order and plugin stay in table order. |
| CompiledTargets.CompiledIs | src/Aneiang.Yarp/Services/GatewaySnapshotCompiler.cs:65-107 | Each target is compiled by a chain: one compiled plugin for each pair of a binding of its group and a compiler that handles it, in sequence, each that compiler's result on the target the one before left, and the last one's target is the result. |
| CompiledTargets.SortedPlan | src/Aneiang.Yarp/Services/PluginExecutionPlans.cs:97-112 | A plan holds exactly what was compiled, by stage, order, plugin and id, written out field by field, equals in compilation order. |
| SnapshotCompiler.GroupOrderIndependentIff | src/Aneiang.Yarp/Services/GatewaySnapshotCompiler.cs:152-159 | A target's bindings come in the same order from every order of the binding table exactly when no two different ones have the same order and plugin. |
| SnapshotCompiler.CompilationOrderIndependent | src/Aneiang.Yarp/Services/GatewaySnapshotCompiler.cs:55-118 | Permuting the binding table changes no compiled target and no plan when on each target order and plugin are distinct. |
| SnapshotCompiler.OthersDoNotMatter | src/Aneiang.Yarp/Services/GatewaySnapshotCompiler.cs:55-64 | A binding anywhere in the table has no effect on a target unless it is enabled, its plugin active and it resolves to that target. |
| SnapshotCompiler.PipelineIs | src/Aneiang.Yarp/Services/GatewaySnapshotCompiler.cs:137-150 | The pipeline holds exactly the compilers given, in non-descending order, and those of one order run as registered. |
| StableSort.OrderIndependentIff | src/Aneiang.Yarp/Services/GatewaySnapshotCompiler.cs:152-159 | Sorting gives one result from every order of the elements exactly when no two different ones tie. |
| StableSort.SortStable | src/Aneiang.Yarp/Services/PluginExecutionPlans.cs:97-112 | Elements that tie keep the order they came in. |

## Left out

- Redis binding by reflection, connection cooldown, fail-open logging and the marshalling of C# arguments to the scripts: foreign calls; parameters are taken as the script headers declare them.
- Floating-point rounding in the token bucket, and a server clock that runs backwards.
- ProxyLogStore.ProxyLogStore.Add: several threads inside it at once; that is the subject of `RingWriters`, which leaves out the 32-bit wrap of the head instead.
- ProxyLogStore.ProxyLogStore.GetRecent: adds by other threads while it reads.
- BodyCapture.ReadStream: decompression by content encoding before the bytes are read.
- CircuitBreaker.CircuitState.ApplyConfig: failure ratio, throughput and sampling duration, which only the circuits of destinations read; see `DestinationCircuits.InForce`.
- DestinationCircuits.LockedOutForever: requests that overlap, so that one let in earlier can still report, and retries of one request; and the operator's reset. Circuits by key are a list of destinations.
- Persister.DynamicConfigPersister.SaveAsync: a repository call that throws for another reason than a uid in use; `LockedCall` lets such a save leave any tables at all.
- Persister.DynamicConfigPersister.LoadAsync: rows without a full configuration in JSON, and a read that fails, after which the code starts empty.
- ProxyLogStore.ProxyLogStore.constructor: requests above 2^30, where the array length is negative and the constructor throws; `Bits.NextPowerOf2` shows the negative length.
- TokenBucket.ScriptBucket: limits of zero or less, which the caller answers itself before it runs a script.
- BatchService.DynamicYarpConfigService.ReplaceAllConfig: repeated ids in the given lists, where the code puts one record into a list twice; `WorkingSetBatches.ReplaceAllIff` shows that ids are then no longer unique. Known ids must be unique, since building the dictionary throws otherwise; the same holds for `ImportBatchAsync`.
- BatchService.DynamicYarpConfigService.BatchDeleteRoutesAsync: the code looks up all orphans before it removes the first; the model looks up and removes one by one, which is the same because the ids differ.
- Provider.AneiangProxyConfigProvider.Update: repeated ids among the installed records, where building the dictionary throws.
- ConfigPublisher.DynamicConfigPublisher.Publish: matching compiled configurations back to the records by id, prevalidation and its error store; the hand-over is to lists, the provider's objects are those of `Provider`.
- SnapshotCompiler.CompileAll: exceptions thrown by compilers, the negative-version check, and repeated uids in the tables, where building the dictionary throws. Ordinal string order is by character, not by UTF-16 unit.
- The JSON parsing of plugin configurations inside the plan provider's compilation: the memo is verified for an arbitrary compilation function.
- Merging static configuration at startup: an initial working set in order is assumed.
- Heartbeats, timestamps, display names and audit records.
- Hosts, health flags and metadata of destinations, and their rows one by one: a cluster's destinations are one value.
- Clearing and reading the log ring while threads add to it.
- Column types, migrations and JSON mapping of the tables: rows are values, tables are maps with upsert and delete.
- Retry middleware, response cache, compression, web application firewall, dashboard, gRPC, service discovery and client registration: plumbing over libraries.
