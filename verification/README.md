# dockfoxprox, verified

dockfoxprox caches container-registry blobs and manifests, and redis values, in
memory and on disk, within three byte budgets. This project models that cache in
Dafny and proves what its eviction pass, its byte accounting, its snapshots, its
two-tier redis store and its parsers promise.

## What is modelled

- `Cache` is the state as a value: manifests, blobs, redis entries, tags, uploads,
  files by id, pending unlinks, the id counter, the clock and the seven usage
  counters. `CacheState.State` is the same state as an object whose methods update
  it in place; `View()` ties the two together, and every method's contract says
  what its new `View()` is.
- `EvictionPass` is one run of `evict`: seven accumulators, three candidate heaps
  and per-blob counts, changed in place together with the shared state.
  `EvictionMachine` is its specification: one event per pop, each pop in closed
  form. `EvictionRefinement` and `EvictionSetup` prove that the nested loops do
  what the closed form says; `EvictionInvariant` and `EvictionHeaps` hold the loop
  invariant. What a reader wants to know is in `EvictionTheorems` (who survives),
  `EvictionPhases` (in which order pops come and what that leaves in memory),
  `EvictionBudgets` (what is true at exit), `EvictionGauges` (the published touch
  times against what is in the cache afterwards), `EvictionExactGauges` (conditions
  under which they are exact), `EvictionUsage` (the published byte counts),
  `EvictionWitnesses` and `EvictionGaugeWitnesses` (stores on which the code's comments
  fail). `GaugeAgreement` compares them with the touch times a load publishes, and
  `Touches` says what using an item does to its place in the order of eviction.
- `Snapshot` says what a save writes and what a load makes of it, `SnapshotPruning`
  what a load takes from a snapshot that does not match the files, `SnapshotIo`
  has the loops and the snapshot file, which a startup removes.
- `Resp` is the framing of the redis protocol and `RespGrammar` the grammar it accepts;
  `RedisServer` is the command loop and the plain key-value map it refines,
  `RedisProtocol` what a client reads off the wire, `RedisFiles` what becomes of the
  files of redis values. `RedisPromotion` takes the GET of an on-disk
  value apart, with anything happening while it waits for the file; `WaitingGets` does
  so for any number of them at once, over whole runs.
- `Uploads` has the registry handlers that fill the cache or serve from it,
  `UploadSessions` what a client sees of them from start to finish. `Challenge` is the
  `WWW-Authenticate` scanner, with its edge cases in `ChallengeEdges`, and `DigestText`
  the digest text form.
- `Interleaving` cuts the `insert_*` and `remove_*` helpers into atomic steps and
  runs any number of threads over them.
- `Runs` puts everything together: the cache, the snapshot file beside it and
  whether the process is up, under any sequence of commands, uploads, fills, pulls,
  eviction passes, late unlinks, clock changes, saves, crashes, lost or damaged
  snapshots and startups. `RunSteps` has one step of each kind.

SHA-256, the JSON parser, the UTF-8 test and the tokenizer of inline commands are
parameters; every theorem holds for any choice of them. The upload id, the clock,
what an upstream registry sends and the order in which maps are iterated are
arbitrary. Numbers are unbounded. Text is its UTF-8 bytes.

## Where the code departs from its own comments

The model follows the code in each of these.

- Dropping a redis entry lowers the pass's accumulator by the value's size only;
  the key's bytes stay on it (src/eviction.rs:303-309, 421-427), so the loop evicts
  more than the budgets ask for. `KeptKeysCount` says what usage it aims at,
  `KeysAloneDriveEverythingOut` when that empties the small pool, and `OneDropWouldDo`
  is a store on which one drop would be enough and every pass drops everything.
- Those bytes are then published as usage, and so are those of swept blobs, since the
  sweep lowers no accumulator at all (src/eviction.rs:485-496, 523-536).
  `PublishedUsage` gives the exact amount and `PublishedExactIff` when there is none,
  in terms of what the pass dropped and swept. Two conditions speak of the store
  before the pass: `PublishedExactIffNothingToSweep`, where the pass cannot drop
  anything, and `DroppedKeyLeavesInexactUsage`, where it is certain to drop a key.
  `SweepLeavesInexactUsage` and `LongKeyIsDropped` are stores on which every pass
  publishes too much.
- The three budgets are documented as served "most-overrun" first
  (src/eviction.rs:97-98). The code serves the small one first, then memory, then
  disk, whichever is over by more (src/eviction.rs:296-432), so the pops come in that
  order (`PopsComeInPhases`).
- Memory pressure is documented as relieved by dropping large redis entries
  (src/eviction.rs:88-92). The code writes them to disk and keeps them
  (src/eviction.rs:379-413), in the model `SpillValue`.
- The redis spill puts the entry in the map directly (src/eviction.rs:396-403), so
  the shared counters do not see it until the closing stores.
- The cascade and the sweep phrase the age test differently (src/eviction.rs:458,
  486). They differ exactly while the clock is short of the grace period and the
  blob was last used at time zero (`AgeTestsAgree`). On the store of
  `EarlyCascadeDeletesFreshBlob` every pass deletes a blob that the sweep would
  keep; `SurvivesIff` says for every clock who survives.
- The "oldest" gauges are documented as the oldest live item of their pool
  (src/eviction.rs:498-500). `LiveSmall`, `LiveLarge` and `LiveOnDisk` say what is live,
  from the cache the pass leaves: a manifest is live on disk if it refers to a blob that
  is on disk, and live in the large pool if memory pressure can still act on a large blob
  through it (`PopMattersIffLive`). The gauges may be older than that. A manifest dropped
  through one heap stays in the others (`StaleSmallGauge`); one that was flagged before
  the pass stays on the large heap after its blob has gone to disk for another
  (`StaleLargeGauge`); and a popped one joins the disk heap, flagged before or not, even
  if another manifest keeps its blob in memory (`StaleDiskGauge`). The small and the
  large gauge are never newer (`SmallGaugeIsLowerBound`, `LargeGaugeIsLowerBound`). The
  disk gauge may be: a manifest flagged before the pass can stay on the large heap while
  its blob goes to disk for another (`NewerDiskGauge`), and only that can make it so
  (`DiskGaugeIsLowerBound`, `NoneFlaggedMeansDiskGaugeIsBound`).
  `SmallGaugeExactIff`, `LargeGaugeExactIff` and `DiskGaugeExactIff` say when each gauge
  is exact, in terms of the candidates left; `RoomMeansExactSmallGauge`,
  `NoneFlaggedMeansExactLargeGauge` and `OwnBlobMeansExactDiskGauge` are conditions on
  the store before the pass.
- A load publishes its gauges from the blobs' own touch times (src/snapshot.rs:393-443),
  a pass from those of the manifests that refer to them, so for one store the two can
  differ (`TwoTimesForOneStore`). `SmallGaugesAgreeIff` and `OtherGaugesAgreeIff` say when
  they do not.
- `insert_blob` says it moves the old charge out of its bucket first
  (src/state.rs:247-250). It charges the new blob first and discharges the old one
  last (src/state.rs:251-258). That order is why the blob buckets are never short
  under any interleaving (`FiveBucketsNeverUnderCount`).
- A redis key that is new is charged only after it is in the map
  (src/state.rs:321-331), so a reader between the two steps sees the small redis
  counter short (`NewKeyIsChargedLate`). `ShortByAtMostWhatIsOwed` bounds the
  shortfall under any interleaving.
- A GET of an on-disk value waits for the file and then inserts what it read, or
  removes the entry if it could not be read (src/redis.rs:171-188), whatever other
  connections have done to the key since. It still answers a value that was visible when
  it began, or nil (`WaitingGetAnswers`). `GetLosesUpdateIff` and, over whole runs,
  `EndGetLosesUpdateIff` say exactly when it loses an update; `SetIsOverwritten` and
  `SecondGetForgetsTheKey` are two ways it does.
- A manifest pulled from upstream is stored without a digest check
  (src/docker.rs:421-433), so content addressing is a theorem about blobs;
  `PullKeepsManifestsAddressedIff` says when it extends to manifests.
- `put_manifest` stores under the digest of the body whatever digest the request
  names (src/docker.rs:758-783); `PutThenGet` says when the two meet.

## Model

| member | source | states |
|---|---|---|
| EvictionPass.Evict | src/eviction.rs:106-539 | one call of `evict` leaves exactly what some complete trace of pops, each popping an oldest candidate of the budget it serves, leaves, and publishes an oldest remaining touch time per pool |
| EvictionPass.Pass.constructor | src/eviction.rs:180-289 | the three walks compute the recomputed usage, the reference counts with multiplicity and exactly the candidates of each heap |
| EvictionPass.Pass.CountRefs | src/eviction.rs:214-225 | counts each occurrence once for `refs` and once for `unevicted_refs` unless flagged, and reports which tiers are reached |
| EvictionPass.Pass.Drop | src/eviction.rs:439-478 | the cascade of a dropped manifest, reference by reference, equals its closed form over the whole reference list |
| EvictionPass.Pass.Spill | src/eviction.rs:320-378 | the spill of a manifest's blobs, reference by reference, equals its closed form, and the manifest joins the disk heap |
| EvictionPass.Pass.SpillValue | src/eviction.rs:379-413 | a popped large value goes to its file and to the disk heap, a stale candidate changes nothing |
| EvictionPass.Pass.Turn | src/eviction.rs:296-432 | one turn breaks exactly when no budget that is over target has a candidate, and otherwise takes an enabled step |
| EvictionPass.Pass.Sweep | src/eviction.rs:485-496 | removes exactly the unreferenced blobs outside the grace window, and their files |
| EvictionPass.Pass.PublishGauges | src/eviction.rs:498-521 | publishes the oldest candidate left in each heap, or the clock |
| EvictionPass.Pass.Run | src/eviction.rs:291-539 | from the initial bookkeeping to the stored counters: the events and states it went through form a pass |
| EvictionHeaps.StepInv | src/eviction.rs:296-479 | ownership, exact counts, exact accumulators, rightful deletions and heap contents survive every pop, stale pops included |
| EvictionHeaps.TraceInv | src/eviction.rs:296-479 | the same at every point of every trace |
| EvictionTheorems.SurvivorClosure | src/eviction.rs:328-372 | a blob cached at the start and referred to by a surviving manifest is still cached with identical bytes, in memory or in its file |
| EvictionTheorems.CountsAreExact | src/eviction.rs:206-224 | at every point `refs` and `unevicted_refs` are the occurrence counts over surviving and over surviving unflagged manifests |
| EvictionPhases.CountsNeverSaturate | src/eviction.rs:332-457 | at every drop and spill of every trace each blob is counted at least as often as the manifest refers to it, so no `saturating_sub` on a count stops at zero |
| EvictionTheorems.SpillMovesExactly | src/eviction.rs:328-372 | a spill moves exactly the large in-memory blobs of the manifest that no unflagged manifest refers to |
| EvictionTheorems.DropDeletesExactly | src/eviction.rs:439-478 | a drop deletes exactly the blobs of the manifest that no remaining manifest refers to and that are outside the window |
| EvictionTheorems.KeepsExactlyReferencedOrFresh | src/eviction.rs:458-496 | with a clock past the grace period a blob survives iff a surviving manifest refers to it or it is inside the window |
| EvictionPhases.SurvivesIff | src/eviction.rs:458-496 | the same both ways for every clock: referred to, or expired neither for the sweep nor, having had a referrer, for the cascade |
| EvictionTheorems.AgeTestsAgree | src/eviction.rs:458-486 | when the cascade's and the sweep's age tests agree, both ways |
| EvictionWitnesses.EarlyCascadeDeletesFreshBlob | src/eviction.rs:458-486 | a store on which every pass deletes, by the cascade, a blob that the sweep's test calls fresh |
| EvictionPhases.PopsComeInPhases | src/eviction.rs:296-432 | in every trace all small pops come before all large pops and those before all disk pops |
| EvictionPhases.NothingHeldAtDone | src/eviction.rs:311-378 | when the loop ends over its memory target, no large blob that a manifest refers to is still in memory |
| EvictionBudgets.BudgetsMet | src/eviction.rs:291-432 | at exit each true usage is within three quarters of its limit, rounded up, or nothing that budget may evict is left: over the small target only unreferenced fresh blobs; over the memory target no large value and no referenced large blob in memory; over the disk target no value on disk and of referenced blobs only those spilled for manifests flagged before the pass |
| EvictionBudgets.TargetsAreThreeQuarters | src/eviction.rs:291-294 | a usage is within its target iff four times it is at most three times the limit and three; an unset small limit is an eighth of the memory limit |
| EvictionBudgets.PopsNothingIff | src/eviction.rs:291-432 | a pass pops nothing iff each usage, as a sum of its buckets, is within three quarters of its limit or there is nothing in the pool that budget is served from |
| EvictionBudgets.KeptKeysCount | src/eviction.rs:296-309 | at exit the true usage plus the bytes of every key the pass dropped is within three quarters of the limit, or that budget has nothing left it may evict: a pass evicts as if dropped keys were still there |
| EvictionBudgets.KeysAloneDriveEverythingOut | src/eviction.rs:296-309 | if the keys alone exceed three quarters of the small limit before the pass, no manifest and no small redis value is left after it, however little dropping would have sufficed |
| EvictionWitnesses.OneDropWouldDo | src/eviction.rs:296-309 | a store that dropping one redis entry brings within its small target, on which every pass drops the manifest too |
| EvictionTheorems.NoPressureNoPops | src/eviction.rs:296-432 | a pass within its targets pops nothing and leaves manifests, tags and redis alone |
| EvictionTheorems.TraceIsBounded | src/eviction.rs:296-479 | a pass pops at most small + 2 large + disk candidates of the initial heaps |
| EvictionPass.TraceCompletes | src/eviction.rs:296-479 | no state of the loop is stuck: any trace from an owned store can be carried on until the loop breaks |
| EvictionPass.PassExists | src/eviction.rs:106-539 | every owned store has a complete pass, whatever the limits |
| EvictionMachine.StepDecreasesMeasure | src/eviction.rs:296-479 | every pop decreases that measure, including the ones that push onto the disk heap or meet a stale entry |
| EvictionTheorems.SmallPopsAreOldest | src/eviction.rs:226-237 | nothing older than a popped small candidate survives the pass among manifests and small values |
| EvictionTheorems.LargePopsAreOldest | src/eviction.rs:233-294 | everything older than a popped large candidate is out of memory, flagged or gone |
| EvictionGauges.DiskPopsAreOldest | src/eviction.rs:239-244 | nothing that is still on disk at the end is older than a popped disk candidate, except through manifests flagged before the pass that are still on the large heap |
| EvictionGauges.PopMattersIffLive | src/eviction.rs:311-413 | popping a large candidate changes manifests, blobs or redis values exactly if it is live: a large value in memory, or a manifest with a large blob in memory that is unflagged or holds one no unflagged manifest holds |
| EvictionGauges.SmallGaugeIsLowerBound | src/eviction.rs:498-507 | the small gauge is at most the touch time of every surviving manifest and small redis value |
| EvictionGauges.LargeGaugeIsLowerBound | src/eviction.rs:508-514 | the large gauge is at most the touch time of everything live in the large pool after the pass, flagged manifests included |
| EvictionGauges.DiskGaugeIsLowerBound | src/eviction.rs:515-521 | the disk gauge is at most the touch time of every redis value on disk and every manifest that refers to a blob on disk after the pass, except manifests flagged before it and still on the large heap; and at most that of every survivor the pass has put on the disk heap |
| EvictionGauges.SmallGaugeExactIff | src/eviction.rs:498-507 | the small gauge is the oldest live touch time, or the clock for an empty pool, iff some oldest remaining candidate is live, or none is and it says the clock |
| EvictionGauges.LargeGaugeExactIff | src/eviction.rs:508-514 | the same for the large pool, where a live item may also be on the disk heap |
| EvictionGauges.DiskGaugeExactIff | src/eviction.rs:515-521 | the same for the disk pool, where a live item may also be on the large heap, and none there may be older than the gauge |
| EvictionExactGauges.RoomMeansExactSmallGauge | src/eviction.rs:498-507 | if everything large fits on the disk before the pass, the small gauge is the oldest live touch time, or the clock for an empty pool |
| EvictionExactGauges.NoneFlaggedMeansExactLargeGauge | src/eviction.rs:508-514 | if moreover the small usage is within target and no manifest of the large pool is flagged before the pass, the large gauge is the oldest live touch time, or the clock for an empty pool |
| EvictionExactGauges.NoneFlaggedMeansDiskGaugeIsBound | src/eviction.rs:515-521 | whatever the budgets, if no manifest of the large pool is flagged before the pass, the disk gauge is at most the touch time of everything on disk and every manifest that refers to it |
| EvictionExactGauges.OwnBlobMeansExactDiskGauge | src/eviction.rs:515-521 | under the conditions for the large gauge, if what would be spilled first is a value, refers to a blob on disk, or holds a large blob that no other manifest refers to, the disk gauge is the oldest live touch time, or the clock for an empty pool |
| EvictionWitnesses.StaleSmallGauge | src/eviction.rs:498-507 | a store on which every pass empties the small pool and still publishes the time of the manifest that is gone |
| EvictionGaugeWitnesses.StaleLargeGauge | src/eviction.rs:508-514 | stores on which every pass publishes as the large gauge the time of a manifest flagged before it, although nothing of the large pool is in memory |
| EvictionGaugeWitnesses.StaleDiskGauge | src/eviction.rs:515-521 | stores, with a flagged manifest or with none, on which every pass publishes as the disk gauge the time of a manifest whose only blob is still in memory, older than all that is on disk |
| EvictionGaugeWitnesses.NewerDiskGauge | src/eviction.rs:515-521 | stores on which every pass publishes the clock as the disk gauge although a manifest last used before refers to a blob on disk |
| EvictionGaugeWitnesses.FlaggedIsStillSpilledFor | src/eviction.rs:320-372 | a flagged manifest that alone holds a large blob in memory is live, and every pass that memory forces to spill and that drops nothing spills the blob |
| EvictionGaugeWitnesses.StaleGaugesExist | src/eviction.rs:498-521 | there are stores of each of these kinds, one of the second without any flagged manifest, and each has a pass |
| GaugeAgreement.SmallGaugesAgreeIff | src/snapshot.rs:389-466 | for one store a load and a pass within all targets publish the same small gauge iff no small blob is older than what the pass publishes; without manifests and small values, iff there is no small blob or the oldest is as new as the clock |
| GaugeAgreement.OtherGaugesAgreeIff | src/snapshot.rs:393-466 | they publish the same large gauge, and the same disk gauge, iff what the pass publishes is the touch time of a blob or value of the pool and no blob is older, or the pool is empty |
| GaugeAgreement.TwoTimesForOneStore | src/snapshot.rs:393-466 | a store of one manifest and its large blob for which a load publishes 100 and every pass within targets 7 |
| EvictionUsage.PublishedUsage | src/eviction.rs:485-536 | published counters are the sums plus dropped keys plus swept bytes; three of them are exact and none falls short |
| EvictionUsage.PublishedExactIff | src/eviction.rs:303-309 | counters are exact after a pass iff every dropped key was empty and every swept blob had no bytes |
| EvictionUsage.PublishedExactIffNothingToSweep | src/eviction.rs:485-536 | for a store within its targets, or within the small one and with room on the disk, counters are exact after any pass iff every unreferenced blob past the grace window has no bytes before it |
| EvictionWitnesses.SweepLeavesInexactUsage | src/eviction.rs:485-496 | a store within all targets and with exact counters on which every pass leaves inexact ones |
| EvictionUsage.DroppedKeyLeavesInexactUsage | src/eviction.rs:303-309 | whatever the limits, if an exact store is over its small target and its oldest small candidates are redis values under non-empty keys, every pass drops such a key and leaves inexact counters |
| EvictionWitnesses.LongKeyIsDropped | src/eviction.rs:303-309 | a store that meets this condition |
| EvictionWitnesses.WitnessPassesExist | src/eviction.rs:106-539 | each of the four witness stores has a pass |
| EvictionTheorems.PassEvolves | src/eviction.rs:296-496 | entries only go away, get flagged or move to disk with the same bytes; tags go exactly with their manifest; ownership is kept |
| Touches.DroppedWasOldest | src/eviction.rs:294-479 | whatever a pass drops, nothing small that it leaves was last used before; or, if the disk called for it, nothing on disk was, except through manifests flagged before the pass and still on the large heap |
| Touches.ServedManifestIsTouched | src/docker.rs:369-436 | a manifest that is served is last used now, unflagged, with the content and media type served, and no other changes; one that is not served leaves everything as it is |
| Touches.PushedManifestIsFresh | src/docker.rs:758-772 | a pushed manifest is last used now and unflagged |
| Touches.ServedBlobIsTouched | src/docker.rs:1037-1067 | a blob hit makes the blob last used now, in either tier, and changes nothing else |
| Touches.StoredBlobIsFresh | src/docker.rs:928-959 | a stored blob is in memory under a new id with its bytes, last used now |
| Touches.GotValueIsTouched | src/redis.rs:157-176 | a GET makes the value last used now and leaves it in memory; one that was in memory changes in nothing else |
| Touches.SetValueIsFresh | src/state.rs:310-334 | a SET value is in memory, last used now |
| Touches.JustServedGoesLast | src/eviction.rs:226-237 | a pass that drops a manifest just served leaves nothing small that was last used before it was served; or nothing on disk, if the disk called for it, with the exception above |
| Touches.JustReadGoesLast | src/eviction.rs:252-284 | the same for a redis value just read |
| Touches.JustSetGoesLast | src/eviction.rs:252-284 | the same for a redis value just set |
| Touches.RecentBlobSurvives | src/eviction.rs:458-496 | a blob used less than 18000 seconds ago, and not at time zero, survives every pass with its bytes |
| Touches.OldStrayIsSwept | src/eviction.rs:458-496 | an older one survives iff a surviving manifest refers to it |
| Touches.AskedForBlobStays | src/docker.rs:1037-1067 | a blob a client has asked for survives every pass of the next five hours |
| References.Walk | src/eviction.rs:30-51 | the recursive walk pushes, in the order in which members are iterated, a member's own digest and then those below its value, with repetitions |
| References.CollectDigests | src/eviction.rs:25-53 | an unparseable body has no references |
| References.WalkedIffMentioned | src/eviction.rs:22-53 | a digest is found iff some `digest` field at any depth holds it |
| References.MembersInAnyOrder | src/eviction.rs:30-51 | however the members of an object are ordered, each digest is found equally often |
| References.ImageManifestReferences | src/eviction.rs:22-24 | an image manifest refers to its config and then its layers, a repeated layer as often as it is listed |
| CacheState.State.InsertBlob | src/state.rs:251-259 | charges the new tier, discharges the replaced one |
| CacheState.State.RemoveBlob | src/state.rs:263-268 | discharges the removed blob and keeps its file |
| CacheState.State.InsertManifest | src/state.rs:272-282 | charges the difference to the replaced manifest |
| CacheState.State.RemoveManifest | src/state.rs:286-291 | discharges the removed manifest |
| CacheState.State.InsertRedis | src/state.rs:310-334 | fresh id, key charged on first insertion only, file of a replaced on-disk value unlinked later |
| CacheState.State.RemoveRedis | src/state.rs:337-352 | discharges key and value, unlinks the file later, reports existence |
| CacheState.State.FlushRedis | src/state.rs:356-373 | clears the map and the three redis counters, unlinks all on-disk values later |
| CacheState.State.RecomputeUsage | src/snapshot.rs:379-466 | the walk stores the order-independent sums of all charges and publishes for each pool the oldest live touch time, or the clock for an empty pool |
| CacheState.State.WipeCache | src/snapshot.rs:583-597 | empties maps, disk, counters and id counter, and publishes the clock for all pools |
| Cache.InsertBlobKeepsDrift | src/state.rs:251-259 | counter minus slow sum is unchanged by any insertion, replacement or change of tier |
| Cache.RemoveBlobKeepsDrift | src/state.rs:263-268 | the same for a removal |
| Cache.InsertManifestKeepsDrift | src/state.rs:272-282 | the same for manifests |
| Cache.RemoveManifestKeepsDrift | src/state.rs:286-291 | the same for manifest removal |
| Cache.InsertRedisKeepsDrift | src/state.rs:304-334 | the same for redis values, keys being charged once whatever the tier |
| Cache.RemoveRedisKeepsDrift | src/state.rs:337-352 | the same for redis removal |
| Cache.FlushRedisClearsRedisDrift | src/state.rs:356-373 | a flush removes whatever excess the redis buckets had and keeps the rest |
| Cache.CachePathInjective | src/state.rs:295-302 | two 64-bit ids never share a file path |
| Cache.CachePathForm | src/state.rs:295-302 | the file of an id is named by its 16 hexadecimal digits, in the folder of the last two |
| Cache.RecomputedAddsUp | src/snapshot.rs:379-443 | the seven sums of the walk, each taken from one map, add up to the charges of all three maps: no charge is lost |
| Cache.ChargedBytes | src/state.rs:410-418 | with every file in place, each manifest and blob is charged exactly the bytes that are served for it, in one bucket: on disk, small, or large from 1025 bytes on |
| Cache.ChargedRedisBytes | src/state.rs:420-432 | the same for redis values, with the key always charged to small memory |
| UsageSums.TotalTake | src/snapshot.rs:393-443 | a sum over a map does not depend on the order of iteration |
| Interleaving.CountersAreSumsPlusInFlight | src/state.rs:251-352 | under any interleaving of any threads the counters are the map sums plus the in-flight deltas |
| Interleaving.ShortByAtMostWhatIsOwed | src/state.rs:251-352 | under any interleaving no counter falls short of its sum by more than the lengths of new keys and the manifest growth whose charge is pending |
| Interleaving.FiveBucketsNeverUnderCount | src/state.rs:251-352 | the three blob buckets, large redis memory and redis disk never count less than the maps hold |
| Interleaving.ShortIffInFlightNegative | src/state.rs:272-331 | the other two are short exactly when the in-flight deltas of their bucket are negative |
| Interleaving.ExactWhenQuiet | src/state.rs:251-352 | all seven counters are exact when every thread is idle |
| Interleaving.NewKeyIsChargedLate | src/state.rs:321-331 | a run of one thread, from any exact store, after which the counters are short by exactly a new key's length |
| Interleaving.UninterruptedCallIsHelper | src/state.rs:251-352 | run alone, the atomic steps of a call do what the helper does |
| SnapshotIo.Save | src/snapshot.rs:120-287 | the loops list every map entry once and write exactly the large in-memory bytes to their files |
| SnapshotIo.LoadOrWipe | src/snapshot.rs:328-357 | restores a version 2 snapshot, leaves no on-disk blob without a file of its size, counts the entries without one, starts cold on anything else, leaves no snapshot file behind and publishes exact touch times |
| SnapshotPruning.StartupFilesMatch | src/snapshot.rs:524-543 | after any startup, from any snapshot and any files, every on-disk blob has a file of exactly its recorded size |
| SnapshotPruning.StartupTakesIff | src/snapshot.rs:470-545 | of a version 2 snapshot an entry with bytes is taken as it is, and one without iff its file has the recorded size; any other version starts cold |
| SnapshotPruning.PrunedAreCounted | src/snapshot.rs:524-543 | the number of pruned blobs is that of the entries without bytes whose file is missing or has another size |
| SnapshotIo.LoadBlobs | src/snapshot.rs:506-545 | inlined blobs in memory, others only if their file has the recorded size |
| Snapshot.LoadOfSave | src/snapshot.rs:120-287 | load of save prunes nothing and restores manifests, tags, blobs, redis entries and the id counter, in whatever order they were listed |
| Snapshot.RestartServesSameBytes | src/snapshot.rs:154-180 | every blob and every redis key is served the same bytes after a restart, and every on-disk entry has its file |
| Snapshot.RestartKeepsOwnership | src/snapshot.rs:578-579 | disk ownership holds after a restart |
| Snapshot.RestartConserves | src/snapshot.rs:379-451 | a restart moves exactly the large-memory bytes to the disk buckets, keeps the small ones, and its counters are exact |
| Snapshot.ThresholdsAgree | src/snapshot.rs:49 | what a save writes out is what the counters call large |
| DigestText.FromStr | src/digest.rs:13-26 | the loop accepts exactly the 71-byte forms, in either letter case |
| DigestText.Display | src/digest.rs:30-36 | the loop prints the lower-case form |
| DigestText.ParsePrint | src/digest.rs:13-36 | parsing inverts printing |
| DigestText.PrintInjective | src/digest.rs:29-36 | distinct digests print differently |
| DigestText.PrintParse | src/digest.rs:13-36 | printing inverts parsing up to letter case |
| DigestText.ParsesIff | src/digest.rs:13-26 | a text is a digest iff it is `sha256:` and 64 hexadecimal digits in either case |
| DigestText.PrintedForm | src/digest.rs:30-36 | a digest prints as `sha256:` and 64 lower-case hexadecimal digits |
| Resp.Reader.ReadHeaderLine | src/redis.rs:313-327 | one CRLF line, clean end, missing newline and bad CRLF told apart |
| Resp.Reader.Read | src/redis.rs:255-302 | one command off the stream, with every error of the framing |
| Resp.Writer.WriteBulk | src/redis.rs:349-353 | appends the bulk string of the argument |
| Resp.ParseDecimal | src/redis.rs:304-309 | every printed length parses back |
| Resp.BulkRoundTrip | src/redis.rs:281-300 | what is written as a bulk string is read back, whatever bytes it holds |
| Resp.CommandRoundTrip | src/redis.rs:255-302 | an encoded command is read back exactly, and nothing after it is consumed |
| Resp.StreamRoundTrip | src/redis.rs:65-68 | a stream of encoded commands is read as exactly those commands up to a clean end |
| Resp.CommandIsLocal | src/redis.rs:255-302 | any command depends only on the bytes it consumes |
| Resp.CommandCutShort | src/redis.rs:255-302 | any command cut short is a premature end, never another command |
| Resp.BulkIsNotNil | src/redis.rs:355-360 | no bulk string, empty or not, looks like the nil reply |
| RespGrammar.LengthIff | src/redis.rs:304-309 | a length is an optional plus sign, zeros and a printed number below 2 to the 64, and nothing else |
| RespGrammar.DecimalHasNoZeros | src/redis.rs:344-356 | numbers are printed without leading zeros |
| RespGrammar.HeaderIff | src/redis.rs:313-327 | a line is read iff it is followed by CRLF and holds no line feed |
| RespGrammar.BulkIff | src/redis.rs:281-300 | a bulk string is read iff a dollar sign, its length, CRLF, its bytes and CRLF come next |
| RespGrammar.ArrayIff | src/redis.rs:255-302 | behind a star, a command is taken iff an array of bulk strings comes next, and exactly that is taken |
| RespGrammar.LineIff | src/redis.rs:260-268 | behind anything else one line is taken: the words the tokenizer finds in it, or none if it is empty |
| RedisServer.HandleConn | src/redis.rs:58-250 | the loop's final state and written bytes, over a whole client stream |
| RedisProtocol.SetSays | src/redis.rs:196-210 | SET in any letter case stores its second argument under its first and is answered `+OK` |
| RedisProtocol.GetSays | src/redis.rs:142-195 | GET is answered with the visible value as a bulk string, or with `$-1`, and changes nothing visible |
| RedisProtocol.DeleteSays | src/redis.rs:211-221 | DEL and UNLINK remove the keys they name and answer how many existed |
| RedisProtocol.ExistsSays | src/redis.rs:222-230 | EXISTS answers how many of its arguments name a key |
| RedisProtocol.FlushSays | src/redis.rs:231-236 | FLUSHDB and FLUSHALL leave nothing and are answered `+OK` |
| RedisProtocol.SizeSays | src/redis.rs:240 | DBSIZE answers the number of keys |
| RedisProtocol.PingSays | src/redis.rs:95-101 | PING echoes its argument or answers `+PONG`, authenticated or not |
| RedisProtocol.QuitSays | src/redis.rs:102-106 | QUIT is answered `+OK` and nothing after it is looked at |
| RedisProtocol.AuthSays | src/redis.rs:110-137 | AUTH authenticates iff its last of one or two arguments is the password; each other case has its own error |
| RedisProtocol.GreetingsSay | src/redis.rs:107-109 | HELLO is refused, COMMAND answers an empty array |
| RedisProtocol.SelectSays | src/redis.rs:237-238 | SELECT and CLIENT are answered `+OK` and ignored |
| RedisProtocol.InfoSays | src/redis.rs:239 | INFO answers an empty string |
| RedisProtocol.ArityFaults | src/redis.rs:142-202 | GET and SET with the wrong number of arguments are errors that change nothing |
| RedisProtocol.UnknownSays | src/redis.rs:241-244 | any other verb is named in the error it is answered with |
| RedisProtocol.EmptyIsSkipped | src/redis.rs:65-68 | an empty line or array is not answered |
| RedisProtocol.CutShortIsIgnored | src/redis.rs:255-302 | a command that is cut short is neither answered nor carried out |
| RedisProtocol.SetThenGet | src/redis.rs:142-210 | a conversation of SET and GET reads `+OK` and the value that was set, in any letter case and from any store |
| RedisProtocol.DeleteThenGet | src/redis.rs:142-221 | a conversation of DEL and GET of a key it names reads the number removed and `$-1` |
| RedisProtocol.FlushThenSize | src/redis.rs:231-240 | a conversation of a flush and DBSIZE reads `+OK` and `:0` |
| RedisProtocol.OthersNeedAuth | src/redis.rs:138-141 | before authentication every command but PING, QUIT, HELLO, COMMAND and AUTH is answered with the NOAUTH line, and the store stays as it is |
| RedisProtocol.NothingWithoutAuth | src/redis.rs:64-141 | whatever bytes a client sends to a server with a password, the store stays exactly as it is until a command authenticates |
| RedisServer.HandleGet | src/redis.rs:142-195 | touch, promotion from disk, and forgetting an entry whose file is gone, with the file read at once |
| RedisServer.HandleGetRead | src/redis.rs:171-188 | what the handler does after a read it waited for, whatever the state has become |
| RedisPromotion.StepKeepsFile | src/redis.rs:171-172 | no event of any kind, eviction passes included, rewrites the file of an on-disk entry: it keeps its bytes until it is removed |
| RedisPromotion.ReadIsOldOrGone | src/redis.rs:171-172 | whatever others do while a GET waits, its read gives the value the key had when it began, or fails, and fails only if the entry has been replaced or removed |
| RedisPromotion.GetLosesUpdateIff | src/redis.rs:164-188 | a waiting GET answers the value from its start or nil and touches no other key; it overwrites or undoes an update exactly if at its end the visible value of the key is not what it read |
| RedisPromotion.UndisturbedGetLosesNothing | src/redis.rs:164-188 | if the key still has the same entry at the end, the GET answers its value and changes nothing visible |
| RedisPromotion.SetIsOverwritten | src/redis.rs:171-174 | from any store, a SET during the wait is overwritten with the old value |
| RedisPromotion.SecondGetForgetsTheKey | src/redis.rs:171-188 | from any store, of two GETs of one on-disk key the later one can remove the key and answer nil, although nobody deleted it |
| RedisFiles.StepKeepsTrack | src/state.rs:305-373 | under every event, eviction passes included, the file of an id a redis value once had belongs to a value, or is about to be removed, or is gone |
| RedisFiles.NoFileIsForgotten | src/state.rs:305-373 | so it stays through any sequence of events of a serving process |
| RedisServer.HandleDelete | src/redis.rs:211-221 | removes the keys in order and counts |
| RedisServer.GetRefines | src/redis.rs:142-195 | a GET answers with the visible value and changes nothing visible |
| RedisServer.DeleteRefines | src/redis.rs:211-221 | DEL answers the number of distinct keys that existed |
| RedisServer.ExistsRefines | src/redis.rs:222-230 | EXISTS counts a key as often as it is named |
| RedisServer.ApplyRefinesPlain | src/redis.rs:142-240 | every request gets the answer of a plain map and leaves the plain map's result visible |
| RedisServer.ConversationRefinesPlain | src/redis.rs:65-250 | a client's whole conversation is, byte for byte, that of a plain map |
| Uploads.PostBlobUpload | src/docker.rs:798-864 | single-shot upload checked against its digest, or a new resumable upload |
| Uploads.PatchBlobUpload | src/docker.rs:868-899 | appends to buffer and hasher alike |
| Uploads.PutBlobUpload | src/docker.rs:903-969 | stores on a match, keeps the extended upload on a mismatch |
| Uploads.DeleteBlobUpload | src/docker.rs:1000-1018 | cancels an upload |
| Uploads.SpawnedFill | src/docker.rs:1219-1290 | caches the streamed body iff the stream did not fail and hashes to the digest |
| Uploads.PutManifestIn | src/docker.rs:742-794 | stores under the body's digest and records the tags |
| Uploads.GetManifestFrom | src/docker.rs:334-436 | resolution, hit with touch and un-flagging, miss, pull-through insertion |
| Uploads.GetBlobFromCache | src/docker.rs:1037-1067 | a hit touches the blob and serves its bytes from either tier; a HEAD is answered without the file, and a GET whose file is missing is an error |
| Uploads.ChunkedIsSingleShot | src/docker.rs:866-969 | however a blob is cut into chunks the result is that of the single-shot upload |
| UploadSessions.UploadIsAcceptedIff | src/docker.rs:796-969 | each chunk is answered with the length so far, and the whole is accepted iff its SHA-256 is the digest named; then it is served with exactly its bytes as an octet stream, and the upload is gone |
| UploadSessions.SingleShotIsAcceptedIff | src/docker.rs:798-864 | the same for a single-shot upload |
| UploadSessions.CancelledIsGone | src/docker.rs:1000-1018 | after a cancel a chunk for the upload and an attempt to finish it are NotFound and change nothing |
| UploadSessions.CancelLeavesOthers | src/docker.rs:1000-1018 | every other upload, however chunked, ends with the response and the store it would have had |
| UploadSessions.FinishedIsGone | src/docker.rs:928-959 | a finished upload can be neither continued nor finished again |
| UploadSessions.MalformedIsRefused | src/docker.rs:868-926 | a request without a well-formed id or digest is refused and changes nothing |
| UploadSessions.FillIsServedIff | src/docker.rs:1219-1290 | a fill is cached and served with its media type iff the stream ended in order and hashes to the digest |
| UploadSessions.PullByDigest | src/docker.rs:334-436 | a request by digest is served from the cache whatever the registry and upstream |
| UploadSessions.PullByLocalTag | src/docker.rs:341-366 | a local tag means what was last recorded for it |
| UploadSessions.PullByRemoteTag | src/docker.rs:341-436 | a remote tag means what upstream says it means now, and the manifest is fetched only if it is not cached |
| Uploads.PutKeeps | src/docker.rs:928-959 | ownership, content addressing and buffer-hasher agreement survive a finalisation |
| Uploads.FillKeeps | src/docker.rs:1256-1289 | the same for a background fill |
| Uploads.HitsServeWhatWasAskedFor | src/docker.rs:1297-1321 | in an owned store the file is never missing, and a cache hit serves bytes that hash to the digest asked for |
| Uploads.PutManifestKeepsTags | src/docker.rs:772-783 | no tag dangles, and a tag that is a digest points at that digest |
| Uploads.PutThenGet | src/docker.rs:740-794 | a pushed manifest is served under its digest, and under the reference iff that is a tag or its digest |
| UploadSessions.PushRecords | src/docker.rs:774-783 | a push records the printed digest of the body, and the reference if it is a tag, both for that digest, and changes no other tag |
| Uploads.PutKeepsManifestsAddressed | src/docker.rs:758-772 | pushed manifests are content-addressed |
| Uploads.PullKeepsManifestsAddressedIff | src/docker.rs:421-433 | a pull keeps manifests content-addressed iff what it stores hashes to the digest |
| Challenge.IterChallengeParams | src/docker.rs:601-643 | the index-driven scanner, loop by loop |
| Challenge.ScanParam | src/docker.rs:605-640 | one parameter, quoted or bare |
| Challenge.ParseBearerChallenge | src/docker.rs:575-597 | the last parameter of each name wins; no realm, no challenge |
| Challenge.SlicesAreSound | src/docker.rs:601-643 | on any string the slices are in range, ordered, disjoint and start and end between characters |
| Challenge.RenderRoundTrip | src/docker.rs:599-643 | any list of lower-case keys with quoted or bare values joined by commas is read back, values raw |
| Challenge.BearerRoundTrip | src/docker.rs:572-597 | a rendered challenge is understood |
| ChallengeEdges.LastOfIff | src/docker.rs:581-597 | the value that counts for a name is that of its last parameter, a name with none has no value (`NoneNamed`) |
| ChallengeEdges.BareParamReads | src/docker.rs:605-640 | a bare parameter is read in any letter case of its key and with blanks behind the key and around the value |
| ChallengeEdges.AnySeparatorsDo | src/docker.rs:605-640 | rendered parameters are read back whatever commas, spaces and tabs stand between them |
| ChallengeEdges.WhiteSpaceIff | src/docker.rs:576-580 | exactly the characters Unicode calls white space are trimmed, at either end |
| ChallengeEdges.OpenQuoteRunsToTheEnd | src/docker.rs:617-632 | a value whose quote is never closed runs to the end |
| ChallengeEdges.NoEqualsNoParams | src/docker.rs:605-614 | a list without an equals sign has no parameters |
| ChallengeEdges.OtherSchemesAreNone | src/docker.rs:575-580 | a challenge starts with `Bearer` or `bearer` |
| ChallengeEdges.EitherSpelling | src/docker.rs:575-597 | with either, and blanks around the list, the list is what counts |
| RunSteps.StepKeepsSound | src/docker.rs:928-959 | every event keeps ownership, content addressing and upload agreement |
| RunSteps.UnlinkKeepsSound | src/state.rs:324-327 | a late unlink takes nothing away that can still be served |
| RunSteps.UnlinkKeepsSave | src/state.rs:324-327 | a late unlink takes nothing away that the snapshot on disk still needs |
| RunSteps.StepKeepsTags | src/eviction.rs:447 | every event keeps tags resolvable and digest tags honest |
| RunSteps.StepKeepsExcess | src/eviction.rs:523-536 | every event keeps the counters at or above the sums, three of them exact |
| Runs.RunsAreGood | src/state.rs:295-373 | all of this in every state of every run, crashes, restarts and cold starts included, and a snapshot that can be loaded is one of the cache as it is |
| Runs.LoadableIffSaved | src/snapshot.rs:328-357 | there is a snapshot to load exactly when the process was shut down in order and nothing but late unlinks has happened since |
| Runs.OnlyLastSaveIsLoaded | src/snapshot.rs:332-333 | no run ever loads a snapshot other than the last one saved, and none twice |
| Runs.ServedBlobsHash | src/docker.rs:1256-1263 | at any time a blob served from the cache hashes to the digest asked for |
| Runs.TagsResolve | src/docker.rs:772-783 | at any time a recorded tag can be pulled |
| Runs.ExactWithoutEviction | src/snapshot.rs:374-451 | over runs without a pass the counters always equal the recomputed usage |
| Runs.ExcessDoesNotAccumulate | src/eviction.rs:523-536 | after any pass of any run the excess is that of this pass alone |
| Runs.EvictShrinksVisible | src/eviction.rs:379-413 | a pass only takes keys away from the visible redis map |
| Runs.GetAnswersLatest | src/redis.rs:142-210 | at any time a GET, taken as one step, gets nil or exactly what its key was last set to, by a SET or by a GET that has waited, if nothing has undone that; and nil iff there is no such value or a pass has taken the key since |
| Runs.MissingIffTaken | src/eviction.rs:379-427 | a key that was set and not undone is missing iff some later pass took it |
| WaitingGets.WaitingGetAnswers | src/redis.rs:171-188 | in any run, with any number of GETs waiting at once, every GET that waited for its file answers the value visible when it began, or nil, and nil only if the entry it found has been replaced or removed since |
| WaitingGets.EndGetLosesUpdateIff | src/redis.rs:173-188 | in any run, the end of such a GET sets its key to what it read or removes it and touches no other; it loses an update exactly if the visible value of the key is not what it read |
| WaitingGets.VisibleWasSet | src/redis.rs:142-210 | in any run, every visible value is one that a client has set for that key |
| Runs.ReferencedBlobsStayCached | src/eviction.rs:328-372 | a referenced blob stays cached for as long as its manifest does, across any number of passes and restarts |

## Left out

- Widths of integers: u32 reference counts and u64/i64 byte counters and ids are unbounded here, so overflow is not modelled; `CachePathInjective` is the one place the width matters.
- I/O failures: a failed write in a pass or a save aborts it half-way; every write is taken to succeed. A file that is missing when a GET or a load looks for it is modelled, and so is a snapshot that is damaged or lost.
- Concurrency inside `evict`, `flush_redis` and the upload handlers: each is one atomic step. In particular two concurrent finalisations of one upload are not modelled; the first takes the buffer but leaves the hasher as it is (src/docker.rs:945-949).
- The order of two equal touch times, and the array heap of `BinaryHeap`: a pop takes any oldest candidate.
- Order of JSON members: the library's object type decides in which order members are walked; the model takes an object's members in that order, whatever it is.
- EvictionUsage.PublishedExactIff: where a pass does drop entries, which ones it drops depends on how ties between equal touch times fall, so the condition speaks of what it dropped and swept.
- EvictionPass.Evict: metrics counters and log lines are not modelled.
- Resp.Reader.Read: inline commands are split by a library function; a length that cannot be allocated is not an error here.
- RedisServer.HandleGet: the read of an on-disk value is taken as part of one step, although the code waits for it; `HandleGetRead` and `RedisPromotion` take the two apart.
- Runs.GetAnswersLatest: the GET it speaks of is one step; those that wait are events of the run, and `WaitingGetAnswers` says what they answer.
- RedisServer.HandleConn: what other connections do between two commands of one client is covered by `Runs`, not by this contract.
- Uploads.GetManifestFrom: response headers and the Accept header sent upstream are not modelled; neither are range headers and routing of uploads.
- Orphan files: replacing an on-disk blob does not remove its old file, so only "a live entry has its file" is a theorem.
- CBOR, SHA-256, JSON and UTF-8 decoding: library code, taken as the identity or as a parameter.
- Listeners, TLS, command line, logging, metrics text, upstream authentication, `Size` parsing, host validation: plumbing that would add only easy members.
