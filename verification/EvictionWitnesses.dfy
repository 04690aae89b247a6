/** Concrete stores on which a pass does what its comments do not say. */
module EvictionWitnesses {
  import opened Prelude
  import opened DigestText
  import opened UsageSums
  import opened References
  import opened Cache
  import opened EvictionMachine
  import opened EvictionStore
  import opened EvictionHeaps
  import opened EvictionTheorems
  import opened EvictionPhases
  import opened EvictionBudgets
  import opened EvictionGauges
  import opened EvictionExactGauges
  import opened EvictionUsage
  import CacheState
  import EvictionInvariant
  import EvictionPass

  const BLOB: Digest := Digest(seq(32, _ => 1))
  const MANIFEST: Digest := Digest(seq(32, _ => 2))

  /** Every body is a descriptor of `BLOB`. */
  const LIB: Library := Library(_ => BLOB, _ => Some(Descriptor(BLOB)))

  lemma BodiesReferToBlob(content: Bytes)
    ensures ReferencedDigests(LIB, content) == [BLOB]
  {
    DescriptorWalk(BLOB);
    hide Walked;
  }

  // ---- Sums of small stores

  lemma ManifestCounts(s: Store, d: Digest)
    requires d in s.manifests
    ensures s.Recomputed().Small() >= |s.manifests[d].content|
  {
    hide MapOf, Total, ManifestCharges, BlobCharges, RedisCharges;
    BucketsAreSeparate(s);
    TotalTake(ManifestCharges(s.manifests), d);
    OthersNotNegative(ManifestCharges(s.manifests), d);
  }

  lemma BlobOnDiskCounts(s: Store, r: Digest)
    requires r in s.blobs && s.blobs[r].OnDisk?
    ensures s.Recomputed().TotalDisk() >= s.blobs[r].size
  {
    hide MapOf, Total, ManifestCharges, BlobCharges, RedisCharges;
    BucketsAreSeparate(s);
    TotalTake(BlobCharges(s.blobs), r);
    OthersNotNegative(BlobCharges(s.blobs), r);
  }

  lemma OthersNotNegative<K>(m: map<K, Usage>, k: K)
    requires k in m && forall j :: j in m ==> ZERO.AtMost(m[j])
    ensures ZERO.AtMost(Total(m - {k}))
  {
    TotalZeroIff(m - {k});
  }

  lemma OneManifest(s: Store, d: Digest, m: Manifest)
    requires s.manifests == map[d := m]
    ensures Total(ManifestCharges(s.manifests)) == ManifestCharge(m)
  {
    hide MapOf, Total, ManifestCharge;
    TotalOfOne(ManifestCharges(s.manifests), d, ManifestCharge(m));
  }

  lemma OneBlob(s: Store, d: Digest, b: Blob)
    requires s.blobs == map[d := b]
    ensures Total(BlobCharges(s.blobs)) == BlobCharge(b)
  {
    hide MapOf, Total, BlobCharge;
    TotalOfOne(BlobCharges(s.blobs), d, BlobCharge(b));
  }

  lemma OneEntry(s: Store, k: Bytes, e: RedisEntry)
    requires s.redis == map[k := e]
    ensures Total(RedisCharges(s.redis)) == RedisCharge(k, e)
  {
    hide MapOf, Total, RedisCharge;
    TotalOfOne(RedisCharges(s.redis), k, RedisCharge(k, e));
  }

  lemma UsageIs(s: Store, m: Usage, b: Usage, r: Usage)
    requires Total(ManifestCharges(s.manifests)) == m && Total(BlobCharges(s.blobs)) == b
    requires Total(RedisCharges(s.redis)) == r
    ensures s.Recomputed() == Usage(m.manifestMemory, b.smallBlobMemory, b.largeBlobMemory, r.smallRedisMemory,
                                    r.largeRedisMemory, b.blobDisk, r.redisDisk)
  {
    hide Total, ManifestCharges, BlobCharges, RedisCharges;
  }

  lemma ManifestCosts(s: Store, d: Digest, m: Manifest)
    requires s.manifests == map[d := m]
    ensures Total(ManifestCharges(s.manifests)) == Usage(|m.content|, 0, 0, 0, 0, 0, 0)
  {
    hide MapOf, Total;
    OneManifest(s, d, m);
  }

  lemma FileCosts(s: Store, r: Digest, b: Blob)
    requires s.blobs == map[r := b] && b.OnDisk?
    ensures Total(BlobCharges(s.blobs)) == Usage(0, 0, 0, 0, 0, b.size, 0)
  {
    hide MapOf, Total;
    OneBlob(s, r, b);
  }

  lemma SmallBlobCosts(s: Store, r: Digest, b: Blob)
    requires s.blobs == map[r := b] && b.InMemory? && |b.content| == 1
    ensures Total(BlobCharges(s.blobs)) == Usage(0, 1, 0, 0, 0, 0, 0)
  {
    hide MapOf, Total;
    OneBlob(s, r, b);
  }

  lemma KeyCosts(s: Store, k: Bytes, e: RedisEntry)
    requires s.redis == map[k := e] && e.InMemory? && e.value == []
    ensures Total(RedisCharges(s.redis)) == Usage(0, 0, 0, |k|, 0, 0, 0)
  {
    hide MapOf, Total;
    OneEntry(s, k, e);
  }

  // ---- A stale gauge

  /** One manifest, last used at 7, whose only blob is on disk and new. */
  const STALE: Store := Empty(100).(
    manifests := map[MANIFEST := Manifest([1], [], 7, false)],
    blobs := map[BLOB := Blob.OnDisk(0, 1, [], 100)],
    disk := map[0 := [9]], nextId := 1)

  /** Room for everything in memory and for nothing on disk. */
  const NO_DISK: Config := Config(1000, Some(1000), 0)

  lemma StaleUsage()
    ensures STALE.Recomputed() == Usage(1, 0, 0, 0, 0, 1, 0)
  {
    hide Total, ManifestCharges, BlobCharges, RedisCharges, Store.Recomputed;
    ManifestCosts(STALE, MANIFEST, Manifest([1], [], 7, false));
    FileCosts(STALE, BLOB, Blob.OnDisk(0, 1, [], 100));
    CacheState.NoRedis(STALE.redis);
    UsageIs(STALE, Usage(1, 0, 0, 0, 0, 0, 0), Usage(0, 0, 0, 0, 0, 1, 0), ZERO);
  }

  lemma StaleIsOwned()
    ensures STALE.Owned()
  {
    assert STALE.FilesPresent();
    hide Store.FilesPresent;
  }

  lemma StaleBlobStays(events: seq<Event>, states: seq<Machine>, s1: Store)
    requires STALE.Owned() && IsPass(LIB, NO_DISK, STALE, events, states, s1)
    ensures BLOB in s1.blobs && s1.blobs[BLOB] == STALE.blobs[BLOB] && ManifestsEvolved(STALE, s1)
    ensures s1.redis == map[] && s1.now == 100
  {
    hide IsPass, RefersTo, Store.Owned, Store.BlobBytes, Store.RedisValue;
    SurvivesIff(LIB, NO_DISK, STALE, events, states, s1, BLOB);
    PassEvolves(LIB, NO_DISK, STALE, events, states, s1);
  }

  lemma StaleManifestGoes(events: seq<Event>, states: seq<Machine>, s1: Store)
    requires STALE.Owned() && IsPass(LIB, NO_DISK, STALE, events, states, s1)
    ensures s1.manifests == map[]
  {
    hide IsPass, Store.Owned, Store.Recomputed, MemoryBudgetMet, SmallBudgetMet, Stray, SpilledForFlagged;
    hide ReferencedDigests;
    StaleBlobStays(events, states, s1);
    BlobOnDiskCounts(s1, BLOB);
    BudgetsMet(LIB, NO_DISK, STALE, events, states, s1);
    BodiesReferToBlob([1]);
    assert TierOf(STALE.blobs[BLOB]) == Disk;
    assert RefersToTier(LIB, STALE, MANIFEST, Disk);
    assert MANIFEST !in s1.manifests;
    assert s1.manifests.Keys == {};
  }

  lemma StaleHeapUntouched(events: seq<Event>, states: seq<Machine>)
    requires STALE.Owned() && IsTrace(LIB, NO_DISK, STALE, events, states)
    ensures |states| == |events| + 1 && states[|events|].small == multiset(SmallCandidates(STALE))
  {
    hide IsTrace, Store.Owned, Store.Recomputed, SmallCandidates;
    StaleUsage();
    forall i | 0 <= i < |events| ensures !events[i].PopSmall? {
      WithinSmallMeansNoSmallPops(LIB, NO_DISK, STALE, events, states, i);
    }
    SmallHeapUntouched(LIB, NO_DISK, STALE, events, states, |events|);
    TraceLength(LIB, NO_DISK, STALE, events, states);
  }

  /** Every pass over this store empties the small pool through the disk heap and
      still publishes 7, the time of the manifest that is gone, for its oldest item. */
  lemma {:induction false} StaleSmallGauge(events: seq<Event>, states: seq<Machine>, s1: Store, t: nat)
    requires IsPass(LIB, NO_DISK, STALE, events, states, s1)
    requires PublishedOldest(states[|events|].small, s1.now, t)
    ensures s1.manifests == map[] && s1.redis == map[] && s1.now == 100 && t == 7
  {
    hide IsPass, IsTrace, Store.Owned, Store.Recomputed, Oldest, SmallCandidates, ManifestsEvolved;
    StaleIsOwned();
    StaleBlobStays(events, states, s1);
    StaleManifestGoes(events, states, s1);
    PassIsTrace(LIB, NO_DISK, STALE, events, states, s1);
    StaleHeapUntouched(events, states);
    OnlyStaleCandidate();
  }

  lemma OnlyStaleCandidate()
    ensures multiset(SmallCandidates(STALE)) != multiset{}
    ensures forall c :: c in multiset(SmallCandidates(STALE)) ==> c.lastAccessed == 7
  {
    var c := ManifestCandidate(7, MANIFEST);
    assert c == CandidateOf(STALE, MANIFEST);
    assert c in SmallCandidates(STALE);
    assert c in multiset(SmallCandidates(STALE));
  }

  // ---- Inexact usage

  /** One blob of one byte that nothing refers to, as old as the grace window. */
  const UNREFERENCED: Store := Empty(BLOB_GRACE_SECONDS).(
    blobs := map[BLOB := Blob.InMemory(0, [5], [], 0)], nextId := 1, counters := Usage(0, 1, 0, 0, 0, 0, 0))

  const ROOMY: Config := Config(1000, Some(1000), 1000)

  lemma UnreferencedUsage()
    ensures UNREFERENCED.Recomputed() == Usage(0, 1, 0, 0, 0, 0, 0) && UNREFERENCED.Exact()
  {
    hide Total, ManifestCharges, BlobCharges, RedisCharges, Store.Recomputed;
    CacheState.NoManifests(UNREFERENCED.manifests);
    SmallBlobCosts(UNREFERENCED, BLOB, Blob.InMemory(0, [5], [], 0));
    CacheState.NoRedis(UNREFERENCED.redis);
    UsageIs(UNREFERENCED, ZERO, Usage(0, 1, 0, 0, 0, 0, 0), ZERO);
  }

  lemma UnreferencedIsOwned()
    ensures UNREFERENCED.Owned()
  {
    assert UNREFERENCED.FilesPresent();
    hide Store.FilesPresent;
  }

  /** Within all targets and with exact counters before, every pass over this store
      leaves counters that are not. */
  lemma {:induction false} SweepLeavesInexactUsage(events: seq<Event>, states: seq<Machine>, s1: Store)
    requires IsPass(LIB, ROOMY, UNREFERENCED, events, states, s1)
    ensures UNREFERENCED.Exact() && !s1.Exact()
  {
    hide IsPass, Store.Owned, Store.Recomputed;
    UnreferencedUsage();
    UnreferencedIsOwned();
    PublishedExactIffNothingToSweep(LIB, ROOMY, UNREFERENCED, events, states, s1);
    assert SweepExpired(UNREFERENCED.now, UNREFERENCED.blobs[BLOB].lastAccessed);
    assert !RefersTo(LIB, UNREFERENCED.manifests, BLOB);
  }

  // ---- A key that outweighs the budget

  /** A key of ten bytes. */
  const NAME: Bytes := seq(10, _ => 65)

  /** An empty redis value under a long key, and a manifest of one byte that is newer. */
  const LONG_KEY: Store := Empty(100).(
    manifests := map[MANIFEST := Manifest([1], [], 5, false)],
    redis := map[NAME := RedisEntry.InMemory(0, [], 1)], nextId := 1, counters := Usage(1, 0, 0, 10, 0, 0, 0))

  /** Eight bytes for small items. */
  const EIGHT: Config := Config(1000, Some(10), 1000)

  lemma LongKeyUsage()
    ensures LONG_KEY.Recomputed() == Usage(1, 0, 0, 10, 0, 0, 0) && LONG_KEY.Exact()
  {
    hide Total, ManifestCharges, BlobCharges, RedisCharges, Store.Recomputed;
    ManifestCosts(LONG_KEY, MANIFEST, Manifest([1], [], 5, false));
    CacheState.NoBlobs(LONG_KEY.blobs);
    KeyCosts(LONG_KEY, NAME, RedisEntry.InMemory(0, [], 1));
    UsageIs(LONG_KEY, Usage(1, 0, 0, 0, 0, 0, 0), ZERO, Usage(0, 0, 0, 10, 0, 0, 0));
  }

  lemma LongKeyIsOwned()
    ensures LONG_KEY.Owned()
  {
    assert LONG_KEY.FilesPresent();
    hide Store.FilesPresent;
  }

  lemma KeyIsOldest(s: Store, k: Bytes, e: RedisEntry, d: Digest, m: Manifest)
    requires s.redis == map[k := e] && s.manifests == map[d := m] && e.InMemory? && e.value == []
    requires k != [] && e.lastAccessed < m.lastUsed
    ensures SmallCandidates(s) != {}
    ensures forall c :: Oldest(multiset(SmallCandidates(s)), c) ==> c.RedisCandidate? && c.key != []
  {
    var x := RedisCandidateOf(s, k);
    assert x in SmallCandidates(s);
    assert x in multiset(SmallCandidates(s));
  }

  /** This store loses its key to a pass, so its counters do not stay exact. */
  lemma LongKeyIsDropped()
    ensures LONG_KEY.Owned() && LONG_KEY.Exact() && DropsAKey(EIGHT, LONG_KEY)
  {
    hide Store.Owned, Store.Exact, Store.Recomputed, SmallCandidates, Oldest;
    LongKeyUsage();
    LongKeyIsOwned();
    KeyIsOldest(LONG_KEY, NAME, RedisEntry.InMemory(0, [], 1), MANIFEST, Manifest([1], [], 5, false));
  }

  lemma WithoutKey(s: Store, k: Bytes, e: RedisEntry, d: Digest, m: Manifest)
    requires s.redis == map[k := e] && s.manifests == map[d := m] && s.blobs == map[] && |m.content| == 1
    ensures s.RemoveRedis(k).Recomputed().Small() == 1
  {
    hide Total, ManifestCharges, BlobCharges, RedisCharges, Store.Recomputed, RedisCharge;
    var s' := s.RemoveRedis(k);
    assert s'.redis == map[];
    ManifestCosts(s', d, m);
    CacheState.NoBlobs(s'.blobs);
    CacheState.NoRedis(s'.redis);
    UsageIs(s', Usage(1, 0, 0, 0, 0, 0, 0), ZERO, ZERO);
  }

  lemma OneKeyBytes(s: Store, k: Bytes, e: RedisEntry)
    requires s.redis == map[k := e]
    ensures KeyBytes(s) == |k|
  {
    hide MapOf, Total;
    var charges := EvictionInvariant.KeyCharges(s.redis.Keys);
    assert charges == map[k := KeyCharge(k)];
    TotalOfOne(charges, k, KeyCharge(k));
  }

  /** Dropping the one redis entry would bring this store within its small target;
      every pass drops the manifest as well. */
  lemma {:induction false} OneDropWouldDo(events: seq<Event>, states: seq<Machine>, s1: Store)
    requires IsPass(LIB, EIGHT, LONG_KEY, events, states, s1)
    ensures LONG_KEY.RemoveRedis(NAME).Recomputed().Small() <= EIGHT.SmallTarget()
    ensures MANIFEST in LONG_KEY.manifests && s1.manifests == map[] && s1.redis == map[]
  {
    hide IsPass, Store.Owned, Store.Recomputed, KeyBytes, Store.RemoveRedis, RedisValueBucket;
    LongKeyIsOwned();
    WithoutKey(LONG_KEY, NAME, RedisEntry.InMemory(0, [], 1), MANIFEST, Manifest([1], [], 5, false));
    OneKeyBytes(LONG_KEY, NAME, RedisEntry.InMemory(0, [], 1));
    KeysAloneDriveEverythingOut(LIB, EIGHT, LONG_KEY, events, states, s1);
    LongKeyIsDropped();
    FirstStaysGone(LIB, EIGHT, LONG_KEY, events, states, s1);
    KeysStay(LIB, EIGHT, LONG_KEY, events, states, s1);
    assert NAME !in s1.redis;
  }

  // ---- The cascade before the clock has reached the grace period

  const NO_ROOM: Config := Config(0, Some(0), 0)

  /** One manifest and its blob, last used at time zero, ten seconds into the epoch. */
  const EARLY: Store := Empty(10).(
    manifests := map[MANIFEST := Manifest([1], [], 0, false)],
    blobs := map[BLOB := Blob.InMemory(0, [5], [], 0)], nextId := 1)

  /** Every pass over this store deletes a blob that the sweep's test calls fresh. */
  lemma {:induction false} EarlyCascadeDeletesFreshBlob(events: seq<Event>, states: seq<Machine>, s1: Store)
    requires IsPass(LIB, NO_ROOM, EARLY, events, states, s1)
    ensures BLOB !in s1.blobs && !SweepExpired(EARLY.now, EARLY.blobs[BLOB].lastAccessed)
  {
    hide IsPass, Store.Owned, Store.Recomputed, MemoryBudgetMet, DiskBudgetMet, Stray, ReferencedDigests;
    hide BlobsEvolved, RedisEvolved, TagsFollow, UnlinksExplained;
    EarlyIsOwned();
    BudgetsMet(LIB, NO_ROOM, EARLY, events, states, s1);
    if MANIFEST in s1.manifests {
      ManifestCounts(s1, MANIFEST);
    }
    assert s1.manifests == map[] by { assert s1.manifests.Keys == {}; }
    BodiesReferToBlob([1]);
    assert RefersTo(LIB, EARLY.manifests, BLOB);
    assert !RefersTo(LIB, s1.manifests, BLOB);
    SurvivesIff(LIB, NO_ROOM, EARLY, events, states, s1, BLOB);
  }

  lemma EarlyIsOwned()
    ensures EARLY.Owned()
  {
    assert EARLY.FilesPresent();
    hide Store.FilesPresent;
  }

  /** Each of the four stores has a pass, so none of these results is about nothing. */
  lemma {:induction false} WitnessPassesExist()
    ensures exists events, states, s1 :: IsPass(LIB, NO_DISK, STALE, events, states, s1)
    ensures exists events, states, s1 :: IsPass(LIB, ROOMY, UNREFERENCED, events, states, s1)
    ensures exists events, states, s1 :: IsPass(LIB, EIGHT, LONG_KEY, events, states, s1)
    ensures exists events, states, s1 :: IsPass(LIB, NO_ROOM, EARLY, events, states, s1)
  {
    hide IsPass, Store.Owned;
    StaleIsOwned();
    UnreferencedIsOwned();
    LongKeyIsOwned();
    EarlyIsOwned();
    EvictionPass.PassExists(LIB, NO_DISK, STALE);
    EvictionPass.PassExists(LIB, ROOMY, UNREFERENCED);
    EvictionPass.PassExists(LIB, EIGHT, LONG_KEY);
    EvictionPass.PassExists(LIB, NO_ROOM, EARLY);
  }
}
