/** The touch times a pass publishes for its three pools, against what is in the
    cache when it ends. */
module EvictionGauges {
  import opened Prelude
  import opened DigestText
  import opened UsageSums
  import opened References
  import opened Cache
  import opened EvictionMachine
  import opened EvictionStore
  import opened EvictionInvariant
  import opened EvictionHeaps
  import opened EvictionTheorems
  import opened EvictionPhases
  import opened EvictionBudgets

  /** What is published as the oldest touch time of a pool: the oldest candidate
      left in its heap, or the clock when none is. */
  predicate PublishedOldest(heap: multiset<Candidate>, now: nat, t: nat) {
    if heap == multiset{} then t == now else exists c :: c in heap && Oldest(heap, c) && t == c.lastAccessed
  }

  lemma OldestBelow(heap: multiset<Candidate>, now: nat, t: nat, c: Candidate)
    requires PublishedOldest(heap, now, t) && c in heap
    ensures t <= c.lastAccessed
  {}

  // ---- The live items of a store

  /** An item of the small pool: a manifest, or a small redis value. */
  predicate LiveSmall(s: Store, x: Candidate) {
    Describes(s, x) && (x.RedisCandidate? ==> RedisValueBucket(s.redis[x.key]).0 == SmallRedisMemory)
  }

  /** `d` refers to the large blob `r`, which is in memory. */
  predicate HoldsLarge(lib: Library, s: Store, d: Digest, r: Digest) {
    && d in s.manifests && r in ReferencedDigests(lib, s.manifests[d].content)
    && r in s.blobs && IsLargeInMemory(s.blobs[r])
  }

  /** Memory pressure can still act on the large blob `r` through `d`: flag `d`, or
      spill `r` because no unflagged manifest holds it. */
  predicate Pending(lib: Library, s: Store, d: Digest, r: Digest) {
    HoldsLarge(lib, s, d, r) && (s.manifests[d].evicted ==> !RefersTo(lib, Unevicted(s.manifests), r))
  }

  /** An item of the large pool: a large redis value in memory, or a manifest through
      which memory pressure can still act on a large blob. */
  ghost predicate LiveLarge(lib: Library, s: Store, x: Candidate) {
    && Describes(s, x)
    && match x
       case ManifestCandidate(_, d) => exists r :: Pending(lib, s, d, r)
       case RedisCandidate(_, k, _) => RedisValueBucket(s.redis[k]).0 == LargeRedisMemory
  }

  /** An item of the disk pool: a redis value on disk, or a manifest that refers to a
      blob on disk. */
  ghost predicate LiveOnDisk(lib: Library, s: Store, x: Candidate) {
    && Describes(s, x)
    && match x
       case ManifestCandidate(_, d) => RefersToTier(lib, s, d, Disk)
       case RedisCandidate(_, k, _) => s.redis[k].OnDisk?
  }

  /** `t` is the touch time of some live item. */
  ghost predicate TimeOfLive(live: Candidate -> bool, t: nat) {
    exists x :: live(x) && x.lastAccessed == t
  }

  /** What a gauge is for: the oldest touch time among the live items, or the clock
      when there is none. */
  ghost predicate OldestLive(live: Candidate -> bool, now: nat, t: nat) {
    if exists x :: live(x) then
      TimeOfLive(live, t) && forall x :: live(x) ==> t <= x.lastAccessed
    else
      t == now
  }

  // ---- What is known at every point of a pass

  ghost predicate PassFacts(lib: Library, s0: Store, m: Machine) {
    && Inv(lib, s0, m) && ManifestsEvolved(s0, m.s)
    && LargeOrDisk(lib, s0, m) && SpilledAreFlagged(lib, s0, m.s)
  }

  lemma TraceFacts(lib: Library, cfg: Config, s0: Store, events: seq<Event>, states: seq<Machine>, n: nat)
    requires s0.Owned() && IsTrace(lib, cfg, s0, events, states) && n <= |events|
    ensures |states| == |events| + 1 && PassFacts(lib, s0, states[n])
  {
    hide Store.Owned, IsTrace, Inv, ManifestsEvolved, LargeOrDisk, SpilledAreFlagged;
    TraceLength(lib, cfg, s0, events, states);
    TraceInv(lib, cfg, s0, events, states, n);
    InvManifests(lib, s0, states[n]);
    DiskFacts(lib, cfg, s0, events, states, n);
  }

  lemma Facts(lib: Library, s0: Store, m: Machine)
    requires PassFacts(lib, s0, m)
    ensures Inv(lib, s0, m) && ManifestsEvolved(s0, m.s) && BlobsEvolved(s0, m.s) && RedisEvolved(s0, m.s)
    ensures LargeOrDisk(lib, s0, m) && SpilledAreFlagged(lib, s0, m.s) && DeletedRightly(lib, s0, m.s)
    ensures SmallHeapOk(s0, m.s, m.small) && LargeHeapOk(lib, s0, m.s, m.large) && DiskHeapOk(lib, s0, m.s, m.disk)
  {
    InvParts(lib, s0, m);
    hide Inv, ManifestsEvolved, BlobsEvolved, RedisEvolved, LargeOrDisk, SpilledAreFlagged, DeletedRightly;
    hide SmallHeapOk, LargeHeapOk, DiskHeapOk, BkStable, RefsExact, AccExact;
  }

  /** An item that is still cached has kept its touch time and its size. */
  lemma SameDescription(s0: Store, s: Store, x: Candidate)
    requires ManifestsEvolved(s0, s) && RedisEvolved(s0, s)
    ensures Describes(s, x) ==> Describes(s0, x)
    ensures Describes(s0, x) && Cached(s, x) ==> Describes(s, x)
  {
    hide Store.RedisValue;
  }

  /** The candidates of the large heap are items of the large pool of `s0`. */
  lemma LargeItem(lib: Library, s0: Store, c: Candidate)
    requires c in LargeCandidates(lib, s0)
    ensures Describes(s0, c)
    ensures c.ManifestCandidate? ==> RefersToTier(lib, s0, c.digest, LargeMem)
    ensures c.RedisCandidate? ==> RedisValueBucket(s0.redis[c.key]).0 == LargeRedisMemory
  {
    hide RefersToTier;
  }

  /** A large blob of an unflagged manifest neither goes to disk nor away. */
  lemma LargeBlobStays(lib: Library, s0: Store, m: Machine, d: Digest, r: Digest)
    requires PassFacts(lib, s0, m) && d in m.s.manifests && HoldsLarge(lib, s0, d, r)
    requires RefersTo(lib, Unevicted(m.s.manifests), r)
    ensures HoldsLarge(lib, m.s, d, r)
  {
    hide Inv, ReferencedDigests, RefersTo, RefCount, IsLargeInMemory, Store.BlobBytes, LargeOrDisk, RedisEvolved;
    hide SmallHeapOk, LargeHeapOk, DiskHeapOk, PassFacts, Unevicted;
    Facts(lib, s0, m);
    assert RefersTo(lib, m.s.manifests, r) by { Refers(lib, m.s.manifests, d, r); }
    RefersToIffCounted(lib, m.s.manifests, r);
    LargeIsInMemory(s0.blobs[r]);
  }

  lemma LargeIsInMemory(b: Blob)
    requires IsLargeInMemory(b)
    ensures b.InMemory? && TierOf(b) == LargeMem
  {}

  lemma Refers(lib: Library, ms: map<Digest, Manifest>, d: Digest, r: Digest)
    requires d in ms && r in ReferencedDigests(lib, ms[d].content)
    ensures RefersTo(lib, ms, r)
    ensures !ms[d].evicted ==> RefersTo(lib, Unevicted(ms), r)
  {
    hide ReferencedDigests;
    assert !ms[d].evicted ==> d in Unevicted(ms);
  }

  lemma LargeBlobOf(lib: Library, s0: Store, d: Digest) returns (r: Digest)
    requires d in s0.manifests && RefersToTier(lib, s0, d, LargeMem)
    ensures HoldsLarge(lib, s0, d, r)
  {
    hide ReferencedDigests;
    r :| r in ReferencedDigests(lib, s0.manifests[d].content) && r in s0.blobs && TierOf(s0.blobs[r]) == LargeMem;
  }

  /** An unflagged item of the large pool is live for as long as it is cached. */
  lemma UnflaggedIsLive(lib: Library, s0: Store, m: Machine, x: Candidate)
    requires PassFacts(lib, s0, m) && x in LargeCandidates(lib, s0) && !Settled(m.s, x)
    ensures LiveLarge(lib, m.s, x)
  {
    hide PassFacts, Inv, LargeCandidates, RefersToTier, LargeOrDisk, SpilledAreFlagged, DeletedRightly, HoldsLarge;
    hide SmallHeapOk, LargeHeapOk, DiskHeapOk, BlobsEvolved, Unevicted, RefersTo;
    Facts(lib, s0, m);
    LargeItem(lib, s0, x);
    SameDescription(s0, m.s, x);
    match x {
      case ManifestCandidate(_, d) =>
        var r := LargeBlobOf(lib, s0, d);
        UnflaggedHolds(lib, s0, m, d, r);
        assert Pending(lib, m.s, d, r);
      case RedisCandidate(_, k, _) => StillLarge(s0, m.s, k);
    }
  }

  lemma UnflaggedHolds(lib: Library, s0: Store, m: Machine, d: Digest, r: Digest)
    requires PassFacts(lib, s0, m) && d in m.s.manifests && !m.s.manifests[d].evicted && HoldsLarge(lib, s0, d, r)
    ensures HoldsLarge(lib, m.s, d, r)
  {
    hide PassFacts, Inv, ReferencedDigests, LargeOrDisk, SpilledAreFlagged, DeletedRightly, IsLargeInMemory;
    hide SmallHeapOk, LargeHeapOk, DiskHeapOk, BlobsEvolved, RedisEvolved, Unevicted, RefersTo;
    Facts(lib, s0, m);
    Refers(lib, m.s.manifests, d, r);
    LargeBlobStays(lib, s0, m, d, r);
  }

  lemma StillLarge(s0: Store, s: Store, k: Bytes)
    requires RedisEvolved(s0, s) && k in s.redis && s.redis[k].InMemory?
    ensures RedisValueBucket(s.redis[k]) == RedisValueBucket(s0.redis[k])
  {
    hide Store.RedisValue;
  }

  // ---- The closing sweep changes no pool

  lemma SweepKeepsReferenced(lib: Library, s0: Store, m: Machine, d: Digest, r: Digest)
    requires Inv(lib, s0, m) && d in m.s.manifests && r in ReferencedDigests(lib, m.s.manifests[d].content)
    ensures r in Finish(m).blobs <==> r in m.s.blobs
  {
    hide Inv, ReferencedDigests, RefersTo, SweepExpired, Finish, BkStable, RefsExact, DeletedRightly, AccExact;
    hide RedisEvolved, SmallHeapOk, LargeHeapOk, DiskHeapOk, Store.BlobBytes;
    InvParts(lib, s0, m);
    Refers(lib, m.s.manifests, d, r);
    if r in m.s.blobs {
      FinishSweeps(lib, s0, m, r);
    } else {
      SweepOnlyRemoves(m);
    }
  }

  lemma SweepOnlyRemoves(m: Machine)
    ensures Finish(m).manifests == m.s.manifests && Finish(m).redis == m.s.redis
    ensures forall r :: r in Finish(m).blobs ==> r in m.s.blobs && Finish(m).blobs[r] == m.s.blobs[r]
  {
    hide BlobTotal, ToSweep;
  }

  lemma SameTier(lib: Library, s: Store, s': Store, d: Digest, tier: BlobTier)
    requires d in s.manifests && s'.manifests == s.manifests
    requires forall r :: r in ReferencedDigests(lib, s.manifests[d].content) ==>
      (r in s'.blobs <==> r in s.blobs) && (r in s.blobs ==> s'.blobs[r] == s.blobs[r])
    ensures RefersToTier(lib, s', d, tier) <==> RefersToTier(lib, s, d, tier)
    ensures forall r :: Pending(lib, s', d, r) <==> Pending(lib, s, d, r)
  {
    hide ReferencedDigests, RefersTo, IsLargeInMemory, Unevicted;
  }

  /** What is live after the sweep is what was live before it. */
  lemma SameLive(lib: Library, s0: Store, m: Machine, x: Candidate)
    requires Inv(lib, s0, m)
    ensures LiveSmall(Finish(m), x) <==> LiveSmall(m.s, x)
    ensures LiveLarge(lib, Finish(m), x) <==> LiveLarge(lib, m.s, x)
    ensures LiveOnDisk(lib, Finish(m), x) <==> LiveOnDisk(lib, m.s, x)
  {
    hide Inv, Finish, Pending, RefersToTier, ReferencedDigests, RedisValueBucket;
    SweepOnlyRemoves(m);
    if x.ManifestCandidate? && x.digest in m.s.manifests {
      forall r | r in ReferencedDigests(lib, m.s.manifests[x.digest].content)
        ensures r in Finish(m).blobs <==> r in m.s.blobs
      {
        SweepKeepsReferenced(lib, s0, m, x.digest, r);
      }
      SameTier(lib, m.s, Finish(m), x.digest, Disk);
    }
  }

  // ---- Where the live items are when the loop ends

  lemma LiveSmallIsHeld(lib: Library, s0: Store, m: Machine, x: Candidate)
    requires PassFacts(lib, s0, m) && LiveSmall(m.s, x)
    ensures x in m.small
  {
    hide PassFacts, Inv, LargeOrDisk, SpilledAreFlagged, DeletedRightly, LargeHeapOk, DiskHeapOk, BlobsEvolved;
    hide Store.RedisValue;
    Facts(lib, s0, m);
    SameDescription(s0, m.s, x);
    assert Cached(m.s, x) && x in SmallCandidates(s0);
  }

  /** A live item of the large pool is on the large heap, or it is a flagged manifest
      on the disk heap. */
  lemma LiveLargeIsHeld(lib: Library, s0: Store, m: Machine, x: Candidate)
    requires PassFacts(lib, s0, m) && LiveLarge(lib, m.s, x)
    ensures x in LargeCandidates(lib, s0)
    ensures x in m.large || (x.ManifestCandidate? && m.s.manifests[x.digest].evicted && x in m.disk)
  {
    hide PassFacts, Inv, SpilledAreFlagged, DeletedRightly, SmallHeapOk, DiskHeapOk, Store.RedisValue;
    hide ReferencedDigests, IsLargeInMemory, RefersTo, Unevicted, Store.BlobBytes, LargeCandidates;
    Facts(lib, s0, m);
    SameDescription(s0, m.s, x);
    match x {
      case ManifestCandidate(_, d) =>
        var r :| Pending(lib, m.s, d, r);
        ReferrerIsCandidate(lib, s0, m.s, d, r);
      case RedisCandidate(_, k, _) => LargeValueItem(lib, s0, m.s, k);
    }
  }

  lemma LargeValueItem(lib: Library, s0: Store, s: Store, k: Bytes)
    requires RedisEvolved(s0, s) && k in s.redis && RedisValueBucket(s.redis[k]).0 == LargeRedisMemory
    ensures RedisCandidateOf(s0, k) in LargeCandidates(lib, s0)
  {
    hide Store.RedisValue, RefersToTier;
  }

  /** A live item of the disk pool is on the disk heap, or it is a manifest that was
      flagged before the pass and is still on the large heap. */
  lemma LiveOnDiskIsHeld(lib: Library, s0: Store, m: Machine, x: Candidate)
    requires PassFacts(lib, s0, m) && LiveOnDisk(lib, m.s, x)
    ensures Describes(s0, x)
    ensures x in m.disk || (x.ManifestCandidate? && s0.manifests[x.digest].evicted && x in m.large)
  {
    hide PassFacts, Inv, DeletedRightly, SmallHeapOk, LargeHeapOk, Store.RedisValue, LargeOrDisk, SpilledAreFlagged;
    hide ReferencedDigests, IsLargeInMemory, RefersTo, Unevicted, Store.BlobBytes, LargeCandidates, DiskCandidates;
    Facts(lib, s0, m);
    SameDescription(s0, m.s, x);
    if x.ManifestCandidate? {
      var r :| r in ReferencedDigests(lib, m.s.manifests[x.digest].content) && r in m.s.blobs
        && TierOf(m.s.blobs[r]) == Disk;
      DiskReferrerIsHeld(lib, s0, m, x.digest, r);
    }
  }

  lemma DiskReferrerIsHeld(lib: Library, s0: Store, m: Machine, d: Digest, r: Digest)
    requires PassFacts(lib, s0, m) && d in m.s.manifests && r in ReferencedDigests(lib, m.s.manifests[d].content)
    requires r in m.s.blobs && m.s.blobs[r].OnDisk?
    ensures d in s0.manifests
    ensures var x := CandidateOf(s0, d); x in m.disk || (s0.manifests[d].evicted && x in m.large)
  {
    hide PassFacts, Inv, DeletedRightly, SmallHeapOk, LargeHeapOk, RedisEvolved, ReferencedDigests, IsLargeInMemory;
    hide RefersTo, Unevicted, Store.BlobBytes, LargeCandidates, DiskCandidates;
    Facts(lib, s0, m);
    assert Cached(m.s, CandidateOf(s0, d));
    if s0.blobs[r].OnDisk? {
      OnDiskItem(lib, s0, d, r);
    } else {
      FlaggedReferrer(lib, m.s, d, r);
      LargeReferrer(lib, s0, d, r);
    }
  }

  lemma OnDiskItem(lib: Library, s0: Store, d: Digest, r: Digest)
    requires d in s0.manifests && r in ReferencedDigests(lib, s0.manifests[d].content)
    requires r in s0.blobs && s0.blobs[r].OnDisk?
    ensures CandidateOf(s0, d) in DiskCandidates(lib, s0)
  {
    hide ReferencedDigests;
    assert TierOf(s0.blobs[r]) == Disk;
    assert RefersToTier(lib, s0, d, Disk);
  }

  // ---- Live items are those a pop would act on

  lemma SpillLeavesRedis(lib: Library, m: Machine, c: Candidate)
    requires c.ManifestCandidate? && m.s.DistinctIds() && LargeTierMatches(m)
    ensures SpillManifest(lib, m, c).s.redis == m.s.redis && SpillManifest(lib, m, c).s.blobs.Keys == m.s.blobs.Keys
  {
    hide SpilledBk, ToSpill, BlobTotal, Moved, LargeTierMatches, Store.DistinctIds, ToDisk;
  }

  lemma SameMap<K, V>(m: map<K, V>, m': map<K, V>)
    requires m'.Keys == m.Keys
    ensures m' == m <==> forall k :: k in m ==> m'[k] == m[k]
  {
    assert forall k :: k in m' <==> k in m;
  }

  lemma FlagChangesIff(ms: map<Digest, Manifest>, d: Digest)
    requires d in ms
    ensures ms[d := ms[d].(evicted := true)] == ms <==> ms[d].evicted
  {
    assert ms[d := ms[d].(evicted := true)][d].evicted;
  }

  /** Spilling for a flagged manifest acts on exactly its pending blobs. */
  lemma FlaggedSpillActs(lib: Library, s0: Store, m: Machine, c: Candidate)
    requires Inv(lib, s0, m) && m.s.DistinctIds() && LargeTierMatches(m)
    requires c.ManifestCandidate? && c.digest in m.s.manifests && m.s.manifests[c.digest].evicted
    ensures SpillManifest(lib, m, c).s.blobs == m.s.blobs <==> !exists r :: Pending(lib, m.s, c.digest, r)
  {
    hide Inv, LargeTierMatches, Store.DistinctIds, SpillManifest, ReferencedDigests, RefersTo, IsLargeInMemory;
    hide Unevicted, ToDisk;
    var s' := SpillManifest(lib, m, c).s;
    SpillManifestIs(lib, m, c);
    FlagChangesIff(m.s.manifests, c.digest);
    SpillLeavesRedis(lib, m, c);
    SameMap(m.s.blobs, s'.blobs);
    forall r | r in m.s.blobs ensures s'.blobs[r] != m.s.blobs[r] <==> Pending(lib, m.s, c.digest, r) {
      SpillMovesExactly(lib, s0, m, c, r);
      SpilledIsNotLarge(m.s.blobs[r]);
    }
  }

  lemma ManifestPopMatters(lib: Library, s0: Store, m: Machine, c: Candidate)
    requires PassFacts(lib, s0, m) && m.s.DistinctIds() && LargeTierMatches(m) && c.ManifestCandidate? && c in m.large
    ensures var s' := SpillManifest(lib, m, c).s;
      && s'.redis == m.s.redis
      && (LiveLarge(lib, m.s, c) <==> !(s'.manifests == m.s.manifests && s'.blobs == m.s.blobs))
  {
    hide PassFacts, Inv, LargeTierMatches, Store.DistinctIds, SpillManifest, ReferencedDigests, RefersTo, Pending;
    hide IsLargeInMemory, Unevicted, LargeCandidates, RefersToTier, LargeOrDisk, SpilledAreFlagged, DeletedRightly;
    hide SmallHeapOk, DiskHeapOk, BlobsEvolved;
    Facts(lib, s0, m);
    LargeItem(lib, s0, c);
    SameDescription(s0, m.s, c);
    SpillLeavesRedis(lib, m, c);
    if c.digest in m.s.manifests {
      SpillManifestIs(lib, m, c);
      FlagChangesIff(m.s.manifests, c.digest);
      if m.s.manifests[c.digest].evicted {
        FlaggedSpillActs(lib, s0, m, c);
      } else {
        UnflaggedIsLive(lib, s0, m, c);
      }
    } else {
      StaleSpill(lib, m, c);
    }
  }

  lemma ValuePopMatters(lib: Library, s0: Store, m: Machine, c: Candidate)
    requires PassFacts(lib, s0, m) && c.RedisCandidate? && c in m.large
    ensures var s' := SpillRedisCandidate(m, c).s;
      && s'.manifests == m.s.manifests && s'.blobs == m.s.blobs
      && (LiveLarge(lib, m.s, c) <==> s'.redis != m.s.redis)
  {
    hide PassFacts, Inv, LargeCandidates, RefersToTier, LargeOrDisk, SpilledAreFlagged, DeletedRightly;
    hide SmallHeapOk, DiskHeapOk, BlobsEvolved, SaturatingSub, Store.RedisValue;
    Facts(lib, s0, m);
    LargeItem(lib, s0, c);
    SameDescription(s0, m.s, c);
    if c.key in m.s.redis && m.s.redis[c.key].InMemory? {
      StillLarge(s0, m.s, c.key);
      assert SpillRedisCandidate(m, c).s.redis[c.key].OnDisk?;
    }
  }

  /** Popping an item off the large heap changes what is cached exactly if it is live. */
  lemma {:induction false} PopMattersIffLive(lib: Library, s0: Store, m: Machine, ev: Event)
    requires PassFacts(lib, s0, m) && m.s.DistinctIds() && LargeTierMatches(m) && ev.PopLarge? && ev.c in m.large
    ensures var s' := Step(lib, m, ev).s;
      LiveLarge(lib, m.s, ev.c) <==>
        !(s'.manifests == m.s.manifests && s'.blobs == m.s.blobs && s'.redis == m.s.redis)
  {
    hide PassFacts, LargeTierMatches, Store.DistinctIds, LiveLarge, SpillManifest, SpillRedisCandidate, Step;
    match ev.c {
      case ManifestCandidate(_, _) =>
        SpillStep(lib, m, ev);
        ManifestPopMatters(lib, s0, m, ev.c);
      case RedisCandidate(_, _, _) =>
        ValueStep(lib, m, ev);
        ValuePopMatters(lib, s0, m, ev.c);
    }
  }

  lemma ValueStep(lib: Library, m: Machine, ev: Event)
    requires m.s.DistinctIds() && LargeTierMatches(m) && ev.PopLarge? && ev.c.RedisCandidate?
    ensures Step(lib, m, ev).s == SpillRedisCandidate(m, ev.c).s
  {
    hide LargeTierMatches, Store.DistinctIds, SaturatingSub;
  }

  // ---- What popped manifests may still hold in memory

  /** What has left the large heap is no newer than what is on it. */
  ghost predicate PoppedAreOlder(lib: Library, s0: Store, heap: multiset<Candidate>) {
    forall x, y :: x in LargeCandidates(lib, s0) && x !in heap && y in heap ==> x.lastAccessed <= y.lastAccessed
  }

  /** Something on the heap was last used at `t` or earlier. */
  predicate AsOld(heap: multiset<Candidate>, t: nat) {
    exists y :: y in heap && y.lastAccessed <= t
  }

  /** That `d` still holds `r` is accounted for: an unflagged manifest holds it too; or,
      with `ties`, a candidate as old as `d` is still on the large heap. */
  predicate Excused(lib: Library, s0: Store, m: Machine, d: Digest, r: Digest, ties: bool)
    requires d in s0.manifests
  {
    RefersTo(lib, Unevicted(m.s.manifests), r) || (ties && AsOld(m.large, s0.manifests[d].lastUsed))
  }

  /** The large blobs that manifests popped off the large heap still hold are excused. */
  ghost predicate PoppedHoldNothing(lib: Library, s0: Store, m: Machine, ties: bool) {
    forall d, r :: d in s0.manifests && CandidateOf(s0, d) !in m.large && HoldsLarge(lib, m.s, d, r) ==>
      Excused(lib, s0, m, d, r, ties)
  }

  lemma OlderAfterPop(lib: Library, s0: Store, m: Machine, ev: Event)
    requires m.s.DistinctIds() && LargeTierMatches(m) && PoppedAreOlder(lib, s0, m.large)
    requires ev.PopLarge? ==> Oldest(m.large, ev.c)
    ensures PoppedAreOlder(lib, s0, Step(lib, m, ev).large)
  {
    hide Step, LargeTierMatches, Store.DistinctIds, LargeCandidates;
    StepHeaps(lib, m, ev);
    var heap := Step(lib, m, ev).large;
    assert forall y :: y in heap ==> y in m.large;
    forall x | x in LargeCandidates(lib, s0) && x !in heap ensures x !in m.large || (ev.PopLarge? && x == ev.c) {}
  }

  /** An unflagged manifest that does not refer to what is flagged still holds it. */
  lemma OtherStillRefers(lib: Library, ms: map<Digest, Manifest>, c: Digest, r: Digest)
    requires c in ms && r !in ReferencedDigests(lib, ms[c].content) && RefersTo(lib, Unevicted(ms), r)
    ensures RefersTo(lib, Unevicted(ms[c := ms[c].(evicted := true)]), r)
  {
    hide ReferencedDigests;
    var u := Unevicted(ms);
    var e :| e in u && r in ReferencedDigests(lib, u[e].content);
    assert e in Unevicted(ms[c := ms[c].(evicted := true)]);
  }

  /** One blob of one popped manifest, across a spill. */
  lemma ExcusedAfterSpill(
      lib: Library, s0: Store, m: Machine, m': Machine, c: Candidate, d: Digest, r: Digest)
    requires PassFacts(lib, s0, m) && m.s.DistinctIds() && LargeTierMatches(m) && PoppedHoldNothing(lib, s0, m, false)
    requires c.ManifestCandidate? && c.digest in m.s.manifests && Describes(s0, c)
    requires m'.s == SpillManifest(lib, m, c).s && m'.large == m.large - multiset{c}
    requires d in s0.manifests && CandidateOf(s0, d) !in m'.large && HoldsLarge(lib, m'.s, d, r)
    ensures Excused(lib, s0, m', d, r, false)
  {
    hide PassFacts, Inv, LargeTierMatches, Store.DistinctIds, SpillManifest, ReferencedDigests, RefersTo, Unevicted;
    hide IsLargeInMemory, Excused, LargeOrDisk, SpilledAreFlagged;
    assert Inv(lib, s0, m) by { Facts(lib, s0, m); }
    SpillManifestIs(lib, m, c);
    SpillLeavesRedis(lib, m, c);
    SpillMovesExactly(lib, s0, m, c, r);
    SpilledIsNotLarge(m.s.blobs[r]);
    if r in ReferencedDigests(lib, m.s.manifests[c.digest].content) {
      ExcusedByUnflagged(lib, s0, m', d, r);
    } else {
      assert HoldsLarge(lib, m.s, d, r);
      assert d != c.digest && CandidateOf(s0, d) !in m.large;
      assert Excused(lib, s0, m, d, r, false);
      ExcuseIsUnflagged(lib, s0, m, d, r);
      OtherStillRefers(lib, m.s.manifests, c.digest, r);
      ExcusedByUnflagged(lib, s0, m', d, r);
    }
  }

  lemma ExcusedByUnflagged(lib: Library, s0: Store, m: Machine, d: Digest, r: Digest)
    requires d in s0.manifests && RefersTo(lib, Unevicted(m.s.manifests), r)
    ensures Excused(lib, s0, m, d, r, false)
  {}

  lemma ExcuseIsUnflagged(lib: Library, s0: Store, m: Machine, d: Digest, r: Digest)
    requires d in s0.manifests && Excused(lib, s0, m, d, r, false)
    ensures RefersTo(lib, Unevicted(m.s.manifests), r)
  {}

  lemma ExcusedAfterValue(lib: Library, s0: Store, m: Machine, m': Machine)
    requires PoppedHoldNothing(lib, s0, m, false) && m'.s.manifests == m.s.manifests && m'.s.blobs == m.s.blobs
    requires forall d :: d in s0.manifests && CandidateOf(s0, d) !in m'.large ==> CandidateOf(s0, d) !in m.large
    ensures PoppedHoldNothing(lib, s0, m', false)
  {
    hide ReferencedDigests, RefersTo, Unevicted, IsLargeInMemory;
    forall d, r | d in s0.manifests && CandidateOf(s0, d) !in m'.large && HoldsLarge(lib, m'.s, d, r)
      ensures Excused(lib, s0, m', d, r, false)
    {
      assert HoldsLarge(lib, m.s, d, r);
    }
  }

  lemma ExcusedAfterLarge(lib: Library, s0: Store, m: Machine, ev: Event)
    requires PassFacts(lib, s0, m) && m.s.DistinctIds() && LargeTierMatches(m) && PoppedHoldNothing(lib, s0, m, false)
    requires ev.PopLarge? && ev.c in m.large
    ensures PoppedHoldNothing(lib, s0, Step(lib, m, ev), false)
  {
    hide PassFacts, LargeTierMatches, Store.DistinctIds, SpillManifest, Step, HoldsLarge, Excused;
    var m' := Step(lib, m, ev);
    StepHeaps(lib, m, ev);
    LargeIsDescribed(lib, s0, m, ev.c);
    if ev.c.RedisCandidate? {
      ValueSpillLeaves(lib, m, ev);
      ExcusedAfterValue(lib, s0, m, m');
    } else {
      SpillStep(lib, m, ev);
      if ev.c.digest in m.s.manifests {
        forall d, r | d in s0.manifests && CandidateOf(s0, d) !in m'.large && HoldsLarge(lib, m'.s, d, r)
          ensures Excused(lib, s0, m', d, r, false)
        {
          ExcusedAfterSpill(lib, s0, m, m', ev.c, d, r);
        }
      } else {
        StaleSpill(lib, m, ev.c);
        StalePopKeeps(lib, s0, m, m', ev.c);
      }
    }
  }

  lemma LargeIsDescribed(lib: Library, s0: Store, m: Machine, c: Candidate)
    requires PassFacts(lib, s0, m) && c in m.large
    ensures Describes(s0, c) && c in LargeCandidates(lib, s0)
  {
    hide PassFacts, Inv, Describes, LargeCandidates;
    Facts(lib, s0, m);
    LargeItem(lib, s0, c);
  }

  lemma StalePopKeeps(lib: Library, s0: Store, m: Machine, m': Machine, c: Candidate)
    requires PoppedHoldNothing(lib, s0, m, false) && c.ManifestCandidate? && c.digest !in m.s.manifests
    requires m'.s == m.s && m'.large == m.large - multiset{c}
    ensures PoppedHoldNothing(lib, s0, m', false)
  {
    hide ReferencedDigests, IsLargeInMemory, RefersTo, Unevicted;
    forall d, r | d in s0.manifests && CandidateOf(s0, d) !in m'.large && HoldsLarge(lib, m'.s, d, r)
      ensures Excused(lib, s0, m', d, r, false)
    {
      assert d != c.digest && CandidateOf(s0, d) !in m.large && HoldsLarge(lib, m.s, d, r);
    }
  }

  lemma DiskPopManifests(lib: Library, m: Machine, ev: Event)
    requires m.s.DistinctIds() && LargeTierMatches(m) && ev.PopDisk?
    ensures Step(lib, m, ev).s.manifests ==
      if ev.c.ManifestCandidate? then m.s.manifests - {ev.c.digest} else m.s.manifests
  {
    if ev.c.ManifestCandidate? {
      DropIgnoresHeaps(lib, m, ev);
      if ev.c.digest in m.s.manifests {
        DropManifestShape(lib, m, ev.c.digest);
      }
      hide Step, DropManifest, LargeTierMatches, Store.DistinctIds;
    } else {
      hide LargeTierMatches, Store.DistinctIds, RedisCharge;
    }
  }

  /** The last unflagged holder of `r` is dropped through the disk heap: it is as old
      as any popped manifest that still holds `r`, and stays on the large heap. */
  lemma DroppedHolderStays(lib: Library, s0: Store, m: Machine, c: Candidate, d: Digest, r: Digest)
    requires PassFacts(lib, s0, m) && PoppedAreOlder(lib, s0, m.large) && Oldest(m.disk, c)
    requires c.ManifestCandidate? && HoldsLarge(lib, m.s, c.digest, r) && !m.s.manifests[c.digest].evicted
    requires d in s0.manifests && CandidateOf(s0, d) !in m.large && HoldsLarge(lib, m.s, d, r)
    ensures AsOld(m.large, s0.manifests[d].lastUsed)
  {
    hide PassFacts, Inv, ReferencedDigests, IsLargeInMemory, LargeCandidates, SpilledAreFlagged, DeletedRightly;
    hide SmallHeapOk, BlobsEvolved, ManifestsEvolved, RedisEvolved;
    Facts(lib, s0, m);
    ReferrerIsCandidate(lib, s0, m.s, d, r);
    ReferrerIsCandidate(lib, s0, m.s, c.digest, r);
    var x := CandidateOf(s0, c.digest);
    assert !Settled(m.s, x) && x in m.large;
    assert Cached(m.s, CandidateOf(s0, d));
    assert Describes(s0, c);
  }

  lemma OtherReferrer(lib: Library, ms: map<Digest, Manifest>, c: Digest, r: Digest)
    requires RefersTo(lib, Unevicted(ms), r) && !RefersTo(lib, Unevicted(ms - {c}), r)
    ensures c in ms && !ms[c].evicted && r in ReferencedDigests(lib, ms[c].content)
  {
    hide ReferencedDigests;
    var u := Unevicted(ms);
    var e :| e in u && r in ReferencedDigests(lib, u[e].content);
    assert e != c ==> e in Unevicted(ms - {c});
  }

  lemma ExcusedAfterDisk(lib: Library, s0: Store, m: Machine, ev: Event)
    requires PassFacts(lib, s0, m) && m.s.DistinctIds() && LargeTierMatches(m) && PoppedHoldNothing(lib, s0, m, true)
    requires ev.PopDisk? && Oldest(m.disk, ev.c) && PoppedAreOlder(lib, s0, m.large)
    ensures PoppedHoldNothing(lib, s0, Step(lib, m, ev), true)
  {
    hide PassFacts, LargeTierMatches, Store.DistinctIds, Step, ReferencedDigests, RefersTo, Unevicted, Oldest;
    hide IsLargeInMemory, Excused, PoppedAreOlder;
    var m' := Step(lib, m, ev);
    StepHeaps(lib, m, ev);
    DiskPopManifests(lib, m, ev);
    StepIsFewer(lib, m, ev);
    forall d, r | d in s0.manifests && CandidateOf(s0, d) !in m'.large && HoldsLarge(lib, m'.s, d, r)
      ensures Excused(lib, s0, m', d, r, true)
    {
      assert HoldsLarge(lib, m.s, d, r);
      ExcusedAfterDrop(lib, s0, m, m', ev.c, d, r);
    }
  }

  lemma ExcusedAfterDrop(lib: Library, s0: Store, m: Machine, m': Machine, c: Candidate, d: Digest, r: Digest)
    requires PassFacts(lib, s0, m) && PoppedAreOlder(lib, s0, m.large) && Oldest(m.disk, c)
    requires d in s0.manifests && CandidateOf(s0, d) !in m.large && HoldsLarge(lib, m.s, d, r)
    requires Excused(lib, s0, m, d, r, true) && m'.large == m.large
    requires m'.s.manifests == if c.ManifestCandidate? then m.s.manifests - {c.digest} else m.s.manifests
    ensures Excused(lib, s0, m', d, r, true)
  {
    hide PassFacts, ReferencedDigests, RefersTo, Unevicted, IsLargeInMemory, PoppedAreOlder, Oldest, AsOld;
    if RefersTo(lib, Unevicted(m.s.manifests), r) && !RefersTo(lib, Unevicted(m'.s.manifests), r) {
      OtherReferrer(lib, m.s.manifests, c.digest, r);
      DroppedHolderStays(lib, s0, m, c, d, r);
    }
  }

  lemma NothingPopped(lib: Library, s0: Store, m: Machine, ties: bool)
    requires PassFacts(lib, s0, m) && m.large == multiset(LargeCandidates(lib, s0))
    ensures PoppedHoldNothing(lib, s0, m, ties) && PoppedAreOlder(lib, s0, m.large)
  {
    hide PassFacts, Inv, LargeCandidates, ReferencedDigests, IsLargeInMemory, Excused, CandidateOf, LargeOrDisk;
    hide SpilledAreFlagged, DeletedRightly, SmallHeapOk, LargeHeapOk, DiskHeapOk, BlobsEvolved, ManifestsEvolved;
    Facts(lib, s0, m);
    forall d, r | HoldsLarge(lib, m.s, d, r) ensures d in s0.manifests && CandidateOf(s0, d) in m.large {
      ReferrerIsCandidate(lib, s0, m.s, d, r);
    }
  }

  lemma SmallPopsFirst(lib: Library, cfg: Config, s0: Store, events: seq<Event>, states: seq<Machine>, n: nat)
    requires s0.Owned() && IsTrace(lib, cfg, s0, events, states) && n <= |events|
    requires n == 0 || events[n - 1].PopSmall?
    ensures |states| == |events| + 1 && states[n].large == multiset(LargeCandidates(lib, s0))
  {
    hide IsTrace, Store.Owned, LargeCandidates;
    TraceLength(lib, cfg, s0, events, states);
    forall i | 0 <= i < n ensures events[i].PopSmall? {
      PopsComeInPhases(lib, cfg, s0, events, states, i, n - 1);
    }
    LargeHeapUntouched(lib, cfg, s0, events, states, n);
  }

  lemma EventIsOldest(cfg: Config, m: Machine, ev: Event)
    requires Enabled(cfg, m, ev)
    ensures ev.PopLarge? ==> Oldest(m.large, ev.c)
    ensures ev.PopDisk? ==> Oldest(m.disk, ev.c)
  {}

  lemma NoDiskPopsYet(lib: Library, cfg: Config, s0: Store, events: seq<Event>, states: seq<Machine>, n: nat)
    requires s0.Owned() && IsTrace(lib, cfg, s0, events, states) && n < |events| && !events[n].PopDisk?
    ensures forall i :: 0 <= i <= n ==> !events[i].PopDisk?
  {
    hide IsTrace, Store.Owned;
    forall i | 0 <= i <= n ensures !events[i].PopDisk? {
      PopsComeInPhases(lib, cfg, s0, events, states, i, n);
    }
  }

  /** At every point of a pass the large blobs that popped manifests still hold in
      memory are held by an unflagged one too; or, once the disk heap is served, a
      candidate as old as the popped manifest is still on the large heap. */
  lemma {:induction false} PoppedAlongTrace(
      lib: Library, cfg: Config, s0: Store, events: seq<Event>, states: seq<Machine>, n: nat, ties: bool)
    requires s0.Owned() && IsTrace(lib, cfg, s0, events, states) && n <= |events|
    requires ties || forall i :: 0 <= i < n ==> !events[i].PopDisk?
    ensures |states| == |events| + 1
    ensures PoppedHoldNothing(lib, s0, states[n], ties) && PoppedAreOlder(lib, s0, states[n].large)
  {
    hide IsTrace, Store.Owned, PassFacts, PoppedHoldNothing, PoppedAreOlder, LargeTierMatches, Store.DistinctIds, Step;
    hide Enabled, Oldest, LargeCandidates;
    TraceFacts(lib, cfg, s0, events, states, n);
    if n == 0 || events[n - 1].PopSmall? {
      SmallPopsFirst(lib, cfg, s0, events, states, n);
      NothingPopped(lib, s0, states[n], ties);
    } else {
      var m, ev := states[n - 1], events[n - 1];
      TraceFacts(lib, cfg, s0, events, states, n - 1);
      TraceAt(lib, cfg, s0, events, states, n - 1);
      EventIsOldest(cfg, m, ev);
      if ev.PopLarge? {
        NoDiskPopsYet(lib, cfg, s0, events, states, n - 1);
        PoppedAlongTrace(lib, cfg, s0, events, states, n - 1, false);
        OldestIsThere(m.large, ev.c);
        ExcusedAfterLarge(lib, s0, m, ev);
        ExcusedEitherWay(lib, s0, states[n], ties);
      } else {
        PoppedAlongTrace(lib, cfg, s0, events, states, n - 1, true);
        ExcusedAfterDisk(lib, s0, m, ev);
      }
      OlderAfterPop(lib, s0, m, ev);
    }
  }

  lemma ExcusedEitherWay(lib: Library, s0: Store, m: Machine, ties: bool)
    requires PoppedHoldNothing(lib, s0, m, false)
    ensures PoppedHoldNothing(lib, s0, m, ties)
  {
    hide HoldsLarge, RefersTo, Unevicted;
  }

  lemma OldestIsThere(heap: multiset<Candidate>, c: Candidate)
    requires Oldest(heap, c)
    ensures c in heap
  {}

  // ---- Lower bounds

  /** A flagged manifest. */
  predicate Flagged(s: Store, x: Candidate) {
    x.ManifestCandidate? && x.digest in s.manifests && s.manifests[x.digest].evicted
  }

  /** The last machine state of a pass, with the store it leaves. */
  lemma EndOfPass(lib: Library, cfg: Config, s0: Store, events: seq<Event>, states: seq<Machine>, s1: Store)
      returns (m: Machine)
    requires s0.Owned() && IsPass(lib, cfg, s0, events, states, s1)
    ensures |states| == |events| + 1 && m == states[|events|] && PassFacts(lib, s0, m) && Done(cfg, m)
    ensures IsTrace(lib, cfg, s0, events, states)
    ensures s1.manifests == m.s.manifests && s1.redis == m.s.redis && s1.now == m.s.now
    ensures forall x :: LiveSmall(s1, x) <==> LiveSmall(m.s, x)
    ensures forall x :: LiveLarge(lib, s1, x) <==> LiveLarge(lib, m.s, x)
    ensures forall x :: LiveOnDisk(lib, s1, x) <==> LiveOnDisk(lib, m.s, x)
  {
    hide Store.Owned, IsPass, IsTrace, Inv, Done, Finish, ManifestsEvolved, PassFacts, LiveSmall, LiveLarge, LiveOnDisk;
    m := LastOfPass(lib, cfg, s0, events, states, s1);
    PassIsTrace(lib, cfg, s0, events, states, s1);
    TraceFacts(lib, cfg, s0, events, states, |events|);
    forall x
      ensures LiveSmall(s1, x) <==> LiveSmall(m.s, x)
      ensures LiveLarge(lib, s1, x) <==> LiveLarge(lib, m.s, x)
      ensures LiveOnDisk(lib, s1, x) <==> LiveOnDisk(lib, m.s, x)
    {
      SameLive(lib, s0, m, x);
    }
  }

  /** The small gauge is at most the touch time of every manifest and every small
      redis value that the pass leaves. */
  lemma {:induction false} SmallGaugeIsLowerBound(
      lib: Library, cfg: Config, s0: Store, events: seq<Event>, states: seq<Machine>, s1: Store, t: nat)
    requires s0.Owned() && IsPass(lib, cfg, s0, events, states, s1)
    requires PublishedOldest(states[|events|].small, s1.now, t)
    ensures forall x :: LiveSmall(s1, x) ==> t <= x.lastAccessed
  {
    hide Store.Owned, IsPass, IsTrace, Done, PublishedOldest, PassFacts, LiveSmall;
    var m := EndOfPass(lib, cfg, s0, events, states, s1);
    forall x | LiveSmall(s1, x) ensures t <= x.lastAccessed {
      LiveSmallIsHeld(lib, s0, m, x);
      OldestBelow(m.small, s1.now, t, x);
    }
  }

  /** The large gauge is at most the touch time of every live item of the large pool. */
  lemma {:induction false} LargeGaugeIsLowerBound(
      lib: Library, cfg: Config, s0: Store, events: seq<Event>, states: seq<Machine>, s1: Store, t: nat)
    requires s0.Owned() && IsPass(lib, cfg, s0, events, states, s1)
    requires PublishedOldest(states[|events|].large, s1.now, t)
    ensures forall x :: LiveLarge(lib, s1, x) ==> t <= x.lastAccessed
  {
    hide Store.Owned, IsPass, IsTrace, Done, PublishedOldest, PassFacts, LiveLarge;
    var m := EndOfPass(lib, cfg, s0, events, states, s1);
    PoppedAlongTrace(lib, cfg, s0, events, states, |events|, true);
    forall x | LiveLarge(lib, s1, x) ensures t <= x.lastAccessed {
      var y := x;
      if x !in m.large {
        MissedIsTied(lib, s0, m, x, true);
        y :| y in m.large && y.lastAccessed <= x.lastAccessed;
      }
      OldestBelow(m.large, s1.now, t, y);
    }
  }

  /** A live item of the large pool that is not on the large heap. */
  lemma MissedIsTied(lib: Library, s0: Store, m: Machine, x: Candidate, ties: bool)
    requires PassFacts(lib, s0, m) && PoppedHoldNothing(lib, s0, m, ties) && LiveLarge(lib, m.s, x) && x !in m.large
    ensures ties && AsOld(m.large, x.lastAccessed)
  {
    LiveLargeIsHeld(lib, s0, m, x);
    LargeItem(lib, s0, x);
    hide PassFacts, ReferencedDigests, IsLargeInMemory, RefersTo, Unevicted, LargeCandidates, RefersToTier;
    var r :| Pending(lib, m.s, x.digest, r);
    assert Excused(lib, s0, m, x.digest, r, ties);
  }

  /** A survivor that referred to an on-disk blob, or that the pass flagged. */
  ghost predicate JoinsDisk(lib: Library, s0: Store, s: Store, d: Digest) {
    && d in s0.manifests && d in s.manifests
    && (RefersToTier(lib, s0, d, Disk) || (s.manifests[d].evicted && !s0.manifests[d].evicted))
  }

  /** The disk gauge is at most the touch time of every item of the disk pool, except
      manifests flagged before the pass that it has left on the large heap. It is also
      a bound for manifests that the pass flagged and that have nothing on disk. */
  lemma {:induction false} DiskGaugeIsLowerBound(
      lib: Library, cfg: Config, s0: Store, events: seq<Event>, states: seq<Machine>, s1: Store, t: nat)
    requires s0.Owned() && IsPass(lib, cfg, s0, events, states, s1)
    requires PublishedOldest(states[|events|].disk, s1.now, t)
    ensures forall x :: LiveOnDisk(lib, s1, x) ==>
      t <= x.lastAccessed || (Flagged(s0, x) && x in states[|events|].large)
    ensures forall d :: JoinsDisk(lib, s0, s1, d) ==> t <= s1.manifests[d].lastUsed
  {
    hide Store.Owned, IsPass, IsTrace, Done, PublishedOldest, PassFacts, LiveOnDisk, JoinsDisk;
    var m := EndOfPass(lib, cfg, s0, events, states, s1);
    forall x | LiveOnDisk(lib, s1, x) ensures t <= x.lastAccessed || (Flagged(s0, x) && x in m.large) {
      LiveOnDiskIsHeld(lib, s0, m, x);
      if x in m.disk {
        OldestBelow(m.disk, s1.now, t, x);
      }
    }
    forall d | JoinsDisk(lib, s0, s1, d) ensures d in s1.manifests && t <= s1.manifests[d].lastUsed {
      var x := JoinedIsHeld(lib, s0, m, s1, d);
      OldestBelow(m.disk, s1.now, t, x);
    }
  }

  lemma JoinedIsHeld(lib: Library, s0: Store, m: Machine, s: Store, d: Digest) returns (x: Candidate)
    requires PassFacts(lib, s0, m) && s.manifests == m.s.manifests && JoinsDisk(lib, s0, s, d)
    ensures d in s.manifests && x in m.disk && x == CandidateOf(s, d)
  {
    hide PassFacts, Inv, RefersToTier, SpilledAreFlagged, DeletedRightly, SmallHeapOk, LargeHeapOk, LargeOrDisk;
    hide BlobsEvolved, RedisEvolved;
    Facts(lib, s0, m);
    x := CandidateOf(s0, d);
    assert Cached(m.s, x) && (RefersToTier(lib, s0, d, Disk) ==> x in DiskCandidates(lib, s0));
  }

  // ---- When a gauge is exact

  /** Whether a heap publishes what its gauge is for, when all live items are on it or
      in `rest`: no live one in `rest` is older, and the published time is that of a live
      one, or the clock when there is none. */
  ghost predicate ExactFrom(
      heap: multiset<Candidate>, rest: multiset<Candidate>, now: nat, t: nat, live: Candidate -> bool) {
    && (forall c :: c in rest && live(c) ==> t <= c.lastAccessed)
    && (|| (exists c :: Oldest(heap, c) && live(c))
        || (exists c :: c in rest && live(c) && c.lastAccessed == t)
        || (t == now && forall c :: c in heap || c in rest ==> !live(c)))
  }

  lemma ExactIff(heap: multiset<Candidate>, rest: multiset<Candidate>, now: nat, t: nat, live: Candidate -> bool)
    requires PublishedOldest(heap, now, t) && forall x :: live(x) ==> x in heap || x in rest
    ensures OldestLive(live, now, t) <==> ExactFrom(heap, rest, now, t, live)
  {
    forall c | c in heap ensures t <= c.lastAccessed {
      OldestBelow(heap, now, t, c);
    }
    if OldestLive(live, now, t) {
      ExactHasWitness(heap, rest, now, t, live);
    }
    if ExactFrom(heap, rest, now, t, live) {
      WitnessIsExact(heap, rest, now, t, live);
    }
  }

  lemma WitnessIsExact(
      heap: multiset<Candidate>, rest: multiset<Candidate>, now: nat, t: nat, live: Candidate -> bool)
    requires PublishedOldest(heap, now, t) && ExactFrom(heap, rest, now, t, live)
    requires forall x :: live(x) ==> x in heap || x in rest
    ensures OldestLive(live, now, t)
  {
    forall x | live(x) ensures t <= x.lastAccessed {
      if x in heap {
        OldestBelow(heap, now, t, x);
      }
    }
    if c :| Oldest(heap, c) && live(c) {
      OldestBelow(heap, now, t, c);
      assert live(c) && c.lastAccessed == t;
    }
  }

  lemma ExactHasWitness(
      heap: multiset<Candidate>, rest: multiset<Candidate>, now: nat, t: nat, live: Candidate -> bool)
    requires OldestLive(live, now, t) && forall x :: live(x) ==> x in heap || x in rest
    requires forall c :: c in heap ==> t <= c.lastAccessed
    ensures ExactFrom(heap, rest, now, t, live)
  {
    if x0 :| live(x0) {
      var x :| live(x) && x.lastAccessed == t;
      assert x in heap ==> Oldest(heap, x);
    }
  }

  /** The small gauge is the oldest live touch time, or the clock for an empty pool, iff
      some oldest candidate left on the heap is live, or none is and it says the clock. */
  lemma {:induction false} SmallGaugeExactIff(
      lib: Library, cfg: Config, s0: Store, events: seq<Event>, states: seq<Machine>, s1: Store, t: nat)
    requires s0.Owned() && IsPass(lib, cfg, s0, events, states, s1)
    requires PublishedOldest(states[|events|].small, s1.now, t)
    ensures OldestLive(x => LiveSmall(s1, x), s1.now, t) <==>
      || (exists c :: Oldest(states[|events|].small, c) && LiveSmall(s1, c))
      || (t == s1.now && forall c :: c in states[|events|].small ==> !LiveSmall(s1, c))
  {
    hide Store.Owned, IsPass, IsTrace, Done, PublishedOldest, PassFacts, LiveSmall, OldestLive, Oldest;
    var m := EndOfPass(lib, cfg, s0, events, states, s1);
    forall x | LiveSmall(s1, x) ensures x in m.small {
      LiveSmallIsHeld(lib, s0, m, x);
    }
    ExactIff(m.small, multiset{}, s1.now, t, x => LiveSmall(s1, x));
  }

  /** When the large gauge is exact. What it can miss is on the disk heap. */
  lemma {:induction false} LargeGaugeExactIff(
      lib: Library, cfg: Config, s0: Store, events: seq<Event>, states: seq<Machine>, s1: Store, t: nat)
    requires s0.Owned() && IsPass(lib, cfg, s0, events, states, s1)
    requires PublishedOldest(states[|events|].large, s1.now, t)
    ensures OldestLive(x => LiveLarge(lib, s1, x), s1.now, t) <==>
      ExactFrom(states[|events|].large, states[|events|].disk, s1.now, t, x => LiveLarge(lib, s1, x))
  {
    hide Store.Owned, IsPass, IsTrace, Done, PublishedOldest, PassFacts, LiveLarge, OldestLive, ExactFrom;
    var m := EndOfPass(lib, cfg, s0, events, states, s1);
    forall x | LiveLarge(lib, s1, x) ensures x in m.large || x in m.disk {
      LiveLargeIsHeld(lib, s0, m, x);
    }
    ExactIff(m.large, m.disk, s1.now, t, x => LiveLarge(lib, s1, x));
  }

  /** When the disk gauge is exact. What it can miss is on the large heap. */
  lemma {:induction false} DiskGaugeExactIff(
      lib: Library, cfg: Config, s0: Store, events: seq<Event>, states: seq<Machine>, s1: Store, t: nat)
    requires s0.Owned() && IsPass(lib, cfg, s0, events, states, s1)
    requires PublishedOldest(states[|events|].disk, s1.now, t)
    ensures OldestLive(x => LiveOnDisk(lib, s1, x), s1.now, t) <==>
      ExactFrom(states[|events|].disk, states[|events|].large, s1.now, t, x => LiveOnDisk(lib, s1, x))
  {
    hide Store.Owned, IsPass, IsTrace, Done, PublishedOldest, PassFacts, LiveOnDisk, OldestLive, ExactFrom;
    var m := EndOfPass(lib, cfg, s0, events, states, s1);
    forall x | LiveOnDisk(lib, s1, x) ensures x in m.disk || x in m.large {
      LiveOnDiskIsHeld(lib, s0, m, x);
    }
    ExactIff(m.disk, m.large, s1.now, t, x => LiveOnDisk(lib, s1, x));
  }

  // ---- Least recently used first, on disk

  /** From the first pop of the disk heap on, that heap only shrinks. */
  lemma {:induction false} DiskHeapShrinks(
      lib: Library, cfg: Config, s0: Store, events: seq<Event>, states: seq<Machine>, i: nat, n: nat)
    requires s0.Owned() && IsTrace(lib, cfg, s0, events, states) && i <= n <= |events|
    requires i < |events| && events[i].PopDisk?
    ensures |states| == |events| + 1 && states[n].disk <= states[i].disk
    decreases n
  {
    hide IsTrace, Store.Owned, Step, LargeTierMatches, Store.DistinctIds, Enabled;
    TraceLength(lib, cfg, s0, events, states);
    if i < n {
      DiskHeapShrinks(lib, cfg, s0, events, states, i, n - 1);
      PopsComeInPhases(lib, cfg, s0, events, states, i, n - 1);
      TraceAt(lib, cfg, s0, events, states, n - 1);
      StepHeaps(lib, states[n - 1], events[n - 1]);
    }
  }

  /** If a pass popped `c` from the disk heap, what it leaves on disk is no older,
      except for manifests flagged before the pass and still on the large heap. */
  lemma {:induction false} DiskPopsAreOldest(
      lib: Library, cfg: Config, s0: Store, events: seq<Event>, states: seq<Machine>, i: nat, x: Candidate)
    requires s0.Owned() && IsTrace(lib, cfg, s0, events, states) && i < |events| && events[i].PopDisk?
    requires LiveOnDisk(lib, states[|events|].s, x)
    ensures events[i].c.lastAccessed <= x.lastAccessed || (Flagged(s0, x) && x in states[|events|].large)
  {
    hide IsTrace, Store.Owned, PassFacts, Step, LargeTierMatches, Store.DistinctIds, Enabled, LiveOnDisk;
    TraceFacts(lib, cfg, s0, events, states, |events|);
    LiveOnDiskIsHeld(lib, s0, states[|events|], x);
    DiskHeapShrinks(lib, cfg, s0, events, states, i, |events|);
    TraceAt(lib, cfg, s0, events, states, i);
    EventIsOldest(cfg, states[i], events[i]);
  }
}
