/** The usage a pass publishes, against the sums over the maps. */
module EvictionUsage {
  import opened Prelude
  import opened DigestText
  import opened UsageSums
  import opened References
  import opened Cache
  import opened EvictionMachine
  import opened EvictionStore
  import opened EvictionInvariant
  import opened EvictionHeaps
  import opened EvictionTheorems
  import opened EvictionPhases
  import opened EvictionBudgets
  import opened EvictionGauges
  import opened EvictionExactGauges

  // ---- Published usage

  /** The one counter the pass does not overwrite, against its sum. */
  ghost function ManifestDrift(s: Store): int {
    s.counters.manifestMemory - Total(ManifestCharges(s.manifests)).manifestMemory
  }

  lemma DropManifestDrift(lib: Library, m: Machine, d: Digest)
    ensures ManifestDrift(DropManifest(lib, m, d).s) == ManifestDrift(m.s)
  {
    if d in m.s.manifests {
      var refs := ReferencedDigests(lib, m.s.manifests[d].content);
      var w := ToDelete(m.s, DroppedBk(m.bk, m.s.manifests[d].evicted, refs), refs);
      var s1 := UntagManifest(m.s, d);
      BlobTotalIsOnlyBlobs(s1, w);
      assert DropManifest(lib, m, d).s == DeleteBlobs(s1, w);
      hide DropManifest, BlobTotal, ToDelete, DroppedBk;
      assert ManifestCharges(m.s.manifests - {d}) == ManifestCharges(m.s.manifests) - {d};
      TotalDrop(ManifestCharges(m.s.manifests), d);
    }
  }

  lemma DropRedisDrift(m: Machine, k: Bytes, u: Usage)
    ensures ManifestDrift(DropRedis(m, k, u).s) == ManifestDrift(m.s)
  {}

  lemma SpillDrift(lib: Library, m: Machine, c: Candidate)
    requires m.s.DistinctIds() && LargeTierMatches(m)
    ensures c.ManifestCandidate? ==> ManifestDrift(SpillManifest(lib, m, c).s) == ManifestDrift(m.s)
    ensures c.RedisCandidate? ==> ManifestDrift(SpillRedisCandidate(m, c).s) == ManifestDrift(m.s)
  {
    hide BlobTotal, SpilledBk, ToSpill, Moved, SpillIn, SpillFiles;
    if c.ManifestCandidate? && c.digest in m.s.manifests {
      assert ManifestCharges(FlagManifest(m.s, c.digest).manifests) == ManifestCharges(m.s.manifests);
    }
  }

  lemma StepDrift(lib: Library, m: Machine, ev: Event)
    requires m.s.DistinctIds() && LargeTierMatches(m)
    ensures ManifestDrift(Step(lib, m, ev).s) == ManifestDrift(m.s)
  {
    hide ManifestDrift, DropManifest, DropRedis, SpillManifest, SpillRedisCandidate, Store.DistinctIds;
    hide LargeTierMatches, In;
    match ev {
      case PopSmall(c) =>
        var m1 := m.(small := m.small - multiset{c});
        match c {
          case ManifestCandidate(_, d) => DropManifestDrift(lib, m1, d);
          case RedisCandidate(_, k, size) => DropRedisDrift(m1, k, In(SmallRedisMemory, size));
        }
      case PopLarge(c) =>
        var m1 := m.(large := m.large - multiset{c});
        TierMatchIgnoresHeaps(m, m1);
        SpillDrift(lib, m1, c);
      case PopDisk(c) =>
        var m1 := m.(disk := m.disk - multiset{c});
        match c {
          case ManifestCandidate(_, d) => DropManifestDrift(lib, m1, d);
          case RedisCandidate(_, k, size) => DropRedisDrift(m1, k, In(RedisDisk, size));
        }
    }
  }

  lemma {:induction false} TraceDrift(
      lib: Library, cfg: Config, s0: Store, events: seq<Event>, states: seq<Machine>, n: nat)
    requires IsTrace(lib, cfg, s0, events, states) && n <= |events|
    ensures ManifestDrift(states[n].s) == ManifestDrift(s0)
  {
    hide Step, LargeTierMatches, Store.DistinctIds, Enabled, ManifestDrift, InitialBk, Store.Recomputed;
    hide SmallCandidates, LargeCandidates, DiskCandidates;
    if n > 0 {
      TraceDrift(lib, cfg, s0, events, states, n - 1);
      TraceAt(lib, cfg, s0, events, states, n - 1);
      StepDrift(lib, states[n - 1], events[n - 1]);
    }
  }

  lemma PublishedAlgebra(acc: Usage, loop: Usage, after: Usage, slack: Usage, swept: Usage, counters: Usage)
    requires acc == loop.Plus(slack) && after == loop.Minus(swept)
    requires counters == acc.(manifestMemory := after.manifestMemory)
    requires slack.manifestMemory == 0 && swept.manifestMemory == 0
    ensures counters == after.Plus(slack).Plus(swept)
  {}

  lemma ManifestPart(s: Store)
    ensures s.Recomputed().manifestMemory == Total(ManifestCharges(s.manifests)).manifestMemory
  {
    BucketsAreSeparate(s);
    hide ManifestCharges, BlobCharges, RedisCharges;
  }

  /** What the final stores write. */
  lemma FinishStores(m: Machine)
    requires ManifestDrift(m.s) == 0
    ensures Finish(m).counters == m.acc.(manifestMemory := Finish(m).Recomputed().manifestMemory)
  {
    BlobTotalIsOnlyBlobs(m.s, ToSweep(m));
    hide BlobTotal, ToSweep, Store.Recomputed;
    ManifestPart(Finish(m));
  }

  lemma FinishCounters(lib: Library, s0: Store, m: Machine)
    requires Inv(lib, s0, m) && ManifestDrift(m.s) == 0
    ensures Finish(m).counters ==
      Finish(m).Recomputed().Plus(KeySlack(s0, Finish(m))).Plus(BlobTotal(m.s, ToSweep(m)))
  {
    hide Inv, Store.Recomputed, KeySlack, BlobTotal, Finish, ToSweep, BlobsEvolved, RedisEvolved, RefsExact, BkStable;
    hide DeletedRightly, SmallHeapOk, LargeHeapOk, DiskHeapOk, Usage.Plus, Usage.Minus, Usage.AtMost, ManifestDrift;
    var w, s1 := ToSweep(m), Finish(m);
    InvParts(lib, s0, m);
    AccIsSum(s0, m.s, m.acc);
    hide AccExact;
    FinishStores(m);
    FinishRecomputed(m);
    KeySlackSame(s0, m.s, s1);
    KeySlackNonNegative(s0, m.s);
    BlobTotalIsOnlyBlobs(m.s, w);
    PublishedAlgebra(m.acc, m.s.Recomputed(), s1.Recomputed(), KeySlack(s0, m.s), BlobTotal(m.s, w), s1.counters);
  }

  lemma ExcessAlgebra(counters: Usage, sums: Usage, slack: Usage, swept: Usage)
    requires counters == sums.Plus(slack).Plus(swept)
    requires ZERO.AtMost(slack) && slack == In(SmallRedisMemory, slack.smallRedisMemory)
    requires ZERO.AtMost(swept) && OnlyBlobs(swept)
    ensures sums.AtMost(counters)
    ensures counters.manifestMemory == sums.manifestMemory
    ensures counters.largeRedisMemory == sums.largeRedisMemory && counters.redisDisk == sums.redisDisk
  {}

  /** What a pass publishes: the sums over the maps, plus the key bytes of the
      redis entries it dropped, plus the bytes its sweep removed. Nothing of an
      earlier pass enters, so the excess never accumulates. */
  lemma {:induction false} PublishedUsage(
      lib: Library, cfg: Config, s0: Store, events: seq<Event>, states: seq<Machine>, s1: Store)
    requires s0.Owned() && IsPass(lib, cfg, s0, events, states, s1)
    requires s0.counters.manifestMemory == s0.Recomputed().manifestMemory
    ensures var m := states[|events|];
      s1.counters == s1.Recomputed().Plus(KeySlack(s0, s1)).Plus(BlobTotal(m.s, ToSweep(m)))
    ensures s1.Recomputed().AtMost(s1.counters)
    ensures s1.counters.manifestMemory == s1.Recomputed().manifestMemory
    ensures s1.counters.largeRedisMemory == s1.Recomputed().largeRedisMemory
    ensures s1.counters.redisDisk == s1.Recomputed().redisDisk
  {
    hide IsTrace, Done, Inv, Store.Owned, Store.Recomputed, KeySlack, BlobTotal, ToSweep, Usage.Plus, Usage.AtMost;
    hide Finish, OnlyBlobs, In;
    TraceInv(lib, cfg, s0, events, states, |events|);
    var m := states[|events|];
    ManifestPart(s0);
    TraceDrift(lib, cfg, s0, events, states, |events|);
    FinishCounters(lib, s0, m);
    KeySlackNonNegative(s0, s1);
    BlobTotalIsOnlyBlobs(m.s, ToSweep(m));
    ExcessAlgebra(s1.counters, s1.Recomputed(), KeySlack(s0, s1), BlobTotal(m.s, ToSweep(m)));
  }

  lemma KeySlackZeroIff(s0: Store, s: Store)
    ensures KeySlack(s0, s) == ZERO <==> forall k :: k in s0.redis && k !in s.redis ==> k == []
  {
    hide MapOf, Total;
    var dropped := s0.redis.Keys - s.redis.Keys;
    forall k: Bytes ensures KeyCharge(k) == ZERO <==> k == [] {
      assert |k| == 0 ==> k == [];
    }
    hide KeyCharge;
    TotalZeroIff(KeyCharges(dropped));
    assert forall k :: k in dropped <==> k in s0.redis && k !in s.redis;
  }

  lemma BlobTotalZeroIff(s: Store, w: set<Digest>)
    requires w <= s.blobs.Keys
    ensures BlobTotal(s, w) == ZERO <==> forall d :: d in w ==> BlobBucket(s.blobs[d]).1 == 0
  {
    hide MapOf, Total;
    forall d | d in w ensures BlobCharge(s.blobs[d]) == ZERO <==> BlobBucket(s.blobs[d]).1 == 0 {}
    hide BlobCharge;
    assert Restrict(s.blobs, w).Keys == w;
    ChargesNotNegative(Restrict(s.blobs, w));
    TotalZeroIff(BlobCharges(Restrict(s.blobs, w)));
  }

  lemma ChargesNotNegative(bs: map<Digest, Blob>)
    ensures forall d :: d in bs ==> ZERO.AtMost(BlobCharge(bs[d]))
  {}

  lemma NoExcessIff(counters: Usage, sums: Usage, slack: Usage, swept: Usage)
    requires counters == sums.Plus(slack).Plus(swept) && ZERO.AtMost(slack) && ZERO.AtMost(swept)
    ensures counters == sums <==> slack == ZERO && swept == ZERO
  {}

  /** A pass leaves exact counters exactly when every redis key it dropped was
      empty and every blob its sweep removed had no bytes. */
  lemma {:induction false} PublishedExactIff(
      lib: Library, cfg: Config, s0: Store, events: seq<Event>, states: seq<Machine>, s1: Store)
    requires s0.Owned() && IsPass(lib, cfg, s0, events, states, s1)
    requires s0.counters.manifestMemory == s0.Recomputed().manifestMemory
    ensures var m := states[|events|];
      s1.Exact() <==>
        && (forall k :: k in s0.redis && k !in s1.redis ==> k == [])
        && (forall d :: d in ToSweep(m) ==> BlobBucket(m.s.blobs[d]).1 == 0)
  {
    hide TraceStep, Initial, Done, Store.Owned, Store.Recomputed, KeySlack, BlobTotal, Usage.Plus, Usage.AtMost;
    hide Finish, OnlyBlobs, In, BlobBucket, SweepExpired;
    var m := states[|events|];
    PublishedUsage(lib, cfg, s0, events, states, s1);
    KeySlackNonNegative(s0, s1);
    BlobTotalIsOnlyBlobs(m.s, ToSweep(m));
    NoExcessIff(s1.counters, s1.Recomputed(), KeySlack(s0, s1), BlobTotal(m.s, ToSweep(m)));
    KeySlackZeroIff(s0, s1);
    BlobTotalZeroIff(m.s, ToSweep(m));
  }

  // ---- What a caller can check before the pass

  /** The store is within all three targets, or within the small one and the disk
      has room: such a pass spills at most. */
  ghost predicate DropsNothing(cfg: Config, s0: Store) {
    && !cfg.OverSmall(s0.Recomputed())
    && ((!cfg.OverMemory(s0.Recomputed()) && !cfg.OverDisk(s0.Recomputed())) || DiskHasRoom(cfg, s0))
  }

  lemma DropsNothingMeansOnlyLargePops(
      lib: Library, cfg: Config, s0: Store, events: seq<Event>, states: seq<Machine>, s1: Store, i: nat)
    requires s0.Owned() && IsPass(lib, cfg, s0, events, states, s1) && DropsNothing(cfg, s0) && i < |events|
    ensures events[i].PopLarge?
  {
    hide Store.Owned, IsPass, DiskHasRoom, Config.OverSmall, Config.OverMemory, Config.OverDisk;
    PassIsTrace(lib, cfg, s0, events, states, s1);
    if DiskHasRoom(cfg, s0) {
      OnlyLargePops(lib, cfg, s0, events, states, i);
    } else {
      NoPressureNoPops(lib, cfg, s0, events, states, s1);
    }
  }

  /** The sweep of a pass that dropped nothing takes the blobs that had no referrer
      to begin with and are past the grace window. */
  lemma SweepsUnreferenced(lib: Library, s0: Store, m: Machine, r: Digest)
    requires Inv(lib, s0, m) && NothingDropped(s0, m.s)
    ensures r in ToSweep(m) <==>
      r in s0.blobs && !RefersTo(lib, s0.manifests, r) && SweepExpired(s0.now, s0.blobs[r].lastAccessed)
    ensures r in s0.blobs ==> BlobBucket(m.s.blobs[r]).1 == BlobBucket(s0.blobs[r]).1
  {
    hide Inv, RefCount, RefersTo, SweepExpired, Store.BlobBytes, AccExact, RedisEvolved, DeletedRightly, SameContents;
    hide SmallHeapOk, LargeHeapOk, DiskHeapOk;
    InvParts(lib, s0, m);
    RefersToIffCounted(lib, m.s.manifests, r);
    ContentsRefer(lib, s0, m.s, r);
    ContentsRefer(lib, m.s, s0, r);
  }

  /** When nothing can be dropped the condition is about the store before the pass:
      the counters it leaves are exact exactly when every blob that no manifest refers
      to and that is past the grace window has no bytes. */
  lemma {:induction false} PublishedExactIffNothingToSweep(
      lib: Library, cfg: Config, s0: Store, events: seq<Event>, states: seq<Machine>, s1: Store)
    requires s0.Owned() && IsPass(lib, cfg, s0, events, states, s1) && DropsNothing(cfg, s0)
    requires s0.counters.manifestMemory == s0.Recomputed().manifestMemory
    ensures s1.Exact() <==>
      forall r :: r in s0.blobs && !RefersTo(lib, s0.manifests, r) && SweepExpired(s0.now, s0.blobs[r].lastAccessed) ==>
        BlobBucket(s0.blobs[r]).1 == 0
  {
    hide Store.Owned, IsPass, Inv, Finish, Done, ManifestsEvolved, DropsNothing, RefersTo, SweepExpired, BlobBucket;
    hide Store.Recomputed, ToSweep, Store.Exact;
    var m := LastOfPass(lib, cfg, s0, events, states, s1);
    PassIsTrace(lib, cfg, s0, events, states, s1);
    forall i | 0 <= i < |events| ensures events[i].PopLarge? {
      DropsNothingMeansOnlyLargePops(lib, cfg, s0, events, states, s1, i);
    }
    LargePopsDropNothing(lib, cfg, s0, events, states, |events|);
    PublishedExactIff(lib, cfg, s0, events, states, s1);
    forall r
      ensures r in ToSweep(m) <==>
        r in s0.blobs && !RefersTo(lib, s0.manifests, r) && SweepExpired(s0.now, s0.blobs[r].lastAccessed)
      ensures r in s0.blobs ==> BlobBucket(m.s.blobs[r]).1 == BlobBucket(s0.blobs[r]).1
    {
      SweepsUnreferenced(lib, s0, m, r);
    }
    assert forall r :: r in ToSweep(m) ==> r in s0.blobs;
  }

  // ---- Passes that drop a key

  /** The small pool is over its target, and whatever is oldest in it is a redis value
      under a key of at least one byte. */
  ghost predicate DropsAKey(cfg: Config, s0: Store) {
    && cfg.OverSmall(s0.Recomputed()) && SmallCandidates(s0) != {}
    && forall c :: Oldest(multiset(SmallCandidates(s0)), c) ==> c.RedisCandidate? && c.key != []
  }

  lemma SmallGoesFirst(lib: Library, cfg: Config, s0: Store, events: seq<Event>, states: seq<Machine>)
    requires IsTrace(lib, cfg, s0, events, states) && Done(cfg, states[|events|])
    requires cfg.OverSmall(s0.Recomputed()) && SmallCandidates(s0) != {}
    ensures |events| > 0 && |states| == |events| + 1 && events[0].PopSmall?
    ensures Oldest(multiset(SmallCandidates(s0)), events[0].c)
    ensures states[1].small == multiset(SmallCandidates(s0)) - multiset{events[0].c}
  {
    hide InitialBk, LargeCandidates, DiskCandidates, SmallCandidates, Store.Recomputed, Step, LargeTierMatches;
    hide Store.DistinctIds, Config.OverSmall, Config.OverMemory, Config.OverDisk, Oldest;
    var c :| c in SmallCandidates(s0);
    assert states[0].small == multiset(SmallCandidates(s0)) && c in states[0].small;
    if |events| > 0 {
      TraceAt(lib, cfg, s0, events, states, 0);
      StepHeaps(lib, states[0], events[0]);
    }
  }

  /** What such a pass pops first is gone when it ends. */
  lemma FirstStaysGone(lib: Library, cfg: Config, s0: Store, events: seq<Event>, states: seq<Machine>, s1: Store)
    requires s0.Owned() && IsPass(lib, cfg, s0, events, states, s1)
    requires cfg.OverSmall(s0.Recomputed()) && SmallCandidates(s0) != {}
    ensures |events| > 0 && Oldest(multiset(SmallCandidates(s0)), events[0].c) && !Cached(s1, events[0].c)
  {
    hide Store.Owned, IsPass, IsTrace, Inv, Done, Finish, ManifestsEvolved, SmallCandidates, Cached, Settled;
    hide Config.OverSmall, Store.Recomputed;
    PassIsTrace(lib, cfg, s0, events, states, s1);
    SmallGoesFirst(lib, cfg, s0, events, states);
    HeapsShrink(lib, cfg, s0, events, states, 1, |events|);
    var m := LastOfPass(lib, cfg, s0, events, states, s1);
    SmallHeapOf(lib, s0, m);
    SameCached(m.s, s1);
  }

  /** A pass over such a store with exact counters leaves counters that are not exact:
      the key it drops first stays on the counter. */
  lemma {:induction false} DroppedKeyLeavesInexactUsage(
      lib: Library, cfg: Config, s0: Store, events: seq<Event>, states: seq<Machine>, s1: Store)
    requires s0.Owned() && IsPass(lib, cfg, s0, events, states, s1) && s0.Exact() && DropsAKey(cfg, s0)
    ensures !s1.Exact() && exists k :: k in s0.redis && k !in s1.redis && k != []
  {
    hide IsPass, Store.Owned, Store.Recomputed, ToSweep, BlobBucket, Config.OverSmall, Oldest;
    FirstStaysGone(lib, cfg, s0, events, states, s1);
    var c := events[0].c;
    assert c in SmallCandidates(s0) by { OldestIsIn(SmallCandidates(s0), c); }
    hide SmallCandidates;
    assert c.key in s0.redis && c.key !in s1.redis by { SmallKeyIsThere(s0, c); }
    PublishedExactIff(lib, cfg, s0, events, states, s1);
  }

  lemma OldestIsIn(cs: set<Candidate>, c: Candidate)
    requires Oldest(multiset(cs), c)
    ensures c in cs
  {}

  lemma SmallKeyIsThere(s0: Store, c: Candidate)
    requires c in SmallCandidates(s0) && c.RedisCandidate?
    ensures c.key in s0.redis
  {}
}
