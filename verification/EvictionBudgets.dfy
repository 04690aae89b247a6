/** What is left when a pass ends over one of its budgets. */
module EvictionBudgets {
  import opened Prelude
  import opened DigestText
  import opened UsageSums
  import opened References
  import opened Cache
  import opened EvictionMachine
  import opened EvictionStore
  import opened EvictionInvariant
  import opened EvictionHeaps
  import opened EvictionTheorems
  import opened EvictionPhases

  /** The three targets are three quarters of the limits, rounded up; the small limit is
      an eighth of the memory limit when it is not set. */
  lemma {:induction false} TargetsAreThreeQuarters(cfg: Config, used: int)
    ensures used <= cfg.SmallTarget() <==>
      4 * used <= 3 * (match cfg.smallMemoryLimit case Some(n) => n case None => cfg.memoryLimit / 8) + 3
    ensures used <= cfg.MemoryTarget() <==> 4 * used <= 3 * cfg.memoryLimit + 3
    ensures used <= cfg.DiskTarget() <==> 4 * used <= 3 * cfg.diskLimit + 3
  {
    QuarterOff(used, cfg.SmallLimit());
    QuarterOff(used, cfg.memoryLimit);
    QuarterOff(used, cfg.diskLimit);
  }

  lemma QuarterOff(used: int, limit: nat)
    ensures used <= limit - limit / 4 <==> 4 * used <= 3 * limit + 3
  {}

  lemma SmallHeapEmpty(s0: Store, s: Store, heap: multiset<Candidate>)
    requires SmallHeapOk(s0, s, heap) && heap == multiset{} && ManifestsEvolved(s0, s) && RedisEvolved(s0, s)
    ensures s.manifests == map[]
    ensures forall k :: k in s.redis ==> RedisValueBucket(s.redis[k]).0 != SmallRedisMemory
  {
    hide Store.RedisValue;
    forall d | d in s0.manifests ensures CandidateOf(s0, d) in SmallCandidates(s0) {}
    forall k | k in s0.redis && RedisValueBucket(s0.redis[k]).0 == SmallRedisMemory
      ensures RedisCandidateOf(s0, k) in SmallCandidates(s0) {}
  }

  lemma LargeHeapEmpty(lib: Library, s0: Store, s: Store, heap: multiset<Candidate>)
    requires LargeHeapOk(lib, s0, s, heap) && heap == multiset{} && ManifestsEvolved(s0, s) && RedisEvolved(s0, s)
    ensures forall d :: d in s.manifests && RefersToTier(lib, s0, d, LargeMem) ==> s.manifests[d].evicted
    ensures forall k :: k in s.redis ==> RedisValueBucket(s.redis[k]).0 != LargeRedisMemory
  {
    hide Store.RedisValue, RefersToTier;
    forall d | d in s.manifests && RefersToTier(lib, s0, d, LargeMem) ensures s.manifests[d].evicted {
      assert CandidateOf(s0, d) in LargeCandidates(lib, s0);
    }
    forall k | k in s0.redis && RedisValueBucket(s0.redis[k]).0 == LargeRedisMemory
      ensures RedisCandidateOf(s0, k) in LargeCandidates(lib, s0) {}
  }

  lemma DiskHeapEmpty(lib: Library, s0: Store, s: Store, heap: multiset<Candidate>)
    requires DiskHeapOk(lib, s0, s, heap) && heap == multiset{} && ManifestsEvolved(s0, s) && RedisEvolved(s0, s)
    ensures forall d :: d in s.manifests ==>
      !RefersToTier(lib, s0, d, Disk) && (s.manifests[d].evicted ==> s0.manifests[d].evicted)
    ensures forall k :: k in s.redis ==> s.redis[k].InMemory?
  {
    hide Store.RedisValue, RefersToTier;
    forall d | d in s0.manifests && RefersToTier(lib, s0, d, Disk)
      ensures CandidateOf(s0, d) in DiskCandidates(lib, s0) {}
  }

  /** A blob that only its age keeps: no manifest refers to it. */
  predicate Stray(lib: Library, s: Store, r: Digest)
    requires r in s.blobs
  {
    !RefersTo(lib, s.manifests, r) && !SweepExpired(s.now, s.blobs[r].lastAccessed)
  }

  /** The small usage is within 75% of its limit, or no manifest and no small redis
      value is left, and of the blobs only those that their age keeps. */
  ghost predicate SmallBudgetMet(lib: Library, cfg: Config, s1: Store) {
    || 4 * s1.Recomputed().Small() <=
         3 * (match cfg.smallMemoryLimit case Some(n) => n case None => cfg.memoryLimit / 8) + 3
    || (&& s1.manifests == map[]
        && (forall k :: k in s1.redis ==> RedisValueBucket(s1.redis[k]).0 != SmallRedisMemory)
        && (forall r :: r in s1.blobs ==> Stray(lib, s1, r)))
  }

  /** Memory is within 75% of its limit, or no large redis value is in memory, every
      survivor that referred to a large blob is flagged, and the only large blobs
      still in memory are those that their age keeps. */
  ghost predicate MemoryBudgetMet(lib: Library, cfg: Config, s0: Store, s1: Store)
    requires ManifestsEvolved(s0, s1)
  {
    || 4 * s1.Recomputed().TotalMemory() <= 3 * cfg.memoryLimit + 3
    || (&& (forall d :: d in s1.manifests && RefersToTier(lib, s0, d, LargeMem) ==> s1.manifests[d].evicted)
        && (forall k :: k in s1.redis ==> RedisValueBucket(s1.redis[k]).0 != LargeRedisMemory)
        && (forall r :: r in s1.blobs && IsLargeInMemory(s1.blobs[r]) ==> Stray(lib, s1, r)))
  }

  /** `r` went to disk in this pass, for manifests that were all flagged before it;
      they have not been popped, because memory is within its target. */
  ghost predicate SpilledForFlagged(lib: Library, cfg: Config, s0: Store, s1: Store, r: Digest) {
    && r in s0.blobs && IsLargeInMemory(s0.blobs[r])
    && (forall d :: d in s1.manifests && r in ReferencedDigests(lib, s1.manifests[d].content) ==>
          d in s0.manifests && s0.manifests[d].evicted)
    && 4 * s1.Recomputed().TotalMemory() <= 3 * cfg.memoryLimit + 3
  }

  /** The disk is within 75% of its limit, or no redis value is on disk, no survivor
      referred to an on-disk blob or was flagged in this pass, and an on-disk blob
      is kept by its age or was spilled for manifests flagged earlier. */
  ghost predicate DiskBudgetMet(lib: Library, cfg: Config, s0: Store, s1: Store)
    requires ManifestsEvolved(s0, s1)
  {
    || 4 * s1.Recomputed().TotalDisk() <= 3 * cfg.diskLimit + 3
    || (&& (forall d :: d in s1.manifests ==>
              !RefersToTier(lib, s0, d, Disk) && (s1.manifests[d].evicted ==> s0.manifests[d].evicted))
        && (forall k :: k in s1.redis ==> s1.redis[k].InMemory?)
        && (forall r :: r in s1.blobs && s1.blobs[r].OnDisk? ==>
              Stray(lib, s1, r) || SpilledForFlagged(lib, cfg, s0, s1, r)))
  }

  /** What the heaps say at the end of the loop. */
  ghost predicate HeapsDrained(lib: Library, cfg: Config, s0: Store, m: Machine)
    requires ManifestsEvolved(s0, m.s)
  {
    && (cfg.OverSmall(m.acc) ==>
          && m.s.manifests == map[]
          && forall k :: k in m.s.redis ==> RedisValueBucket(m.s.redis[k]).0 != SmallRedisMemory)
    && (cfg.OverMemory(m.acc) ==>
          && (forall d :: d in m.s.manifests && RefersToTier(lib, s0, d, LargeMem) ==> m.s.manifests[d].evicted)
          && (forall k :: k in m.s.redis ==> RedisValueBucket(m.s.redis[k]).0 != LargeRedisMemory))
    && (cfg.OverDisk(m.acc) ==>
          && m.disk == multiset{}
          && (forall d :: d in m.s.manifests ==>
                !RefersToTier(lib, s0, d, Disk) && (m.s.manifests[d].evicted ==> s0.manifests[d].evicted))
          && (forall k :: k in m.s.redis ==> m.s.redis[k].InMemory?))
  }

  lemma InvHeaps(lib: Library, s0: Store, m: Machine)
    requires Inv(lib, s0, m)
    ensures RedisEvolved(s0, m.s) && HeapsOk(lib, s0, m)
  {
    InvParts(lib, s0, m);
    hide Inv, RedisEvolved, SmallHeapOk, LargeHeapOk, DiskHeapOk;
  }

  lemma DoneIsDrained(lib: Library, cfg: Config, s0: Store, m: Machine)
    requires Done(cfg, m) && ManifestsEvolved(s0, m.s) && RedisEvolved(s0, m.s) && HeapsOk(lib, s0, m)
    ensures HeapsDrained(lib, cfg, s0, m)
  {
    hide SmallHeapOk, LargeHeapOk, DiskHeapOk, ManifestsEvolved, RedisEvolved, RefersToTier, RedisValueBucket;
    if cfg.OverSmall(m.acc) {
      SmallHeapEmpty(s0, m.s, m.small);
    }
    if cfg.OverMemory(m.acc) {
      LargeHeapEmpty(lib, s0, m.s, m.large);
    }
    if cfg.OverDisk(m.acc) {
      DiskHeapEmpty(lib, s0, m.s, m.disk);
    }
  }

  /** Whatever the accumulators call within target is within three quarters of its limit. */
  lemma WithinTargets(lib: Library, cfg: Config, s0: Store, m: Machine)
    requires Inv(lib, s0, m)
    ensures var limit := match cfg.smallMemoryLimit case Some(n) => n case None => cfg.memoryLimit / 8;
      !cfg.OverSmall(m.acc) ==> 4 * Finish(m).Recomputed().Small() <= 3 * limit + 3
    ensures !cfg.OverMemory(m.acc) ==> 4 * Finish(m).Recomputed().TotalMemory() <= 3 * cfg.memoryLimit + 3
    ensures !cfg.OverDisk(m.acc) ==> 4 * Finish(m).Recomputed().TotalDisk() <= 3 * cfg.diskLimit + 3
  {
    hide Inv, Finish, Store.Recomputed, Config.SmallTarget, Config.MemoryTarget, Config.DiskTarget;
    AccCoversFinish(lib, s0, m);
    var u := Finish(m).Recomputed();
    TargetsAreThreeQuarters(cfg, u.Small());
    TargetsAreThreeQuarters(cfg, u.TotalMemory());
    TargetsAreThreeQuarters(cfg, u.TotalDisk());
  }

  /** A blob that survived without a referrer is one that its age keeps. */
  lemma UnreferencedIsStray(
      lib: Library, cfg: Config, s0: Store, events: seq<Event>, states: seq<Machine>, s1: Store, r: Digest)
    requires s0.Owned() && IsPass(lib, cfg, s0, events, states, s1) && r in s1.blobs
    ensures r in s0.blobs && SameOrSpilledBlob(s0.blobs[r], s1.blobs[r])
    ensures RefersTo(lib, s1.manifests, r) || Stray(lib, s1, r)
  {
    hide Store.Owned, IsPass, RefersTo, SweepExpired, CascadeExpired, Store.BlobBytes, ManifestsEvolved, RedisEvolved;
    hide TagsFollow, UnlinksExplained;
    PassEvolves(lib, cfg, s0, events, states, s1);
    KeepsExactlyReferencedOrFresh(lib, cfg, s0, events, states, s1, r);
  }

  /** The last machine state of a pass, and what its store has in common with the outcome. */
  lemma LastOfPass(lib: Library, cfg: Config, s0: Store, events: seq<Event>, states: seq<Machine>, s1: Store)
      returns (m: Machine)
    requires s0.Owned() && IsPass(lib, cfg, s0, events, states, s1)
    ensures |states| == |events| + 1 && m == states[|events|]
    ensures Inv(lib, s0, m) && Done(cfg, m) && s1 == Finish(m) && ManifestsEvolved(s0, m.s)
    ensures s1.manifests == m.s.manifests && s1.redis == m.s.redis && s1.now == m.s.now
    ensures forall r :: r in s1.blobs ==> r in m.s.blobs && s1.blobs[r] == m.s.blobs[r]
  {
    hide Store.Owned, TraceStep, Initial, Done, Inv, BlobTotal, ToSweep, ManifestsEvolved;
    TraceInv(lib, cfg, s0, events, states, |events|);
    m := states[|events|];
    InvManifests(lib, s0, m);
  }

  lemma SmallBudget(lib: Library, cfg: Config, s0: Store, events: seq<Event>, states: seq<Machine>, s1: Store)
    requires s0.Owned() && IsPass(lib, cfg, s0, events, states, s1)
    ensures SmallBudgetMet(lib, cfg, s1)
  {
    hide Store.Owned, IsPass, Inv, Finish, Done, Stray, RedisValueBucket, RefersToTier, Store.Recomputed;
    hide ManifestsEvolved;
    var m := LastOfPass(lib, cfg, s0, events, states, s1);
    WithinTargets(lib, cfg, s0, m);
    hide HeapsOk, RedisEvolved;
    InvHeaps(lib, s0, m);
    DoneIsDrained(lib, cfg, s0, m);
    forall r | r in s1.blobs && s1.manifests == map[] ensures Stray(lib, s1, r) {
      UnreferencedIsStray(lib, cfg, s0, events, states, s1, r);
    }
  }

  lemma MemoryBudget(lib: Library, cfg: Config, s0: Store, events: seq<Event>, states: seq<Machine>, s1: Store)
    requires s0.Owned() && IsPass(lib, cfg, s0, events, states, s1) && ManifestsEvolved(s0, s1)
    ensures MemoryBudgetMet(lib, cfg, s0, s1)
  {
    hide Store.Owned, IsPass, Inv, Finish, Done, Stray, RedisValueBucket, RefersToTier, Store.Recomputed;
    hide ManifestsEvolved;
    hide IsLargeInMemory, RefersTo;
    var m := LastOfPass(lib, cfg, s0, events, states, s1);
    WithinTargets(lib, cfg, s0, m);
    hide HeapsOk, RedisEvolved;
    InvHeaps(lib, s0, m);
    DoneIsDrained(lib, cfg, s0, m);
    if cfg.OverMemory(m.acc) {
      forall r | r in s1.blobs && IsLargeInMemory(s1.blobs[r]) ensures Stray(lib, s1, r) {
        UnreferencedIsStray(lib, cfg, s0, events, states, s1, r);
        NothingLargeLeft(lib, cfg, s0, events, states, s1, r);
      }
    }
  }

  lemma NothingLargeLeft(
      lib: Library, cfg: Config, s0: Store, events: seq<Event>, states: seq<Machine>, s1: Store, r: Digest)
    requires s0.Owned() && IsPass(lib, cfg, s0, events, states, s1) && |states| == |events| + 1
    requires cfg.OverMemory(states[|events|].acc) && r in s1.blobs && IsLargeInMemory(s1.blobs[r])
    ensures !RefersTo(lib, s1.manifests, r)
  {
    hide Store.Owned, IsPass, IsTrace, Inv, Finish, Done, ManifestsEvolved, IsLargeInMemory, RefersTo;
    hide Config.OverMemory;
    var m := LastOfPass(lib, cfg, s0, events, states, s1);
    PassIsTrace(lib, cfg, s0, events, states, s1);
    NothingHeldAtDone(lib, cfg, s0, events, states, r);
  }

  lemma PassIsTrace(lib: Library, cfg: Config, s0: Store, events: seq<Event>, states: seq<Machine>, s1: Store)
    requires IsPass(lib, cfg, s0, events, states, s1)
    ensures IsTrace(lib, cfg, s0, events, states) && Done(cfg, states[|events|])
  {
    hide TraceStep, Initial, Done, Finish;
  }

  /** A manifest that outlives disk pressure and refers to an on-disk blob was flagged
      before the pass and is still on the large heap. */
  lemma OnDiskReferrer(lib: Library, cfg: Config, s0: Store, m: Machine, d: Digest, r: Digest)
    requires Inv(lib, s0, m) && ManifestsEvolved(s0, m.s) && HeapsDrained(lib, cfg, s0, m) && cfg.OverDisk(m.acc)
    requires LargeOrDisk(lib, s0, m) && SpilledAreFlagged(lib, s0, m.s)
    requires r in m.s.blobs && m.s.blobs[r].OnDisk?
    requires d in m.s.manifests && r in ReferencedDigests(lib, m.s.manifests[d].content)
    ensures r in s0.blobs && IsLargeInMemory(s0.blobs[r])
    ensures s0.manifests[d].evicted && CandidateOf(s0, d) in m.large
  {
    hide Inv, ReferencedDigests, Store.BlobBytes, LargeCandidates, RedisValueBucket, Unevicted, RedisEvolved, RefsExact;
    hide BkStable, DeletedRightly, AccExact, SmallHeapOk, LargeHeapOk, DiskHeapOk;
    InvParts(lib, s0, m);
    assert s0.manifests[d].content == m.s.manifests[d].content;
    NotOnDiskBefore(lib, s0, d, r);
    FlaggedReferrer(lib, m.s, d, r);
    LargeReferrer(lib, s0, d, r);
  }

  lemma NotOnDiskBefore(lib: Library, s0: Store, d: Digest, r: Digest)
    requires d in s0.manifests && r in ReferencedDigests(lib, s0.manifests[d].content) && r in s0.blobs
    requires !RefersToTier(lib, s0, d, Disk)
    ensures s0.blobs[r].InMemory?
  {
    hide ReferencedDigests;
    assert TierOf(s0.blobs[r]) != Disk;
  }

  lemma FlaggedReferrer(lib: Library, s: Store, d: Digest, r: Digest)
    requires d in s.manifests && r in ReferencedDigests(lib, s.manifests[d].content)
    requires !RefersTo(lib, Unevicted(s.manifests), r)
    ensures s.manifests[d].evicted
  {
    hide ReferencedDigests;
    assert !s.manifests[d].evicted ==> d in Unevicted(s.manifests);
  }

  lemma LargeReferrer(lib: Library, s0: Store, d: Digest, r: Digest)
    requires d in s0.manifests && r in ReferencedDigests(lib, s0.manifests[d].content)
    requires r in s0.blobs && IsLargeInMemory(s0.blobs[r])
    ensures CandidateOf(s0, d) in LargeCandidates(lib, s0)
  {
    hide ReferencedDigests;
    assert TierOf(s0.blobs[r]) == LargeMem;
    assert RefersToTier(lib, s0, d, LargeMem);
  }

  lemma OnDiskAtDone(lib: Library, cfg: Config, s0: Store, m: Machine, r: Digest)
    requires Inv(lib, s0, m) && Done(cfg, m) && ManifestsEvolved(s0, m.s) && HeapsDrained(lib, cfg, s0, m)
    requires LargeOrDisk(lib, s0, m) && SpilledAreFlagged(lib, s0, m.s) && cfg.OverDisk(m.acc)
    requires r in m.s.blobs && m.s.blobs[r].OnDisk? && RefersTo(lib, m.s.manifests, r)
    ensures r in s0.blobs && IsLargeInMemory(s0.blobs[r]) && !cfg.OverMemory(m.acc)
    ensures forall d :: d in m.s.manifests && r in ReferencedDigests(lib, m.s.manifests[d].content) ==>
      d in s0.manifests && s0.manifests[d].evicted
  {
    hide Inv, ReferencedDigests, IsLargeInMemory, LargeOrDisk, SpilledAreFlagged, HeapsDrained, CandidateOf;
    forall d | d in m.s.manifests && r in ReferencedDigests(lib, m.s.manifests[d].content)
      ensures d in s0.manifests && s0.manifests[d].evicted
    {
      OnDiskReferrer(lib, cfg, s0, m, d, r);
    }
    var d :| d in m.s.manifests && r in ReferencedDigests(lib, m.s.manifests[d].content);
    OnDiskReferrer(lib, cfg, s0, m, d, r);
    assert m.large != multiset{};
  }

  lemma DiskBudget(lib: Library, cfg: Config, s0: Store, events: seq<Event>, states: seq<Machine>, s1: Store)
    requires s0.Owned() && IsPass(lib, cfg, s0, events, states, s1) && ManifestsEvolved(s0, s1)
    ensures DiskBudgetMet(lib, cfg, s0, s1)
  {
    hide Store.Owned, IsPass, Inv, Finish, Done, Stray, RedisValueBucket, RefersToTier, Store.Recomputed;
    hide ManifestsEvolved;
    hide IsLargeInMemory, RefersTo, LargeOrDisk, SpilledAreFlagged, ReferencedDigests, SpilledForFlagged;
    var m := LastOfPass(lib, cfg, s0, events, states, s1);
    WithinTargets(lib, cfg, s0, m);
    hide HeapsOk, RedisEvolved;
    InvHeaps(lib, s0, m);
    DoneIsDrained(lib, cfg, s0, m);
    PassIsTrace(lib, cfg, s0, events, states, s1);
    DiskFacts(lib, cfg, s0, events, states, |events|);
    if cfg.OverDisk(m.acc) {
      forall r | r in s1.blobs && s1.blobs[r].OnDisk?
        ensures Stray(lib, s1, r) || SpilledForFlagged(lib, cfg, s0, s1, r)
      {
        UnreferencedIsStray(lib, cfg, s0, events, states, s1, r);
        if RefersTo(lib, s1.manifests, r) {
          SpilledWhenShort(lib, cfg, s0, m, s1, r);
        }
      }
    }
  }

  lemma SpilledWhenShort(lib: Library, cfg: Config, s0: Store, m: Machine, s1: Store, r: Digest)
    requires Inv(lib, s0, m) && Done(cfg, m) && s1 == Finish(m) && ManifestsEvolved(s0, m.s)
    requires HeapsDrained(lib, cfg, s0, m) && LargeOrDisk(lib, s0, m) && SpilledAreFlagged(lib, s0, m.s)
    requires cfg.OverDisk(m.acc) && r in m.s.blobs && m.s.blobs[r].OnDisk? && s1.manifests == m.s.manifests
    requires RefersTo(lib, s1.manifests, r)
    ensures SpilledForFlagged(lib, cfg, s0, s1, r)
  {
    hide Inv, Finish, Done, Store.Recomputed, ManifestsEvolved, IsLargeInMemory, RefersTo, LargeOrDisk;
    hide SpilledAreFlagged, ReferencedDigests, HeapsDrained, Config.OverMemory, Config.OverDisk;
    WithinTargets(lib, cfg, s0, m);
    OnDiskAtDone(lib, cfg, s0, m, r);
  }

  /** All three budgets at the end of a pass. */
  lemma {:induction false} BudgetsMet(
      lib: Library, cfg: Config, s0: Store, events: seq<Event>, states: seq<Machine>, s1: Store)
    requires s0.Owned() && IsPass(lib, cfg, s0, events, states, s1)
    ensures ManifestsEvolved(s0, s1)
    ensures SmallBudgetMet(lib, cfg, s1) && MemoryBudgetMet(lib, cfg, s0, s1) && DiskBudgetMet(lib, cfg, s0, s1)
  {
    hide Store.Owned, IsPass, ManifestsEvolved, BlobsEvolved, RedisEvolved, TagsFollow, UnlinksExplained;
    hide SmallBudgetMet, MemoryBudgetMet, DiskBudgetMet;
    PassEvolves(lib, cfg, s0, events, states, s1);
    SmallBudget(lib, cfg, s0, events, states, s1);
    MemoryBudget(lib, cfg, s0, events, states, s1);
    DiskBudget(lib, cfg, s0, events, states, s1);
  }

  // ---- When there is nothing to do

  /** A pass pops nothing exactly if each usage is within three quarters of its limit or
      the pool that budget is served from is empty: no manifest and no small redis value;
      no large value in memory and no manifest with a large blob there; no value on disk
      and no manifest with a blob there. */
  lemma {:induction false} PopsNothingIff(
      lib: Library, cfg: Config, s0: Store, events: seq<Event>, states: seq<Machine>, s1: Store)
    requires IsPass(lib, cfg, s0, events, states, s1)
    ensures var u := s0.Recomputed();
      var small, large := u.manifestMemory + u.smallBlobMemory + u.smallRedisMemory,
        u.largeBlobMemory + u.largeRedisMemory;
      var limit := match cfg.smallMemoryLimit case Some(n) => n case None => cfg.memoryLimit / 8;
      events == [] <==>
        && (4 * small <= 3 * limit + 3 || NoSmallItems(s0))
        && (4 * (small + large) <= 3 * cfg.memoryLimit + 3 || NothingIn(lib, s0, LargeMem, LargeRedisMemory))
        && (4 * (u.blobDisk + u.redisDisk) <= 3 * cfg.diskLimit + 3 || NothingIn(lib, s0, Disk, RedisDisk))
  {
    hide Store.Recomputed, Config.SmallTarget, Config.MemoryTarget, Config.DiskTarget, IsTrace, Finish;
    hide SmallCandidates, LargeCandidates, DiskCandidates, NoSmallItems, NothingIn;
    var u := s0.Recomputed();
    TargetsAreThreeQuarters(cfg, u.Small());
    TargetsAreThreeQuarters(cfg, u.TotalMemory());
    TargetsAreThreeQuarters(cfg, u.TotalDisk());
    NothingOffered(lib, s0);
    FirstState(lib, cfg, s0, events, states);
    if events != [] {
      TraceAt(lib, cfg, s0, events, states, 0);
      hide Step, LargeTierMatches, Store.DistinctIds, Oldest;
    }
  }

  /** No manifest that refers to a blob of this tier and no redis value in this bucket. */
  ghost predicate NothingIn(lib: Library, s: Store, tier: BlobTier, bucket: Bucket) {
    && (forall d :: d in s.manifests ==> !RefersToTier(lib, s, d, tier))
    && (forall k :: k in s.redis ==> RedisValueBucket(s.redis[k]).0 != bucket)
  }

  lemma NothingOffered(lib: Library, s: Store)
    ensures SmallCandidates(s) == {} <==> NoSmallItems(s)
    ensures LargeCandidates(lib, s) == {} <==> NothingIn(lib, s, LargeMem, LargeRedisMemory)
    ensures DiskCandidates(lib, s) == {} <==> NothingIn(lib, s, Disk, RedisDisk)
  {
    hide RefersToTier;
    forall d | d in s.manifests
      ensures CandidateOf(s, d) in SmallCandidates(s)
      ensures RefersToTier(lib, s, d, LargeMem) ==> CandidateOf(s, d) in LargeCandidates(lib, s)
      ensures RefersToTier(lib, s, d, Disk) ==> CandidateOf(s, d) in DiskCandidates(lib, s)
    {}
    forall k | k in s.redis
      ensures RedisValueBucket(s.redis[k]).0 == SmallRedisMemory ==> RedisCandidateOf(s, k) in SmallCandidates(s)
      ensures RedisValueBucket(s.redis[k]).0 == LargeRedisMemory ==> RedisCandidateOf(s, k) in LargeCandidates(lib, s)
      ensures RedisValueBucket(s.redis[k]).0 == RedisDisk ==> RedisCandidateOf(s, k) in DiskCandidates(lib, s)
    {}
    assert s.manifests == map[] <==> forall d :: d !in s.manifests;
  }

  lemma FirstState(lib: Library, cfg: Config, s0: Store, events: seq<Event>, states: seq<Machine>)
    requires IsTrace(lib, cfg, s0, events, states)
    ensures |states| == |events| + 1 && states[0].acc == s0.Recomputed()
    ensures states[0].small == multiset{} <==> SmallCandidates(s0) == {}
    ensures states[0].large == multiset{} <==> LargeCandidates(lib, s0) == {}
    ensures states[0].disk == multiset{} <==> DiskCandidates(lib, s0) == {}
  {
    hide TraceStep, InitialBk, Store.Recomputed, SmallCandidates, LargeCandidates, DiskCandidates;
    EmptyBag(SmallCandidates(s0));
    EmptyBag(LargeCandidates(lib, s0));
    EmptyBag(DiskCandidates(lib, s0));
  }

  lemma EmptyBag(cs: set<Candidate>)
    ensures multiset(cs) == multiset{} <==> cs == {}
  {
    assert forall c :: c in multiset(cs) <==> c in cs;
    if cs != {} {
      var c :| c in cs;
      assert c in multiset(cs);
    }
  }

  // ---- The bytes of dropped keys count until the end of the pass

  /** The bytes of all redis keys. */
  ghost function KeyBytes(s: Store): int {
    Total(KeyCharges(s.redis.Keys)).smallRedisMemory
  }

  lemma KeysAreCharged(s: Store)
    ensures KeyBytes(s) <= s.Recomputed().smallRedisMemory
  {
    hide MapOf, Total;
    forall k | k in s.redis ensures KeyCharge(k).AtMost(RedisCharge(k, s.redis[k])) {}
    hide KeyCharge, RedisCharge, ManifestCharges, BlobCharges;
    TotalAtMost(KeyCharges(s.redis.Keys), RedisCharges(s.redis));
  }

  /** Every key of the start is either still charged or kept on the accumulator. */
  lemma NoKeyIsLost(s0: Store, s: Store)
    requires s.redis.Keys <= s0.redis.Keys
    ensures KeyBytes(s0) == KeyBytes(s) + KeySlack(s0, s).smallRedisMemory
  {
    hide KeyCharge, MapOf, Total;
    var all, left := KeyCharges(s0.redis.Keys), s.redis.Keys;
    assert Restrict(all, left) == KeyCharges(left);
    assert all - left == KeyCharges(s0.redis.Keys - left);
    TotalSplit(all, left);
  }

  lemma AccHoldsKeys(lib: Library, s0: Store, m: Machine)
    requires Inv(lib, s0, m)
    ensures var kept, s1 := KeySlack(s0, m.s).smallRedisMemory, Finish(m);
      && s1.Recomputed().Small() + kept <= m.acc.Small()
      && s1.Recomputed().TotalMemory() + kept <= m.acc.TotalMemory()
  {
    hide Inv, Store.Recomputed, KeySlack, BlobTotal, Finish, ToSweep, BkStable, RefsExact, BlobsEvolved, RedisEvolved;
    hide DeletedRightly, SmallHeapOk, LargeHeapOk, DiskHeapOk;
    InvParts(lib, s0, m);
    FinishRecomputed(m);
    BlobTotalIsOnlyBlobs(m.s, ToSweep(m));
  }

  /** The loop stops only when the usage it leaves and the bytes of the keys it dropped
      are together within the target, or the budget has nothing left to evict. */
  lemma {:induction false} KeptKeysCount(
      lib: Library, cfg: Config, s0: Store, events: seq<Event>, states: seq<Machine>, s1: Store)
    requires s0.Owned() && IsPass(lib, cfg, s0, events, states, s1)
    ensures var kept := KeySlack(s0, s1).smallRedisMemory;
      && (4 * (s1.Recomputed().Small() + kept) <=
            3 * (match cfg.smallMemoryLimit case Some(n) => n case None => cfg.memoryLimit / 8) + 3
          || NoSmallItems(s1))
      && (4 * (s1.Recomputed().TotalMemory() + kept) <= 3 * cfg.memoryLimit + 3 || NoLargeItems(lib, s1))
  {
    hide Store.Owned, IsPass, Inv, Finish, Done, Stray, RedisValueBucket, Store.Recomputed, KeySlack, IsLargeInMemory;
    hide HeapsOk, ManifestsEvolved, RefersTo, RefersToTier;
    var m := LastOfPass(lib, cfg, s0, events, states, s1);
    AccHoldsKeys(lib, s0, m);
    KeySlackSame(s0, m.s, s1);
    TargetsAreThreeQuarters(cfg, m.acc.Small());
    TargetsAreThreeQuarters(cfg, m.acc.TotalMemory());
    hide RedisEvolved;
    InvHeaps(lib, s0, m);
    DoneIsDrained(lib, cfg, s0, m);
    if cfg.OverMemory(m.acc) {
      forall r | r in s1.blobs && IsLargeInMemory(s1.blobs[r]) ensures !RefersTo(lib, s1.manifests, r) {
        NothingLargeLeft(lib, cfg, s0, events, states, s1, r);
      }
    }
  }

  /** No manifest and no small redis value. */
  predicate NoSmallItems(s: Store) {
    s.manifests == map[] && forall k :: k in s.redis ==> RedisValueBucket(s.redis[k]).0 != SmallRedisMemory
  }

  /** No large redis value in memory, and no large blob that a manifest refers to. */
  ghost predicate NoLargeItems(lib: Library, s: Store) {
    && (forall k :: k in s.redis ==> RedisValueBucket(s.redis[k]).0 != LargeRedisMemory)
    && (forall r :: r in s.blobs && IsLargeInMemory(s.blobs[r]) ==> !RefersTo(lib, s.manifests, r))
  }

  /** When the keys alone are over the small target, dropping their entries never
      brings the accumulator within it: the pass goes on until no small item is left. */
  lemma {:induction false} KeysAloneDriveEverythingOut(
      lib: Library, cfg: Config, s0: Store, events: seq<Event>, states: seq<Machine>, s1: Store)
    requires s0.Owned() && IsPass(lib, cfg, s0, events, states, s1)
    requires 4 * KeyBytes(s0) > 3 * (match cfg.smallMemoryLimit case Some(n) => n case None => cfg.memoryLimit / 8) + 3
    ensures NoSmallItems(s1)
  {
    hide Store.Owned, IsPass, KeySlack, KeyBytes, NoSmallItems, NoLargeItems, RedisEvolved, BlobsEvolved;
    hide ManifestsEvolved, TagsFollow, UnlinksExplained;
    KeptKeysCount(lib, cfg, s0, events, states, s1);
    KeysStay(lib, cfg, s0, events, states, s1);
    NoKeyIsLost(s0, s1);
    KeysAreCharged(s1);
    RecomputedNonNegative(s1);
    hide Store.Recomputed;
  }

  lemma KeysStay(lib: Library, cfg: Config, s0: Store, events: seq<Event>, states: seq<Machine>, s1: Store)
    requires s0.Owned() && IsPass(lib, cfg, s0, events, states, s1)
    ensures s1.redis.Keys <= s0.redis.Keys
  {
    hide IsPass, Store.Owned, Store.RedisValue, ManifestsEvolved, BlobsEvolved, TagsFollow, UnlinksExplained;
    PassEvolves(lib, cfg, s0, events, states, s1);
  }
}
