/** What the three candidate heaps hold during a pass, stale entries included,
    and the pass invariant that combines it with `Core`. */
module EvictionHeaps {
  import opened Prelude
  import opened DigestText
  import opened UsageSums
  import opened References
  import opened Cache
  import opened EvictionMachine
  import opened EvictionStore
  import opened EvictionInvariant

  /** The item a candidate stands for is still in its map. */
  predicate Cached(s: Store, c: Candidate) {
    match c
    case ManifestCandidate(_, d) => d in s.manifests
    case RedisCandidate(_, k, _) => k in s.redis
  }

  /** Gone, or on disk, or flagged: what the pop of a large candidate leaves. A flagged
      manifest may still hold large blobs in memory. */
  predicate Settled(s: Store, c: Candidate) {
    match c
    case ManifestCandidate(_, d) => d in s.manifests ==> s.manifests[d].evicted
    case RedisCandidate(_, k, _) => k in s.redis ==> s.redis[k].OnDisk?
  }

  ghost predicate SmallHeapOk(s0: Store, s: Store, heap: multiset<Candidate>) {
    && (forall c :: c in heap ==> c in SmallCandidates(s0))
    && (forall c :: c in SmallCandidates(s0) && Cached(s, c) ==> c in heap)
  }

  ghost predicate LargeHeapOk(lib: Library, s0: Store, s: Store, heap: multiset<Candidate>) {
    && (forall c :: c in heap ==> c in LargeCandidates(lib, s0))
    && (forall c :: c in LargeCandidates(lib, s0) && !Settled(s, c) ==> c in heap)
  }

  /** A candidate describes the item of `s0` it stands for. */
  predicate Describes(s0: Store, c: Candidate) {
    match c
    case ManifestCandidate(_, d) => d in s0.manifests && c == CandidateOf(s0, d)
    case RedisCandidate(_, k, _) => k in s0.redis && c == RedisCandidateOf(s0, k)
  }

  ghost predicate DiskHeapOk(lib: Library, s0: Store, s: Store, heap: multiset<Candidate>) {
    && (forall c :: c in heap ==> Describes(s0, c) && (c.RedisCandidate? ==> Settled(s, c)))
    && (forall c :: c in DiskCandidates(lib, s0) && Cached(s, c) ==> c in heap)
    && (forall d :: d in s.manifests && d in s0.manifests && s.manifests[d].evicted && !s0.manifests[d].evicted ==>
          CandidateOf(s0, d) in heap)
    && (forall k :: k in s.redis && k in s0.redis && s.redis[k].OnDisk? ==> RedisCandidateOf(s0, k) in heap)
  }

  ghost predicate Inv(lib: Library, s0: Store, m: Machine) {
    && Core(lib, s0, m)
    && SmallHeapOk(s0, m.s, m.small) && LargeHeapOk(lib, s0, m.s, m.large) && DiskHeapOk(lib, s0, m.s, m.disk)
  }

  // ---- The start

  lemma InitialCore(lib: Library, s0: Store)
    requires s0.Owned()
    ensures Core(lib, s0, Initial(lib, s0))
  {
    EvolvedReflexive(s0);
    hide Store.Owned, Evolved, RefCount, Store.Recomputed;
    assert s0.redis.Keys - s0.redis.Keys == {};
    assert KeyCharges({}) == map[];
    assert KeySlack(s0, s0) == ZERO;
  }

  lemma InitialInv(lib: Library, s0: Store)
    requires s0.Owned()
    ensures Inv(lib, s0, Initial(lib, s0))
  {
    InitialCore(lib, s0);
    hide Core, InitialBk, Store.Recomputed;
    InitialHeaps(lib, s0);
  }

  lemma InitialHeaps(lib: Library, s0: Store)
    ensures SmallHeapOk(s0, s0, multiset(SmallCandidates(s0)))
    ensures LargeHeapOk(lib, s0, s0, multiset(LargeCandidates(lib, s0)))
    ensures DiskHeapOk(lib, s0, s0, multiset(DiskCandidates(lib, s0)))
  {
    InitialDiskHeap(lib, s0);
    hide RefersToTier, DiskHeapOk, SmallCandidates, LargeCandidates;
  }

  lemma InitialDiskHeap(lib: Library, s0: Store)
    ensures DiskHeapOk(lib, s0, s0, multiset(DiskCandidates(lib, s0)))
  {
    hide RefersToTier;
    forall k | k in s0.redis && s0.redis[k].OnDisk? ensures RedisCandidateOf(s0, k) in DiskCandidates(lib, s0) {
      assert RedisValueBucket(s0.redis[k]).0 == RedisDisk;
    }
  }

  // ---- Pops

  /** `s'` has nothing but manifests and redis entries of `s`, unchanged. */
  ghost predicate Shrinks(s: Store, s': Store) {
    && (forall d :: d in s'.manifests ==> d in s.manifests && s'.manifests[d] == s.manifests[d])
    && (forall k :: k in s'.redis ==> k in s.redis && s'.redis[k] == s.redis[k])
  }

  lemma ShrinkKeepsHeaps(lib: Library, s0: Store, m: Machine, s': Store)
    requires Shrinks(m.s, s')
    ensures SmallHeapOk(s0, m.s, m.small) ==> SmallHeapOk(s0, s', m.small)
    ensures LargeHeapOk(lib, s0, m.s, m.large) ==> LargeHeapOk(lib, s0, s', m.large)
    ensures DiskHeapOk(lib, s0, m.s, m.disk) ==> DiskHeapOk(lib, s0, s', m.disk)
  {
    hide SmallCandidates, LargeCandidates, DiskCandidates, CandidateOf, RedisCandidateOf;
  }

  lemma PopKeepsSmall(s0: Store, s: Store, heap: multiset<Candidate>, c: Candidate)
    requires SmallHeapOk(s0, s, heap) && !Cached(s, c)
    ensures SmallHeapOk(s0, s, heap - multiset{c})
  {
    hide SmallCandidates;
  }

  lemma PopKeepsLarge(lib: Library, s0: Store, s: Store, heap: multiset<Candidate>, c: Candidate)
    requires LargeHeapOk(lib, s0, s, heap) && Settled(s, c)
    ensures LargeHeapOk(lib, s0, s, heap - multiset{c})
  {
    hide LargeCandidates;
  }

  lemma PopKeepsDisk(lib: Library, s0: Store, s: Store, heap: multiset<Candidate>, c: Candidate)
    requires DiskHeapOk(lib, s0, s, heap) && !Cached(s, c)
    ensures DiskHeapOk(lib, s0, s, heap - multiset{c})
  {
    hide DiskCandidates;
  }

  lemma DropManifestShrinks(lib: Library, m: Machine, d: Digest)
    ensures Shrinks(m.s, DropManifest(lib, m, d).s) && d !in DropManifest(lib, m, d).s.manifests
  {
    hide BlobTotal, DroppedBk, ToDelete, ManifestCharge;
  }

  lemma DropRedisShrinks(m: Machine, k: Bytes, u: Usage)
    ensures Shrinks(m.s, DropRedis(m, k, u).s) && k !in DropRedis(m, k, u).s.redis
  {
    hide RedisCharge;
  }

  ghost predicate HeapsOk(lib: Library, s0: Store, m: Machine) {
    SmallHeapOk(s0, m.s, m.small) && LargeHeapOk(lib, s0, m.s, m.large) && DiskHeapOk(lib, s0, m.s, m.disk)
  }

  /** A candidate that leaves the small or the disk heap leaves the cache. */
  lemma DropKeepsHeaps(lib: Library, s0: Store, m: Machine, m': Machine, ev: Event)
    requires HeapsOk(lib, s0, m) && !ev.PopLarge? && Shrinks(m.s, m'.s) && !Cached(m'.s, ev.c)
    requires m'.small == if ev.PopSmall? then m.small - multiset{ev.c} else m.small
    requires m'.large == m.large
    requires m'.disk == if ev.PopDisk? then m.disk - multiset{ev.c} else m.disk
    ensures HeapsOk(lib, s0, m')
  {
    hide SmallHeapOk, LargeHeapOk, DiskHeapOk, Shrinks, Cached;
    ShrinkKeepsHeaps(lib, s0, m, m'.s);
    if ev.PopSmall? {
      PopKeepsSmall(s0, m'.s, m.small, ev.c);
    } else {
      PopKeepsDisk(lib, s0, m'.s, m.disk, ev.c);
    }
  }

  /** Only the item `c` stands for differs between `s` and `s'`. */
  ghost predicate TouchesOnly(s: Store, s': Store, c: Candidate) {
    && s'.manifests.Keys == s.manifests.Keys && s'.redis.Keys == s.redis.Keys
    && (forall d :: d in s.manifests && (c.ManifestCandidate? ==> d != c.digest) ==> s'.manifests[d] == s.manifests[d])
    && (forall k :: k in s.redis && (c.RedisCandidate? ==> k != c.key) ==> s'.redis[k] == s.redis[k])
  }

  lemma SpillKeepsSmall(s0: Store, s: Store, s': Store, heap: multiset<Candidate>, c: Candidate)
    requires SmallHeapOk(s0, s, heap) && TouchesOnly(s, s', c)
    ensures SmallHeapOk(s0, s', heap)
  {
    hide SmallCandidates;
  }

  lemma SpillKeepsLarge(lib: Library, s0: Store, s: Store, s': Store, heap: multiset<Candidate>, c: Candidate)
    requires LargeHeapOk(lib, s0, s, heap) && TouchesOnly(s, s', c) && Settled(s', c)
    ensures LargeHeapOk(lib, s0, s', heap - multiset{c})
  {
    hide LargeCandidates;
    forall x | x in LargeCandidates(lib, s0) && !Settled(s', x) ensures x in heap - multiset{c} {
      assert !Settled(s, x) && x != c;
    }
  }

  lemma SpillKeepsDisk(lib: Library, s0: Store, s: Store, s': Store, heap: multiset<Candidate>, c: Candidate)
    requires DiskHeapOk(lib, s0, s, heap) && TouchesOnly(s, s', c) && Settled(s', c) && Describes(s0, c)
    ensures DiskHeapOk(lib, s0, s', heap + multiset{c})
  {
    hide DiskCandidates;
  }

  /** A candidate that leaves the large heap is settled, and is on the disk heap
      when the pop changed anything. */
  lemma SpillKeepsHeaps(lib: Library, s0: Store, m: Machine, m': Machine, c: Candidate)
    requires HeapsOk(lib, s0, m) && Describes(s0, c) && Settled(m'.s, c) && TouchesOnly(m.s, m'.s, c)
    requires m'.small == m.small && m'.large == m.large - multiset{c} && m'.disk == m.disk + multiset{c}
    ensures HeapsOk(lib, s0, m')
  {
    hide SmallHeapOk, LargeHeapOk, DiskHeapOk, TouchesOnly, Settled, Describes;
    SpillKeepsSmall(s0, m.s, m'.s, m.small, c);
    SpillKeepsLarge(lib, s0, m.s, m'.s, m.large, c);
    SpillKeepsDisk(lib, s0, m.s, m'.s, m.disk, c);
  }

  lemma StaleKeepsHeaps(lib: Library, s0: Store, m: Machine, m': Machine, c: Candidate)
    requires HeapsOk(lib, s0, m) && Settled(m.s, c)
    requires m' == m.(large := m.large - multiset{c})
    ensures HeapsOk(lib, s0, m')
  {
    hide SmallHeapOk, LargeHeapOk, DiskHeapOk, Settled;
    PopKeepsLarge(lib, s0, m.s, m.large, c);
  }

  // ---- Every pop keeps the invariant

  lemma SmallEntryMatches(s0: Store, s: Store, c: Candidate)
    requires RedisEvolved(s0, s) && c in SmallCandidates(s0) && c.RedisCandidate? && c.key in s.redis
    ensures ValueCharge(s.redis[c.key]) == In(SmallRedisMemory, c.size)
  {
    hide Store.RedisValue;
    assert c == RedisCandidateOf(s0, c.key) && RedisValueBucket(s0.redis[c.key]).0 == SmallRedisMemory;
  }

  lemma DiskEntryMatches(lib: Library, s0: Store, s: Store, heap: multiset<Candidate>, c: Candidate)
    requires RedisEvolved(s0, s) && DiskHeapOk(lib, s0, s, heap) && c in heap && c.RedisCandidate? && c.key in s.redis
    ensures ValueCharge(s.redis[c.key]) == In(RedisDisk, c.size)
  {
    hide Store.RedisValue, DiskCandidates;
  }

  lemma LargeEntryMatches(lib: Library, s0: Store, s: Store, c: Candidate)
    requires RedisEvolved(s0, s) && c in LargeCandidates(lib, s0)
    ensures Describes(s0, c)
    ensures c.RedisCandidate? && c.key in s.redis && s.redis[c.key].InMemory? ==> MatchesLarge(c, s.redis[c.key])
  {
    hide Store.RedisValue, RefersToTier;
    if c.RedisCandidate? {
      assert c == RedisCandidateOf(s0, c.key) && RedisValueBucket(s0.redis[c.key]).0 == LargeRedisMemory;
    }
  }

  lemma StepSmall(lib: Library, s0: Store, m: Machine, c: Candidate)
    requires Inv(lib, s0, m) && LargeTierMatches(m) && c in m.small
    ensures Inv(lib, s0, Step(lib, m, PopSmall(c)))
  {
    assert c in SmallCandidates(s0) && RedisEvolved(s0, m.s) && m.s.DistinctIds();
    hide SmallHeapOk, LargeHeapOk, DiskHeapOk, SmallCandidates, RedisEvolved, DropManifest, DropRedis, Shrinks;
    hide ValueCharge, In;
    var m1 := m.(small := m.small - multiset{c});
    assert Core(lib, s0, m1);
    hide Core;
    match c {
      case ManifestCandidate(_, d) =>
        DropManifestCore(lib, s0, m1, d);
        DropManifestHeaps(lib, m1, d);
        DropManifestShrinks(lib, m1, d);
        DropKeepsHeaps(lib, s0, m, DropManifest(lib, m1, d), PopSmall(c));
      case RedisCandidate(_, k, size) =>
        if k in m.s.redis {
          SmallEntryMatches(s0, m.s, c);
        }
        DropRedisCore(lib, s0, m1, k, In(SmallRedisMemory, size));
        DropRedisHeaps(m1, k, In(SmallRedisMemory, size));
        DropRedisShrinks(m1, k, In(SmallRedisMemory, size));
        DropKeepsHeaps(lib, s0, m, DropRedis(m1, k, In(SmallRedisMemory, size)), PopSmall(c));
    }
  }

  lemma StepDisk(lib: Library, s0: Store, m: Machine, c: Candidate)
    requires Inv(lib, s0, m) && LargeTierMatches(m) && c in m.disk
    ensures Inv(lib, s0, Step(lib, m, PopDisk(c)))
  {
    assert RedisEvolved(s0, m.s) && m.s.DistinctIds();
    hide SmallHeapOk, LargeHeapOk, DiskHeapOk, RedisEvolved, DropManifest, DropRedis, Shrinks, ValueCharge, In;
    var m1 := m.(disk := m.disk - multiset{c});
    assert Core(lib, s0, m1);
    hide Core;
    match c {
      case ManifestCandidate(_, d) =>
        DropManifestCore(lib, s0, m1, d);
        DropManifestHeaps(lib, m1, d);
        DropManifestShrinks(lib, m1, d);
        DropKeepsHeaps(lib, s0, m, DropManifest(lib, m1, d), PopDisk(c));
      case RedisCandidate(_, k, size) =>
        if k in m.s.redis {
          DiskEntryMatches(lib, s0, m.s, m.disk, c);
        }
        DropRedisCore(lib, s0, m1, k, In(RedisDisk, size));
        DropRedisHeaps(m1, k, In(RedisDisk, size));
        DropRedisShrinks(m1, k, In(RedisDisk, size));
        DropKeepsHeaps(lib, s0, m, DropRedis(m1, k, In(RedisDisk, size)), PopDisk(c));
    }
  }

  lemma SpillManifestTouches(lib: Library, m: Machine, c: Candidate)
    requires c.ManifestCandidate? && m.s.DistinctIds() && LargeTierMatches(m) && c.digest in m.s.manifests
    ensures var m' := SpillManifest(lib, m, c);
      && TouchesOnly(m.s, m'.s, c) && Settled(m'.s, c)
      && m'.small == m.small && m'.large == m.large && m'.disk == m.disk + multiset{c}
  {
    hide BlobTotal, SpilledBk, ToSpill, Moved, SpillIn, SpillFiles;
  }

  lemma SpillRedisTouches(m: Machine, c: Candidate)
    requires c.RedisCandidate? && c.key in m.s.redis && m.s.redis[c.key].InMemory?
    ensures var m' := SpillRedisCandidate(m, c);
      && TouchesOnly(m.s, m'.s, c) && Settled(m'.s, c)
      && m'.small == m.small && m'.large == m.large && m'.disk == m.disk + multiset{c}
  {}

  lemma StepLargeManifest(lib: Library, s0: Store, m: Machine, m1: Machine, c: Candidate)
    requires Core(lib, s0, m1) && HeapsOk(lib, s0, m) && LargeTierMatches(m1) && m1.s.DistinctIds()
    requires c.ManifestCandidate? && Describes(s0, c) && m1 == m.(large := m.large - multiset{c})
    ensures Core(lib, s0, SpillManifest(lib, m1, c)) && HeapsOk(lib, s0, SpillManifest(lib, m1, c))
  {
    hide Core, HeapsOk, TouchesOnly, Describes, LargeTierMatches, Store.DistinctIds;
    SpillManifestCore(lib, s0, m1, c);
    if c.digest in m.s.manifests {
      SpillManifestTouches(lib, m1, c);
      hide SpillManifest, Settled;
      SpillKeepsHeaps(lib, s0, m, SpillManifest(lib, m1, c), c);
    } else {
      StaleKeepsHeaps(lib, s0, m, m1, c);
    }
  }

  lemma StepLargeRedis(lib: Library, s0: Store, m: Machine, m1: Machine, c: Candidate)
    requires Core(lib, s0, m1) && HeapsOk(lib, s0, m)
    requires c.RedisCandidate? && Describes(s0, c) && m1 == m.(large := m.large - multiset{c})
    requires c.key in m.s.redis && m.s.redis[c.key].InMemory? ==> MatchesLarge(c, m.s.redis[c.key])
    ensures Core(lib, s0, SpillRedisCandidate(m1, c)) && HeapsOk(lib, s0, SpillRedisCandidate(m1, c))
  {
    hide Core, HeapsOk, TouchesOnly, Describes, MatchesLarge;
    SpillRedisCore(lib, s0, m1, c);
    if c.key in m.s.redis && m.s.redis[c.key].InMemory? {
      SpillRedisTouches(m1, c);
      hide SpillRedisCandidate, Settled;
      SpillKeepsHeaps(lib, s0, m, SpillRedisCandidate(m1, c), c);
    } else {
      StaleKeepsHeaps(lib, s0, m, m1, c);
    }
  }

  /** What the invariant says about a candidate about to leave the large heap. */
  lemma LargePopFacts(lib: Library, s0: Store, m: Machine, m1: Machine, c: Candidate)
    requires Inv(lib, s0, m) && LargeTierMatches(m) && c in m.large && m1 == m.(large := m.large - multiset{c})
    ensures Core(lib, s0, m1) && HeapsOk(lib, s0, m) && LargeTierMatches(m1) && m1.s.DistinctIds()
    ensures Describes(s0, c)
    ensures c.RedisCandidate? && c.key in m.s.redis && m.s.redis[c.key].InMemory? ==> MatchesLarge(c, m.s.redis[c.key])
  {
    hide LargeCandidates, SmallHeapOk, DiskHeapOk, RedisEvolved, MatchesLarge, Describes, RefsExact, DeletedRightly;
    hide AccExact;
    hide BkStable;
    LargeEntryMatches(lib, s0, m.s, c);
    TierMatchIgnoresHeaps(m, m1);
  }

  lemma StepLarge(lib: Library, s0: Store, m: Machine, c: Candidate)
    requires Inv(lib, s0, m) && LargeTierMatches(m) && m.s.DistinctIds() && c in m.large
    ensures Inv(lib, s0, Step(lib, m, PopLarge(c)))
  {
    hide Inv, Core, HeapsOk, LargeTierMatches, Store.DistinctIds, SpillManifest, SpillRedisCandidate, MatchesLarge;
    hide Describes;
    var m1 := m.(large := m.large - multiset{c});
    LargePopFacts(lib, s0, m, m1, c);
    if c.ManifestCandidate? {
      StepLargeManifest(lib, s0, m, m1, c);
      HeapsOkIsInv(lib, s0, SpillManifest(lib, m1, c));
    } else {
      StepLargeRedis(lib, s0, m, m1, c);
      HeapsOkIsInv(lib, s0, SpillRedisCandidate(m1, c));
    }
  }

  lemma HeapsOkIsInv(lib: Library, s0: Store, m: Machine)
    requires Core(lib, s0, m) && HeapsOk(lib, s0, m)
    ensures Inv(lib, s0, m)
  {
    hide Core, SmallHeapOk, LargeHeapOk, DiskHeapOk;
  }

  lemma TierMatchIgnoresHeaps(m: Machine, m': Machine)
    requires LargeTierMatches(m) && m'.s == m.s && m'.bk == m.bk
    ensures LargeTierMatches(m')
  {
    hide IsLargeInMemory;
  }

  /** The invariant gives what `Step` needs. */
  lemma InvEnablesStep(lib: Library, s0: Store, m: Machine)
    requires Inv(lib, s0, m)
    ensures m.s.DistinctIds() && LargeTierMatches(m)
  {
    hide SmallHeapOk, LargeHeapOk, DiskHeapOk, RefsExact, DeletedRightly, AccExact;
    TiersMatch(s0, m);
  }

  /** Every pop keeps the pass invariant. */
  lemma {:induction false} StepInv(lib: Library, cfg: Config, s0: Store, m: Machine, ev: Event)
    requires Inv(lib, s0, m) && LargeTierMatches(m) && m.s.DistinctIds() && Enabled(cfg, m, ev)
    ensures Inv(lib, s0, Step(lib, m, ev))
  {
    hide Inv, Step, LargeTierMatches, Store.DistinctIds, PicksSmall, PicksLarge, PicksDisk;
    match ev {
      case PopSmall(c) => StepSmall(lib, s0, m, c);
      case PopLarge(c) => StepLarge(lib, s0, m, c);
      case PopDisk(c) => StepDisk(lib, s0, m, c);
    }
  }

  lemma TraceAt(lib: Library, cfg: Config, s0: Store, events: seq<Event>, states: seq<Machine>, n: nat)
    requires IsTrace(lib, cfg, s0, events, states) && n < |events|
    ensures TraceStep(lib, cfg, states[n], events[n], states[n + 1])
  {
    hide TraceStep, Initial;
  }

  /** Every state of a trace satisfies the pass invariant. */
  lemma {:induction false} TraceInv(
      lib: Library, cfg: Config, s0: Store, events: seq<Event>, states: seq<Machine>, n: nat)
    requires s0.Owned() && IsTrace(lib, cfg, s0, events, states) && n <= |events|
    ensures |states| == |events| + 1 && Inv(lib, s0, states[n])
  {
    hide Inv, Step, Enabled, LargeTierMatches, Store.DistinctIds, Store.Owned, Initial;
    if n == 0 {
      InitialInv(lib, s0);
    } else {
      TraceAt(lib, cfg, s0, events, states, n - 1);
      TraceInv(lib, cfg, s0, events, states, n - 1);
      StepInv(lib, cfg, s0, states[n - 1], events[n - 1]);
    }
  }
}
