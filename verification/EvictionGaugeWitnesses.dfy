/** Stores on which every pass publishes a large or disk gauge that is not the oldest
    touch time of what it leaves. */
module EvictionGaugeWitnesses {
  import opened Prelude
  import opened DigestText
  import opened UsageSums
  import opened References
  import opened Cache
  import opened EvictionMachine
  import opened EvictionStore
  import opened EvictionInvariant
  import opened EvictionHeaps
  import opened EvictionTheorems
  import opened EvictionPhases
  import opened EvictionBudgets
  import opened EvictionGauges
  import opened EvictionExactGauges
  import opened EvictionWitnesses
  import CacheState
  import EvictionPass

  // ---- Passes that only memory calls for

  /** Over the memory target, within the small one, with room on the disk. */
  ghost predicate OnlyMemoryShort(cfg: Config, s: Store) {
    !cfg.OverSmall(s.Recomputed()) && DiskHasRoom(cfg, s) && cfg.OverMemory(s.Recomputed())
  }

  lemma PopsAreLarge(
      lib: Library, cfg: Config, s0: Store, events: seq<Event>, states: seq<Machine>, s1: Store, i: nat)
    requires s0.Owned() && IsPass(lib, cfg, s0, events, states, s1) && OnlyMemoryShort(cfg, s0) && i < |events|
    ensures |states| == |events| + 1 && events[i].PopLarge? && TraceStep(lib, cfg, states[i], events[i], states[i + 1])
  {
    hide Store.Owned, IsPass, IsTrace, TraceStep, DiskHasRoom, Config.OverSmall, Config.OverMemory, Done;
    PassIsTrace(lib, cfg, s0, events, states, s1);
    TraceLength(lib, cfg, s0, events, states);
    OnlyLargePops(lib, cfg, s0, events, states, i);
    TraceAt(lib, cfg, s0, events, states, i);
  }

  /** While memory is over target and something is left on the large heap the pass goes on. */
  lemma GoesOn(lib: Library, cfg: Config, s0: Store, events: seq<Event>, states: seq<Machine>, s1: Store, i: nat)
    requires s0.Owned() && IsPass(lib, cfg, s0, events, states, s1) && OnlyMemoryShort(cfg, s0) && i <= |events|
    ensures |states| == |events| + 1
    ensures cfg.OverMemory(states[i].acc) && states[i].large != multiset{} ==> i < |events|
    ensures !cfg.OverMemory(states[i].acc) ==> i == |events|
  {
    hide Store.Owned, IsPass, IsTrace, DiskHasRoom, Config.OverSmall, Config.OverMemory, Step, LargeTierMatches;
    hide Store.DistinctIds, Oldest;
    PassIsTrace(lib, cfg, s0, events, states, s1);
    TraceLength(lib, cfg, s0, events, states);
    if i < |events| {
      PopsAreLarge(lib, cfg, s0, events, states, s1, i);
    }
  }

  lemma PopIsOldest(cfg: Config, m: Machine, ev: Event)
    requires ev.PopLarge? && Enabled(cfg, m, ev)
    ensures Oldest(m.large, ev.c)
  {}

  /** The one oldest candidate of the large heap is what the pass pops next. */
  lemma NextPop(
      lib: Library, cfg: Config, s0: Store, events: seq<Event>, states: seq<Machine>, s1: Store, i: nat, c: Candidate)
    requires s0.Owned() && IsPass(lib, cfg, s0, events, states, s1) && OnlyMemoryShort(cfg, s0) && i <= |events|
    requires |states| == |events| + 1 && cfg.OverMemory(states[i].acc) && c in states[i].large
    requires forall x :: x in states[i].large && x != c ==> c.lastAccessed < x.lastAccessed
    ensures i < |events| && events[i] == PopLarge(c) && TraceStep(lib, cfg, states[i], events[i], states[i + 1])
    ensures states[i + 1].large == states[i].large - multiset{c}
  {
    hide Store.Owned, IsPass, Step, LargeTierMatches, Store.DistinctIds, OnlyMemoryShort, Config.OverMemory, Enabled;
    GoesOn(lib, cfg, s0, events, states, s1, i);
    PopsAreLarge(lib, cfg, s0, events, states, s1, i);
    PopIsOldest(cfg, states[i], events[i]);
    StepHeaps(lib, states[i], events[i]);
  }

  /** Over the memory target and within the small one, the one oldest candidate of the
      large heap is popped first. */
  lemma MemoryGoesFirst(
      lib: Library, cfg: Config, s0: Store, events: seq<Event>, states: seq<Machine>, s1: Store, c: Candidate)
    requires IsPass(lib, cfg, s0, events, states, s1)
    requires !cfg.OverSmall(s0.Recomputed()) && cfg.OverMemory(s0.Recomputed())
    requires c in LargeCandidates(lib, s0)
    requires forall x :: x in LargeCandidates(lib, s0) && x != c ==> c.lastAccessed < x.lastAccessed
    ensures |events| > 0 && |states| == |events| + 1 && events[0] == PopLarge(c)
    ensures TraceStep(lib, cfg, states[0], events[0], states[1])
    ensures states[1].large == multiset(LargeCandidates(lib, s0)) - multiset{c}
  {
    hide IsPass, IsTrace, Step, LargeTierMatches, Store.DistinctIds, Store.Recomputed, LargeCandidates;
    hide Config.OverSmall, Config.OverMemory, Config.OverDisk, DiskCandidates;
    PassIsTrace(lib, cfg, s0, events, states, s1);
    StartIs(lib, cfg, s0, events, states);
    assert c in states[0].large;
    assert PicksLarge(cfg, states[0]);
    if |events| > 0 {
      TraceAt(lib, cfg, s0, events, states, 0);
      StepHeaps(lib, states[0], events[0]);
    }
  }

  lemma StartIs(lib: Library, cfg: Config, s0: Store, events: seq<Event>, states: seq<Machine>)
    requires IsTrace(lib, cfg, s0, events, states)
    ensures |states| == |events| + 1 && states[0].s == s0 && states[0].acc == s0.Recomputed()
    ensures states[0].large == multiset(LargeCandidates(lib, s0))
    ensures states[0].disk == multiset(DiskCandidates(lib, s0))
  {
    hide TraceStep, InitialBk, SmallCandidates, LargeCandidates, DiskCandidates, Store.Recomputed;
  }

  /** What the accumulators say is what the large items of the store add to the small ones. */
  lemma MemoryLeft(
      lib: Library, cfg: Config, s0: Store, events: seq<Event>, states: seq<Machine>, s1: Store, i: nat, large: nat)
    requires s0.Owned() && IsPass(lib, cfg, s0, events, states, s1) && i <= |events| && |states| == |events| + 1
    requires var u := states[i].s.Recomputed(); u.largeBlobMemory + u.largeRedisMemory <= large
    requires s0.Recomputed().Small() + large <= cfg.MemoryTarget()
    ensures !cfg.OverMemory(states[i].acc)
  {
    hide Store.Owned, IsPass, IsTrace, Inv, Store.Recomputed, KeySlack, Done;
    PassIsTrace(lib, cfg, s0, events, states, s1);
    StartIs(lib, cfg, s0, events, states);
    TraceLowers(lib, cfg, s0, events, states, 0, i);
    TraceInv(lib, cfg, s0, events, states, i);
    InvParts(lib, s0, states[i]);
    hide BkStable, RefsExact, BlobsEvolved, DeletedRightly, RedisEvolved, SmallHeapOk, LargeHeapOk, DiskHeapOk;
  }

  lemma NoLargeBlobs(s: Store)
    requires forall r :: r in s.blobs ==> !IsLargeInMemory(s.blobs[r])
    ensures s.Recomputed().largeBlobMemory == 0
  {
    hide MapOf, Total;
    forall r | r in s.blobs ensures BlobCharge(s.blobs[r]).largeBlobMemory == 0 {}
    hide BlobCharge, ManifestCharges, RedisCharges;
    TotalKeeps(BlobCharges(s.blobs), (u: Usage) => u.largeBlobMemory == 0);
  }

  lemma NoLargeValues(s: Store)
    requires forall k :: k in s.redis ==> s.redis[k].OnDisk?
    ensures s.Recomputed().largeRedisMemory == 0
  {
    hide MapOf, Total;
    forall k | k in s.redis ensures RedisCharge(k, s.redis[k]).largeRedisMemory == 0 {}
    hide RedisCharge, ManifestCharges, BlobCharges;
    TotalKeeps(RedisCharges(s.redis), (u: Usage) => u.largeRedisMemory == 0);
  }

  lemma OneBlobIsLarge(s: Store, r: Digest, b: Blob)
    requires s.blobs == map[r := b] && b.InMemory?
    ensures s.Recomputed().largeBlobMemory <= |b.content|
  {
    hide MapOf, Total, ManifestCharges, BlobCharges, RedisCharges;
    OneBlob(s, r, b);
  }

  // ---- Two manifests that share a large blob

  /** Both refer to the one blob, which is large and in memory, and `b` is not flagged.
      If `a` is, it was flagged for another blob before this one was uploaded. */
  ghost predicate Shares(lib: Library, s: Store, a: Digest, b: Digest, r: Digest) {
    && s.Owned() && a != b && s.manifests.Keys == {a, b} && !s.manifests[b].evicted
    && s.blobs.Keys == {r} && IsLargeInMemory(s.blobs[r])
    && (forall d :: d in s.manifests ==> ReferencedDigests(lib, s.manifests[d].content) == [r])
  }

  lemma SharedTiers(lib: Library, s: Store, a: Digest, b: Digest, r: Digest)
    requires Shares(lib, s, a, b, r)
    ensures forall d :: d in s.manifests ==> RefersToTier(lib, s, d, LargeMem) && !RefersToTier(lib, s, d, Disk)
  {
    hide Store.Owned, ReferencedDigests;
    assert TierOf(s.blobs[r]) == LargeMem;
    forall d | d in s.manifests ensures RefersToTier(lib, s, d, LargeMem) && !RefersToTier(lib, s, d, Disk) {
      assert r in ReferencedDigests(lib, s.manifests[d].content);
    }
  }

  /** The pop of `a` spills nothing; that of `b` spills the blob if `a` is flagged. */
  lemma SharedSpill(lib: Library, s0: Store, m: Machine, ev: Event, a: Digest, b: Digest, r: Digest)
    requires Shares(lib, s0, a, b, r) && Inv(lib, s0, m) && m.s == s0 && m.s.DistinctIds() && LargeTierMatches(m)
    requires ev == PopLarge(CandidateOf(s0, a)) || (ev == PopLarge(CandidateOf(s0, b)) && s0.manifests[a].evicted)
    ensures var s := Step(lib, m, ev).s;
      && s.redis == s0.redis
      && s.manifests == s0.manifests[ev.c.digest := s0.manifests[ev.c.digest].(evicted := true)]
      && s.blobs == map[r := if ev.c.digest == b then ToDisk(s0.blobs[r]) else s0.blobs[r]]
  {
    hide Step, SpillManifest, Inv, LargeTierMatches, Store.DistinctIds, Store.Owned, ReferencedDigests, RefersTo;
    hide IsLargeInMemory, ToDisk, SpilledBk, ToSpill, SpillIn, Unevicted, Settled;
    var s, d := Step(lib, m, ev).s, ev.c.digest;
    var man := s0.manifests[d];
    var refs := ReferencedDigests(lib, man.content);
    SpillStep(lib, m, ev);
    SpillManifestIs(lib, m, ev.c);
    SpillInKeys(s0.blobs, ToSpill(s0, SpilledBk(m.bk, man.evicted, refs), refs));
    SpillManifestTouches(lib, m, ev.c);
    SpillMovesExactly(lib, s0, m, ev.c, r);
    SharedReferrers(lib, s0, d, s.manifests, a, b, r);
    SameMap(s0.redis, s.redis);
  }

  lemma SharedReferrers(
      lib: Library, s: Store, d: Digest, ms: map<Digest, Manifest>, a: Digest, b: Digest, r: Digest)
    requires Shares(lib, s, a, b, r) && (d == a || (d == b && s.manifests[a].evicted))
    requires ms == s.manifests[d := s.manifests[d].(evicted := true)]
    ensures RefersTo(lib, Unevicted(ms), r) <==> d == a
  {
    hide Store.Owned, ReferencedDigests;
    var u := Unevicted(ms);
    if d == a {
      assert b in u && r in ReferencedDigests(lib, u[b].content);
    } else {
      assert u == map[];
    }
  }

  lemma SharedCandidates(lib: Library, s: Store, a: Digest, b: Digest, r: Digest)
    requires Shares(lib, s, a, b, r) && forall k :: k in s.redis ==> RedisValueBucket(s.redis[k]).0 == LargeRedisMemory
    ensures forall c :: c in LargeCandidates(lib, s) <==>
      c == CandidateOf(s, a) || c == CandidateOf(s, b) || exists k :: k in s.redis && c == RedisCandidateOf(s, k)
    ensures DiskCandidates(lib, s) == {}
  {
    SharedTiers(lib, s, a, b, r);
    hide Store.Owned, ReferencedDigests, RefersToTier, RedisValueBucket, IsLargeInMemory;
  }

  // ---- The large gauge

  /** `a` is flagged and `b` is the older one: popping it spills the shared blob and
      brings memory within its target. */
  ghost predicate OlderSpillsForBoth(lib: Library, cfg: Config, s: Store, a: Digest, b: Digest, r: Digest) {
    && Shares(lib, s, a, b, r) && s.manifests[a].evicted && s.redis == map[]
    && !cfg.OverSmall(s.Recomputed()) && cfg.OverMemory(s.Recomputed())
    && s.manifests[b].lastUsed < s.manifests[a].lastUsed
    && s.Recomputed().Small() <= cfg.MemoryTarget()
  }

  lemma OlderGoesFirst(
      lib: Library, cfg: Config, s0: Store, events: seq<Event>, states: seq<Machine>, s1: Store,
      a: Digest, b: Digest, r: Digest)
    requires OlderSpillsForBoth(lib, cfg, s0, a, b, r) && IsPass(lib, cfg, s0, events, states, s1)
    ensures |events| > 0 && |states| == |events| + 1 && events[0] == PopLarge(CandidateOf(s0, b))
    ensures TraceStep(lib, cfg, states[0], events[0], states[1])
    ensures states[1].large == multiset(LargeCandidates(lib, s0)) - multiset{CandidateOf(s0, b)}
  {
    hide Store.Owned, IsPass, TraceStep, LargeCandidates, ReferencedDigests, IsLargeInMemory;
    hide Config.OverMemory, Config.OverSmall, Store.Recomputed, Usage.Small;
    SharedCandidates(lib, s0, a, b, r);
    MemoryGoesFirst(lib, cfg, s0, events, states, s1, CandidateOf(s0, b));
  }

  /** After that pop the blob is on disk, both are flagged, and the older one is the
      only candidate of the disk heap. */
  lemma BlobIsSpilled(
      lib: Library, cfg: Config, s0: Store, events: seq<Event>, states: seq<Machine>, s1: Store,
      a: Digest, b: Digest, r: Digest)
    requires OlderSpillsForBoth(lib, cfg, s0, a, b, r) && IsPass(lib, cfg, s0, events, states, s1)
    ensures |events| > 0 && |states| == |events| + 1
    ensures states[1].s.manifests == s0.manifests[b := s0.manifests[b].(evicted := true)]
    ensures states[1].s.redis == map[] && states[1].s.blobs == map[r := ToDisk(s0.blobs[r])]
    ensures states[1].large == multiset(LargeCandidates(lib, s0)) - multiset{CandidateOf(s0, b)}
    ensures states[1].disk == multiset{CandidateOf(s0, b)}
    ensures !cfg.OverMemory(states[1].acc)
  {
    hide Store.Owned, IsPass, IsTrace, Inv, Step, LargeTierMatches, Store.DistinctIds, LargeCandidates, DiskCandidates;
    hide ReferencedDigests, IsLargeInMemory, Enabled, Store.Recomputed, ToDisk, Config.OverMemory, Config.OverSmall;
    OlderGoesFirst(lib, cfg, s0, events, states, s1, a, b, r);
    PassIsTrace(lib, cfg, s0, events, states, s1);
    StartIs(lib, cfg, s0, events, states);
    SharedCandidates(lib, s0, a, b, r);
    StepHeaps(lib, states[0], events[0]);
    TraceInv(lib, cfg, s0, events, states, 0);
    SharedSpill(lib, s0, states[0], events[0], a, b, r);
    StepUncaches(lib, states[0], events[0]);
    SpilledIsNotLarge(s0.blobs[r]);
    NoLargeBlobs(states[1].s);
    NoLargeValues(states[1].s);
    MemoryLeft(lib, cfg, s0, events, states, s1, 1, 0);
  }

  lemma SpillEnds(
      lib: Library, cfg: Config, s0: Store, events: seq<Event>, states: seq<Machine>, s1: Store,
      a: Digest, b: Digest, r: Digest)
    requires OlderSpillsForBoth(lib, cfg, s0, a, b, r) && DiskHasRoom(cfg, s0)
    requires IsPass(lib, cfg, s0, events, states, s1)
    ensures |events| == 1
  {
    hide Store.Owned, IsPass, DiskHasRoom, LargeCandidates, DiskCandidates, ReferencedDigests, IsLargeInMemory;
    hide Store.Recomputed, ToDisk, Config.OverMemory, Config.OverSmall;
    BlobIsSpilled(lib, cfg, s0, events, states, s1, a, b, r);
    GoesOn(lib, cfg, s0, events, states, s1, 1);
  }

  /** Every pass over such a store publishes, as the oldest large item, the time of
      the manifest that was flagged before, although no item of the large pool is live. */
  lemma {:induction false} StaleLargeGauge(
      lib: Library, cfg: Config, s0: Store, events: seq<Event>, states: seq<Machine>, s1: Store,
      a: Digest, b: Digest, r: Digest, t: nat)
    requires OlderSpillsForBoth(lib, cfg, s0, a, b, r) && DiskHasRoom(cfg, s0)
    requires IsPass(lib, cfg, s0, events, states, s1) && PublishedOldest(states[|events|].large, s1.now, t)
    ensures t == s0.manifests[a].lastUsed && forall x :: !LiveLarge(lib, s1, x)
  {
    hide Store.Owned, IsPass, IsTrace, Done, PassFacts, LargeCandidates, ReferencedDigests, IsLargeInMemory;
    hide Store.Recomputed, LiveSmall, LiveLarge, LiveOnDisk, ToDisk, Config.OverMemory, Config.OverSmall, DiskHasRoom;
    SpillEnds(lib, cfg, s0, events, states, s1, a, b, r);
    BlobIsSpilled(lib, cfg, s0, events, states, s1, a, b, r);
    SharedCandidates(lib, s0, a, b, r);
    assert CandidateOf(s0, a) in states[1].large;
    assert forall c :: c in states[1].large ==> c == CandidateOf(s0, a);
    var m := EndOfPass(lib, cfg, s0, events, states, s1);
    NothingLargeIsLive(lib, m.s, r, s0.blobs[r]);
  }

  lemma NothingLargeIsLive(lib: Library, s: Store, r: Digest, b: Blob)
    requires s.redis == map[] && s.blobs == map[r := ToDisk(b)]
    ensures forall x :: !LiveLarge(lib, s, x)
  {
    SpilledIsNotLarge(b);
    hide IsLargeInMemory, ToDisk, ReferencedDigests, RefersTo, Unevicted;
  }

  // ---- The disk gauge

  /** `a` is the oldest, flagged or not; then comes a large redis value whose spill
      brings memory within its target; `b` is the newest. */
  ghost predicate SharerIsOldest(
      lib: Library, cfg: Config, s: Store, a: Digest, b: Digest, r: Digest, k: Bytes) {
    && Shares(lib, s, a, b, r) && OnlyMemoryShort(cfg, s)
    && s.redis.Keys == {k} && RedisValueBucket(s.redis[k]).0 == LargeRedisMemory
    && s.manifests[a].lastUsed < s.redis[k].lastAccessed < s.manifests[b].lastUsed
    && s.Recomputed().Small() + |s.blobs[r].content| <= cfg.MemoryTarget()
  }

  lemma SharerGoesFirst(
      lib: Library, cfg: Config, s0: Store, events: seq<Event>, states: seq<Machine>, s1: Store,
      a: Digest, b: Digest, r: Digest, k: Bytes)
    requires SharerIsOldest(lib, cfg, s0, a, b, r, k) && IsPass(lib, cfg, s0, events, states, s1)
    ensures |events| > 0 && |states| == |events| + 1 && events[0] == PopLarge(CandidateOf(s0, a))
    ensures TraceStep(lib, cfg, states[0], events[0], states[1])
    ensures states[1].large == multiset(LargeCandidates(lib, s0)) - multiset{CandidateOf(s0, a)}
  {
    hide Store.Owned, IsPass, TraceStep, LargeCandidates, ReferencedDigests, IsLargeInMemory, DiskHasRoom;
    hide Config.OverMemory, Config.OverSmall, Store.Recomputed, Usage.Small;
    SharedCandidates(lib, s0, a, b, r);
    MemoryGoesFirst(lib, cfg, s0, events, states, s1, CandidateOf(s0, a));
  }

  /** Popping it frees nothing: it is flagged and on the disk heap, and that is all. */
  lemma SharerFreesNothing(
      lib: Library, cfg: Config, s0: Store, events: seq<Event>, states: seq<Machine>, s1: Store,
      a: Digest, b: Digest, r: Digest, k: Bytes)
    requires SharerIsOldest(lib, cfg, s0, a, b, r, k) && IsPass(lib, cfg, s0, events, states, s1)
    ensures |events| > 0 && |states| == |events| + 1
    ensures states[1].s.manifests == FlagManifest(s0, a).manifests
    ensures states[1].s.blobs == s0.blobs && states[1].s.redis == s0.redis
    ensures CandidateOf(s0, a) in states[1].disk
  {
    hide Store.Owned, IsPass, IsTrace, Inv, Step, LargeTierMatches, Store.DistinctIds, LargeCandidates, Enabled;
    hide OnlyMemoryShort, ReferencedDigests, IsLargeInMemory, Store.Recomputed, Done;
    SharerGoesFirst(lib, cfg, s0, events, states, s1, a, b, r, k);
    PassIsTrace(lib, cfg, s0, events, states, s1);
    StartIs(lib, cfg, s0, events, states);
    TraceInv(lib, cfg, s0, events, states, 0);
    SharedSpill(lib, s0, states[0], events[0], a, b, r);
    StepUncaches(lib, states[0], events[0]);
    SameMap(s0.blobs, states[1].s.blobs);
  }

  /** The accumulators never under-count the store they stand for. */
  lemma OverAsBefore(lib: Library, cfg: Config, s0: Store, m: Machine)
    requires Inv(lib, s0, m) && cfg.OverMemory(m.s.Recomputed())
    ensures cfg.OverMemory(m.acc)
  {
    hide Inv, Store.Recomputed, KeySlack, BkStable, RefsExact, BlobsEvolved, DeletedRightly, RedisEvolved;
    hide SmallHeapOk, LargeHeapOk, DiskHeapOk;
    InvParts(lib, s0, m);
    KeySlackNonNegative(s0, m.s);
  }

  lemma SameSums(s: Store, s': Store)
    requires s'.manifests == s.manifests && s'.blobs == s.blobs && s'.redis == s.redis
    ensures s'.Recomputed() == s.Recomputed()
  {}

  lemma ValueGoesNext(
      lib: Library, cfg: Config, s0: Store, events: seq<Event>, states: seq<Machine>, s1: Store,
      a: Digest, b: Digest, r: Digest, k: Bytes)
    requires SharerIsOldest(lib, cfg, s0, a, b, r, k) && IsPass(lib, cfg, s0, events, states, s1)
    ensures |events| > 1 && |states| == |events| + 1 && events[1] == PopLarge(RedisCandidateOf(s0, k))
    ensures TraceStep(lib, cfg, states[1], events[1], states[2]) && CandidateOf(s0, a) in states[2].disk
  {
    hide Store.Owned, IsPass, IsTrace, Inv, Step, LargeTierMatches, Store.DistinctIds, LargeCandidates, Enabled;
    hide OnlyMemoryShort, ReferencedDigests, IsLargeInMemory, Store.Recomputed, Done, Config.OverMemory;
    SharerFreesNothing(lib, cfg, s0, events, states, s1, a, b, r, k);
    SharerGoesFirst(lib, cfg, s0, events, states, s1, a, b, r, k);
    PassIsTrace(lib, cfg, s0, events, states, s1);
    TraceInv(lib, cfg, s0, events, states, 1);
    ShortIsOver(cfg, s0);
    FlagManifestRecomputed(s0, a);
    SameSums(FlagManifest(s0, a), states[1].s);
    OverAsBefore(lib, cfg, s0, states[1]);
    SharedCandidates(lib, s0, a, b, r);
    NextPop(lib, cfg, s0, events, states, s1, 1, RedisCandidateOf(s0, k));
    StepHeaps(lib, states[1], events[1]);
  }

  lemma ShortIsOver(cfg: Config, s: Store)
    requires OnlyMemoryShort(cfg, s)
    ensures cfg.OverMemory(s.Recomputed())
  {}

  /** The spill of the value: nothing but its entry changes, and it is on disk. */
  lemma ValueSpilled(m: Machine, c: Candidate)
    requires c.RedisCandidate? && c.key in m.s.redis && m.s.redis[c.key].InMemory?
    ensures var s' := SpillRedisCandidate(m, c).s;
      && s'.manifests == m.s.manifests && s'.blobs == m.s.blobs
      && s'.redis.Keys == m.s.redis.Keys && s'.redis[c.key].OnDisk?
  {}

  lemma ValueEnds(
      lib: Library, cfg: Config, s0: Store, events: seq<Event>, states: seq<Machine>, s1: Store,
      a: Digest, b: Digest, r: Digest, k: Bytes)
    requires SharerIsOldest(lib, cfg, s0, a, b, r, k) && IsPass(lib, cfg, s0, events, states, s1)
    ensures |events| == 2 && |states| == 3 && CandidateOf(s0, a) in states[2].disk
    ensures states[2].s.manifests == FlagManifest(s0, a).manifests && states[2].s.blobs == s0.blobs
    ensures states[2].s.redis.Keys == {k} && states[2].s.redis[k].OnDisk?
  {
    hide Store.Owned, IsPass, Step, LargeTierMatches, Store.DistinctIds, Enabled, SpillRedisCandidate;
    hide OnlyMemoryShort, ReferencedDigests, Store.Recomputed, Config.OverMemory;
    SharerFreesNothing(lib, cfg, s0, events, states, s1, a, b, r, k);
    ValueGoesNext(lib, cfg, s0, events, states, s1, a, b, r, k);
    ValueStep(lib, states[1], events[1]);
    ValueSpilled(states[1], events[1].c);
    assert s0.blobs == map[r := s0.blobs[r]];
    OneBlobIsLarge(states[2].s, r, s0.blobs[r]);
    NoLargeValues(states[2].s);
    MemoryLeft(lib, cfg, s0, events, states, s1, 2, |s0.blobs[r].content|);
    GoesOn(lib, cfg, s0, events, states, s1, 2);
  }

  /** Every pass over such a store publishes, as the oldest item on disk, the time of a
      manifest whose only blob is still in memory; the oldest item of the disk pool is the
      value it has just spilled. */
  lemma {:induction false} StaleDiskGauge(
      lib: Library, cfg: Config, s0: Store, events: seq<Event>, states: seq<Machine>, s1: Store,
      a: Digest, b: Digest, r: Digest, k: Bytes, t: nat)
    requires SharerIsOldest(lib, cfg, s0, a, b, r, k) && IsPass(lib, cfg, s0, events, states, s1)
    requires PublishedOldest(states[|events|].disk, s1.now, t)
    ensures t == s0.manifests[a].lastUsed < s0.redis[k].lastAccessed
    ensures OldestLive(x => LiveOnDisk(lib, s1, x), s1.now, s0.redis[k].lastAccessed)
    ensures r in s1.blobs && s1.blobs[r] == s0.blobs[r]
  {
    hide Store.Owned, IsPass, IsTrace, PassFacts, Done, OnlyMemoryShort, ReferencedDigests, IsLargeInMemory;
    hide Store.Recomputed, LiveSmall, LiveLarge, LiveOnDisk, OldestLive, Describes, Inv;
    ValueEnds(lib, cfg, s0, events, states, s1, a, b, r, k);
    var m := EndOfPass(lib, cfg, s0, events, states, s1);
    OnlyValueIsLive(lib, cfg, s0, m, a, b, r, k);
    OneLive(x => LiveOnDisk(lib, s1, x), RedisCandidateOf(s0, k), s1.now);
    assert Inv(lib, s0, m) by { Facts(lib, s0, m); }
    DiskTimes(lib, cfg, s0, m, a, b, r, k);
    SharedStays(lib, cfg, s0, events, states, s1, a, b, r);
    OldestBelow(m.disk, s1.now, t, CandidateOf(s0, a));
  }

  lemma OneLive(live: Candidate -> bool, x: Candidate, now: nat)
    requires forall y :: live(y) <==> y == x
    ensures OldestLive(live, now, x.lastAccessed)
  {
    assert live(x);
  }

  lemma OnlyValueIsLive(
      lib: Library, cfg: Config, s0: Store, m: Machine, a: Digest, b: Digest, r: Digest, k: Bytes)
    requires SharerIsOldest(lib, cfg, s0, a, b, r, k) && PassFacts(lib, s0, m)
    requires m.s.blobs == s0.blobs && m.s.redis.Keys == {k} && m.s.redis[k].OnDisk?
    ensures forall x :: LiveOnDisk(lib, m.s, x) <==> x == RedisCandidateOf(s0, k)
  {
    hide Store.Owned, OnlyMemoryShort, ReferencedDigests, Store.Recomputed, RefersToTier, PassFacts, Inv;
    hide RedisValueBucket, ManifestsEvolved, BlobsEvolved, LargeOrDisk, SpilledAreFlagged, DeletedRightly;
    hide SmallHeapOk, LargeHeapOk, DiskHeapOk;
    Facts(lib, s0, m);
    forall x ensures LiveOnDisk(lib, m.s, x) <==> x == RedisCandidateOf(s0, k) {
      SameDescription(s0, m.s, x);
      if x.ManifestCandidate? && x.digest in m.s.manifests {
        NothingOnDisk(lib, m.s, x.digest);
      }
      hide RedisEvolved, SharerIsOldest;
    }
  }

  lemma NothingOnDisk(lib: Library, s: Store, d: Digest)
    requires d in s.manifests && forall r :: r in s.blobs ==> s.blobs[r].InMemory?
    ensures !RefersToTier(lib, s, d, Disk)
  {
    hide ReferencedDigests;
  }

  lemma DescribedIsNewer(
      lib: Library, cfg: Config, s0: Store, a: Digest, b: Digest, r: Digest, k: Bytes, c: Candidate)
    requires SharerIsOldest(lib, cfg, s0, a, b, r, k) && Describes(s0, c)
    ensures s0.manifests[a].lastUsed <= c.lastAccessed
  {
    hide Store.Owned, OnlyMemoryShort, ReferencedDigests, IsLargeInMemory, Store.Recomputed, RedisValueBucket;
  }

  lemma DiskIsDescribed(lib: Library, s0: Store, m: Machine)
    requires Inv(lib, s0, m)
    ensures forall c :: c in m.disk ==> Describes(s0, c)
  {
    hide Core, Describes, DiskCandidates, SmallHeapOk, LargeHeapOk, Cached, Settled;
  }

  lemma DiskTimes(lib: Library, cfg: Config, s0: Store, m: Machine, a: Digest, b: Digest, r: Digest, k: Bytes)
    requires SharerIsOldest(lib, cfg, s0, a, b, r, k) && Inv(lib, s0, m)
    ensures a in s0.manifests && forall c :: c in m.disk ==> s0.manifests[a].lastUsed <= c.lastAccessed
  {
    assert a in s0.manifests;
    hide Inv, SharerIsOldest, Describes;
    DiskIsDescribed(lib, s0, m);
    forall c | c in m.disk ensures s0.manifests[a].lastUsed <= c.lastAccessed {
      DescribedIsNewer(lib, cfg, s0, a, b, r, k, c);
    }
  }

  lemma SharedStays(
      lib: Library, cfg: Config, s0: Store, events: seq<Event>, states: seq<Machine>, s1: Store,
      a: Digest, b: Digest, r: Digest)
    requires Shares(lib, s0, a, b, r) && IsPass(lib, cfg, s0, events, states, s1)
    requires s1.manifests == FlagManifest(s0, a).manifests
    requires |states| == |events| + 1 && states[|events|].s.blobs == s0.blobs
    ensures r in s1.blobs && s1.blobs[r] == s0.blobs[r]
  {
    hide Store.Owned, IsPass, Inv, Finish, Done, ReferencedDigests, IsLargeInMemory, ManifestsEvolved;
    assert a in s1.manifests && r in ReferencedDigests(lib, s1.manifests[a].content);
    SurvivesIff(lib, cfg, s0, events, states, s1, r);
    var m := LastOfPass(lib, cfg, s0, events, states, s1);
  }

  // ---- A disk gauge that is too new

  /** Moreover the shared blob does not fit on the disk. */
  ghost predicate DiskIsShort(lib: Library, cfg: Config, s: Store, a: Digest, b: Digest, r: Digest) {
    && OlderSpillsForBoth(lib, cfg, s, a, b, r)
    && |s.blobs[r].content| > cfg.DiskTarget() && s.manifests[a].lastUsed < s.now
  }

  /** From then on only the disk is served. */
  lemma ThenDiskPops(
      lib: Library, cfg: Config, s0: Store, events: seq<Event>, states: seq<Machine>, s1: Store,
      a: Digest, b: Digest, r: Digest, j: nat)
    requires DiskIsShort(lib, cfg, s0, a, b, r) && IsPass(lib, cfg, s0, events, states, s1) && 1 <= j <= |events|
    ensures |states| == |events| + 1 && !cfg.OverMemory(states[j].acc) && !cfg.OverSmall(states[j].acc)
    ensures j < |events| ==> events[j].PopDisk?
  {
    hide Store.Owned, IsPass, IsTrace, LargeCandidates, DiskCandidates, ReferencedDigests, IsLargeInMemory;
    hide Store.Recomputed, ToDisk, Step, LargeTierMatches, Store.DistinctIds, Oldest, Usage.Small, Usage.TotalMemory;
    BlobIsSpilled(lib, cfg, s0, events, states, s1, a, b, r);
    PassIsTrace(lib, cfg, s0, events, states, s1);
    StartsExact(lib, cfg, s0, events, states);
    TraceLowers(lib, cfg, s0, events, states, 0, j);
    TraceLowers(lib, cfg, s0, events, states, 1, j);
    if j < |events| {
      TraceAt(lib, cfg, s0, events, states, j);
    }
  }

  /** While the disk is served, only `b` can go; `a` stays and so does its blob. */
  lemma {:induction false} OnlyOlderGoes(
      lib: Library, cfg: Config, s0: Store, events: seq<Event>, states: seq<Machine>, s1: Store,
      a: Digest, b: Digest, r: Digest, j: nat)
    requires DiskIsShort(lib, cfg, s0, a, b, r) && IsPass(lib, cfg, s0, events, states, s1) && 1 <= j <= |events|
    ensures |states| == |events| + 1 && states[j].disk <= multiset{CandidateOf(s0, b)}
    ensures var s := states[j].s;
      && a in s.manifests && s.manifests[a] == s0.manifests[a]
      && r in s.blobs && s.blobs[r] == ToDisk(s0.blobs[r])
  {
    hide Store.Owned, IsPass, IsTrace, LargeCandidates, DiskCandidates, IsLargeInMemory, PassFacts, ReferencedDigests;
    hide Store.Recomputed, ToDisk, Step, LargeTierMatches, Store.DistinctIds, Enabled, Config.OverMemory;
    hide Config.OverSmall;
    BlobIsSpilled(lib, cfg, s0, events, states, s1, a, b, r);
    if j > 1 {
      var m, ev := states[j - 1], events[j - 1];
      OnlyOlderGoes(lib, cfg, s0, events, states, s1, a, b, r, j - 1);
      ThenDiskPops(lib, cfg, s0, events, states, s1, a, b, r, j - 1);
      PassIsTrace(lib, cfg, s0, events, states, s1);
      TraceAt(lib, cfg, s0, events, states, j - 1);
      EventIsOldest(cfg, m, ev);
      OldestIsThere(m.disk, ev.c);
      StepHeaps(lib, m, ev);
      DiskPopManifests(lib, m, ev);
      StepIsFewer(lib, m, ev);
      TraceFacts(lib, cfg, s0, events, states, j);
      ReferredBlobStays(lib, s0, states[j], a, r);
    }
  }

  /** The disk accumulator covers every blob on disk. */
  lemma DiskStaysShort(lib: Library, cfg: Config, s0: Store, m: Machine, r: Digest)
    requires Inv(lib, s0, m) && r in m.s.blobs && m.s.blobs[r].OnDisk? && m.s.blobs[r].size > cfg.DiskTarget()
    ensures cfg.OverDisk(m.acc)
  {
    hide Inv, Store.Recomputed, KeySlack, BkStable, RefsExact, BlobsEvolved, DeletedRightly, RedisEvolved;
    hide SmallHeapOk, LargeHeapOk, DiskHeapOk;
    InvParts(lib, s0, m);
    KeySlackNonNegative(s0, m.s);
    BlobOnDiskCounts(m.s, r);
  }

  lemma SpilledSize(b: Blob)
    requires IsLargeInMemory(b)
    ensures ToDisk(b).OnDisk? && ToDisk(b).size == |b.content|
  {}

  /** Every pass over such a store publishes the clock as the oldest time on disk,
      although a manifest that was last used before refers to a blob on disk. */
  lemma {:induction false} NewerDiskGauge(
      lib: Library, cfg: Config, s0: Store, events: seq<Event>, states: seq<Machine>, s1: Store,
      a: Digest, b: Digest, r: Digest, t: nat)
    requires DiskIsShort(lib, cfg, s0, a, b, r) && IsPass(lib, cfg, s0, events, states, s1)
    requires PublishedOldest(states[|events|].disk, s1.now, t)
    ensures t == s1.now > s0.manifests[a].lastUsed && LiveOnDisk(lib, s1, CandidateOf(s0, a))
  {
    hide Store.Owned, IsPass, IsTrace, PassFacts, IsLargeInMemory, LargeCandidates, ReferencedDigests, Oldest;
    hide Store.Recomputed, LiveSmall, LiveLarge, ToDisk, RefersToTier, Config.OverMemory, Config.OverSmall;
    hide Config.OverDisk, Inv, ManifestsEvolved, BlobsEvolved, RedisEvolved, LargeOrDisk, SpilledAreFlagged;
    hide DeletedRightly, SmallHeapOk, LargeHeapOk, DiskHeapOk;
    BlobIsSpilled(lib, cfg, s0, events, states, s1, a, b, r);
    OnlyOlderGoes(lib, cfg, s0, events, states, s1, a, b, r, |events|);
    ThenDiskPops(lib, cfg, s0, events, states, s1, a, b, r, |events|);
    var m := EndOfPass(lib, cfg, s0, events, states, s1);
    Facts(lib, s0, m);
    NowIsKept(lib, s0, m);
    SpilledSize(s0.blobs[r]);
    DiskStaysShort(lib, cfg, s0, m, r);
    TierWitness(lib, m.s, a, r);
  }

  lemma NowIsKept(lib: Library, s0: Store, m: Machine)
    requires Inv(lib, s0, m)
    ensures m.s.now == s0.now
  {
    hide Inv, BkStable, RefsExact, BlobsEvolved, DeletedRightly, AccExact, RedisEvolved;
    hide SmallHeapOk, LargeHeapOk, DiskHeapOk;
    InvParts(lib, s0, m);
  }

  // ---- A flagged manifest is not done with

  /** A large blob that only flagged manifests hold is an item of the large pool, and when
      it alone is over the memory target every pass that can only spill spills it. */
  lemma {:induction false} FlaggedIsStillSpilledFor(
      lib: Library, cfg: Config, s0: Store, events: seq<Event>, states: seq<Machine>, s1: Store, d: Digest, r: Digest)
    requires s0.Owned() && IsPass(lib, cfg, s0, events, states, s1)
    requires Pending(lib, s0, d, r) && s0.manifests[d].evicted
    requires 4 * |s0.blobs[r].content| > 3 * cfg.memoryLimit + 3
    requires !cfg.OverSmall(s0.Recomputed()) && DiskHasRoom(cfg, s0)
    ensures LiveLarge(lib, s0, CandidateOf(s0, d)) && r in s1.blobs && s1.blobs[r] == ToDisk(s0.blobs[r])
  {
    hide Store.Owned, IsPass, IsTrace, PassFacts, Done, LargeCandidates, ReferencedDigests, DiskHasRoom, RefersTo;
    hide Store.Recomputed, LiveSmall, LiveOnDisk, Config.OverSmall, SmallBudgetMet, DiskBudgetMet, RefersToTier;
    hide ManifestsEvolved, Unevicted;
    var m := EndOfPass(lib, cfg, s0, events, states, s1);
    OnlyLarge(lib, cfg, s0, events, states);
    LargePopsDropNothing(lib, cfg, s0, events, states, |events|);
    BudgetsMet(lib, cfg, s0, events, states, s1);
    assert d in s1.manifests && r in ReferencedDigests(lib, s1.manifests[d].content);
    SurvivorIsSame(lib, cfg, s0, events, states, s1, d, r);
    Refers(lib, s1.manifests, d, r);
    if s1.blobs[r] == s0.blobs[r] {
      LargeBlobCounts(s1, r);
    }
  }

  lemma SurvivorIsSame(
      lib: Library, cfg: Config, s0: Store, events: seq<Event>, states: seq<Machine>, s1: Store, d: Digest, r: Digest)
    requires s0.Owned() && IsPass(lib, cfg, s0, events, states, s1) && r in s0.blobs
    requires d in s1.manifests && r in ReferencedDigests(lib, s1.manifests[d].content)
    ensures r in s1.blobs && SameOrSpilledBlob(s0.blobs[r], s1.blobs[r])
  {
    hide Store.Owned, IsPass, ReferencedDigests, Store.BlobBytes, SameOrSpilledBlob, ManifestsEvolved, RedisEvolved;
    hide HasFile, TagsFollow, UnlinksExplained;
    SurvivorClosure(lib, cfg, s0, events, states, s1, d, r);
    PassEvolves(lib, cfg, s0, events, states, s1);
  }

  lemma LargeBlobCounts(s: Store, r: Digest)
    requires r in s.blobs && IsLargeInMemory(s.blobs[r])
    ensures s.Recomputed().TotalMemory() >= |s.blobs[r].content|
  {
    hide MapOf, Total, ManifestCharges, BlobCharges, RedisCharges;
    BucketsAreSeparate(s);
    TotalTake(BlobCharges(s.blobs), r);
    OthersNotNegative(BlobCharges(s.blobs), r);
  }

  // ---- There are such stores

  const KEY: Bytes := [75]

  const OTHER: Digest := Digest(seq(32, _ => 3))

  function Zeroes(n: nat): (b: Bytes)
    ensures |b| == n
  {
    seq(n, i requires 0 <= i < n => 0)
  }

  /** One byte more than what counts as small. */
  const LARGE: Bytes := Zeroes(1025)

  const NEWER: Store := Empty(100).(
    manifests := map[MANIFEST := Manifest([1], [], 7, true), OTHER := Manifest([2], [], 1, false)],
    blobs := map[BLOB := Blob.InMemory(0, LARGE, [], 100)], nextId := 1)

  const OLDEST: Store := Empty(100).(
    manifests := map[MANIFEST := Manifest([1], [], 1, true), OTHER := Manifest([2], [], 7, false)],
    blobs := map[BLOB := Blob.InMemory(0, LARGE, [], 100)],
    redis := map[KEY := RedisEntry.InMemory(1, LARGE, 2)], nextId := 2)

  /** The same with nothing flagged. */
  const UNFLAGGED: Store := OLDEST.(
    manifests := map[MANIFEST := Manifest([1], [], 1, false), OTHER := Manifest([2], [], 7, false)])

  const LONE: Store := Empty(100).(
    manifests := map[MANIFEST := Manifest([1], [], 7, true)],
    blobs := map[BLOB := Blob.InMemory(0, LARGE, [], 100)], nextId := 1)

  const TIGHT: Config := Config(1000, Some(1000), 4000)
  const TIGHTER: Config := Config(2000, Some(2000), 4000)

  lemma TwoManifestsCost(s: Store, a: Digest, ma: Manifest, b: Digest, mb: Manifest)
    requires a != b && s.manifests == map[a := ma, b := mb] && |ma.content| == |mb.content| == 1
    ensures Total(ManifestCharges(s.manifests)) == Usage(2, 0, 0, 0, 0, 0, 0)
  {
    hide MapOf, Total;
    TotalOfTwo(ManifestCharges(s.manifests), a, ManifestCharge(ma), b, ManifestCharge(mb));
  }

  lemma DigestsDiffer()
    ensures MANIFEST != OTHER
  {
    assert MANIFEST.raw[0] != OTHER.raw[0];
  }

  lemma NewerUsage()
    ensures NEWER.Recomputed() == Usage(2, 0, 1025, 0, 0, 0, 0)
  {
    hide Total, ManifestCharges, BlobCharges, RedisCharges, Store.Recomputed;
    DigestsDiffer();
    TwoManifestsCost(NEWER, MANIFEST, Manifest([1], [], 7, true), OTHER, Manifest([2], [], 1, false));
    OneBlob(NEWER, BLOB, Blob.InMemory(0, LARGE, [], 100));
    CacheState.NoRedis(NEWER.redis);
    UsageIs(NEWER, Usage(2, 0, 0, 0, 0, 0, 0), Usage(0, 0, 1025, 0, 0, 0, 0), ZERO);
  }

  lemma OldestUsage(s: Store, a: Digest, ma: Manifest, b: Digest, mb: Manifest, r: Digest, blob: Blob, k: Bytes,
                    e: RedisEntry)
    requires a != b && s.manifests == map[a := ma, b := mb] && |ma.content| == |mb.content| == 1
    requires s.blobs == map[r := blob] && blob.InMemory? && |blob.content| == 1025
    requires s.redis == map[k := e] && |k| == 1 && e.InMemory? && |e.value| == 1025
    ensures s.Recomputed() == Usage(2, 0, 1025, 1, 1025, 0, 0)
  {
    hide Total, ManifestCharges, BlobCharges, RedisCharges, Store.Recomputed;
    TwoManifestsCost(s, a, ma, b, mb);
    OneBlob(s, r, blob);
    OneEntry(s, k, e);
    UsageIs(s, Usage(2, 0, 0, 0, 0, 0, 0), Usage(0, 0, 1025, 0, 0, 0, 0), Usage(0, 0, 0, 1, 1025, 0, 0));
  }

  lemma LoneUsage()
    ensures LONE.Recomputed() == Usage(1, 0, 1025, 0, 0, 0, 0)
  {
    hide Total, ManifestCharges, BlobCharges, RedisCharges, Store.Recomputed;
    ManifestCosts(LONE, MANIFEST, Manifest([1], [], 7, true));
    OneBlob(LONE, BLOB, Blob.InMemory(0, LARGE, [], 100));
    CacheState.NoRedis(LONE.redis);
    UsageIs(LONE, Usage(1, 0, 0, 0, 0, 0, 0), Usage(0, 0, 1025, 0, 0, 0, 0), ZERO);
  }

  /** What `TIGHT` and `NO_DISK` say of a store with two bytes of manifests and one large blob. */
  lemma TightFits(s: Store)
    requires s.Recomputed() == Usage(2, 0, 1025, 0, 0, 0, 0)
    ensures !TIGHT.OverSmall(s.Recomputed()) && TIGHT.OverMemory(s.Recomputed()) && DiskHasRoom(TIGHT, s)
    ensures !NO_DISK.OverSmall(s.Recomputed()) && NO_DISK.OverMemory(s.Recomputed()) && NO_DISK.DiskTarget() == 0
    ensures s.Recomputed().Small() <= TIGHT.MemoryTarget() && s.Recomputed().Small() <= NO_DISK.MemoryTarget()
  {
    hide Store.Recomputed;
  }

  lemma TighterFits(s: Store)
    requires s.Recomputed() == Usage(2, 0, 1025, 1, 1025, 0, 0)
    ensures OnlyMemoryShort(TIGHTER, s) && s.Recomputed().Small() + 1025 <= TIGHTER.MemoryTarget()
  {
    hide Store.Recomputed;
  }

  lemma LoneFits(s: Store)
    requires s.Recomputed() == Usage(1, 0, 1025, 0, 0, 0, 0)
    ensures !TIGHT.OverSmall(s.Recomputed()) && DiskHasRoom(TIGHT, s) && TIGHT.MemoryTarget() == 750
  {
    hide Store.Recomputed;
  }

  lemma SharesOneBlob(s: Store, ma: Manifest, mb: Manifest, blob: Blob)
    requires s.Owned() && s.manifests == map[MANIFEST := ma, OTHER := mb] && !mb.evicted
    requires s.blobs == map[BLOB := blob] && IsLargeInMemory(blob)
    ensures Shares(LIB, s, MANIFEST, OTHER, BLOB)
  {
    hide Store.Owned, ReferencedDigests, IsLargeInMemory;
    DigestsDiffer();
    forall d | d in s.manifests ensures ReferencedDigests(LIB, s.manifests[d].content) == [BLOB] {
      BodiesReferToBlob(s.manifests[d].content);
    }
  }

  lemma NewerIsOwned()
    ensures NEWER.Owned()
  {
    assert NEWER.FilesPresent();
    hide Store.FilesPresent;
  }

  lemma OldestIsOwned()
    ensures OLDEST.Owned()
  {
    assert OLDEST.FilesPresent();
    hide Store.FilesPresent;
  }

  lemma UnflaggedIsOwned()
    ensures UNFLAGGED.Owned()
  {
    assert UNFLAGGED.FilesPresent();
    hide Store.FilesPresent;
  }

  lemma LoneIsOwned()
    ensures LONE.Owned()
  {
    assert LONE.FilesPresent();
    hide Store.FilesPresent;
  }

  /** One store for the stale large gauge, and for the disk gauge that is too new. */
  lemma NewerQualifies()
    ensures OlderSpillsForBoth(LIB, TIGHT, NEWER, MANIFEST, OTHER, BLOB) && DiskHasRoom(TIGHT, NEWER)
    ensures DiskIsShort(LIB, NO_DISK, NEWER, MANIFEST, OTHER, BLOB)
  {
    hide Store.Owned, Store.Recomputed, Shares, Config.MemoryTarget, Config.DiskTarget, Config.OverSmall;
    hide Config.OverMemory, DiskHasRoom, Usage.Small;
    DigestsDiffer();
    NewerIsOwned();
    NewerUsage();
    TightFits(NEWER);
    SharesOneBlob(NEWER, Manifest([1], [], 7, true), Manifest([2], [], 1, false), Blob.InMemory(0, LARGE, [], 100));
  }

  /** Two stores for the stale disk gauge, one of them with nothing flagged. */
  lemma OldestQualify()
    ensures SharerIsOldest(LIB, TIGHTER, OLDEST, MANIFEST, OTHER, BLOB, KEY)
    ensures SharerIsOldest(LIB, TIGHTER, UNFLAGGED, MANIFEST, OTHER, BLOB, KEY)
    ensures forall d :: d in UNFLAGGED.manifests ==> !UNFLAGGED.manifests[d].evicted
  {
    hide Store.Owned, Store.Recomputed, OnlyMemoryShort, Shares, Config.MemoryTarget, Usage.Small;
    DigestsDiffer();
    OldestIsOwned();
    UnflaggedIsOwned();
    var blob, e := Blob.InMemory(0, LARGE, [], 100), RedisEntry.InMemory(1, LARGE, 2);
    var ma, ma', mb := Manifest([1], [], 1, true), Manifest([1], [], 1, false), Manifest([2], [], 7, false);
    OldestUsage(OLDEST, MANIFEST, ma, OTHER, mb, BLOB, blob, KEY, e);
    OldestUsage(UNFLAGGED, MANIFEST, ma', OTHER, mb, BLOB, blob, KEY, e);
    TighterFits(OLDEST);
    TighterFits(UNFLAGGED);
    SharesOneBlob(OLDEST, ma, mb, blob);
    SharesOneBlob(UNFLAGGED, ma', mb, blob);
  }

  /** A store whose flagged manifest still has its blob spilled. */
  lemma LoneQualifies()
    ensures Pending(LIB, LONE, MANIFEST, BLOB) && LONE.manifests[MANIFEST].evicted
    ensures 4 * |LONE.blobs[BLOB].content| > 3 * TIGHT.memoryLimit + 3
    ensures !TIGHT.OverSmall(LONE.Recomputed()) && DiskHasRoom(TIGHT, LONE)
  {
    hide Store.Recomputed, ReferencedDigests, Config.MemoryTarget, Config.OverSmall, DiskHasRoom;
    LoneUsage();
    LoneFits(LONE);
    BodiesReferToBlob([1]);
    assert Unevicted(LONE.manifests) == map[];
  }

  /** None of these results is about nothing: stores that qualify, and a pass over each. */
  lemma {:induction false} StaleGaugesExist()
    ensures OlderSpillsForBoth(LIB, TIGHT, NEWER, MANIFEST, OTHER, BLOB) && DiskHasRoom(TIGHT, NEWER)
    ensures DiskIsShort(LIB, NO_DISK, NEWER, MANIFEST, OTHER, BLOB)
    ensures SharerIsOldest(LIB, TIGHTER, OLDEST, MANIFEST, OTHER, BLOB, KEY)
    ensures SharerIsOldest(LIB, TIGHTER, UNFLAGGED, MANIFEST, OTHER, BLOB, KEY) && NoneFlagged(LIB, UNFLAGGED)
    ensures Pending(LIB, LONE, MANIFEST, BLOB) && LONE.manifests[MANIFEST].evicted
    ensures exists events, states, s1 :: IsPass(LIB, TIGHT, NEWER, events, states, s1)
    ensures exists events, states, s1 :: IsPass(LIB, NO_DISK, NEWER, events, states, s1)
    ensures exists events, states, s1 :: IsPass(LIB, TIGHTER, OLDEST, events, states, s1)
    ensures exists events, states, s1 :: IsPass(LIB, TIGHTER, UNFLAGGED, events, states, s1)
    ensures exists events, states, s1 :: IsPass(LIB, TIGHT, LONE, events, states, s1)
  {
    hide IsPass, Store.Owned, OlderSpillsForBoth, DiskIsShort, SharerIsOldest, DiskHasRoom, Pending, RefersToTier;
    NewerQualifies();
    OldestQualify();
    LoneQualifies();
    NewerIsOwned();
    OldestIsOwned();
    UnflaggedIsOwned();
    LoneIsOwned();
    EvictionPass.PassExists(LIB, TIGHT, NEWER);
    EvictionPass.PassExists(LIB, NO_DISK, NEWER);
    EvictionPass.PassExists(LIB, TIGHTER, OLDEST);
    EvictionPass.PassExists(LIB, TIGHTER, UNFLAGGED);
    EvictionPass.PassExists(LIB, TIGHT, LONE);
  }
}
