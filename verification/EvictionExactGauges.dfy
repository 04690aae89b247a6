/** Conditions on the store before a pass under which the touch times the pass
    publishes are exact. */
module EvictionExactGauges {
  import opened Prelude
  import opened DigestText
  import opened UsageSums
  import opened References
  import opened Cache
  import opened EvictionMachine
  import opened EvictionStore
  import opened EvictionInvariant
  import opened EvictionHeaps
  import opened EvictionTheorems
  import opened EvictionPhases
  import opened EvictionBudgets
  import opened EvictionGauges

  // ---- Heaps without stale candidates

  /** A heap that holds exactly the live items publishes what its gauge is for. */
  lemma LiveHeapIsExact(heap: multiset<Candidate>, now: nat, t: nat, live: Candidate -> bool)
    requires PublishedOldest(heap, now, t) && forall x :: live(x) <==> x in heap
    ensures OldestLive(live, now, t)
  {
    if heap == multiset{} {
      assert !exists x :: live(x);
    } else {
      var c :| c in heap && Oldest(heap, c) && t == c.lastAccessed;
      assert live(c);
    }
  }

  lemma SameCached(s: Store, s': Store)
    requires s'.manifests == s.manifests && s'.redis == s.redis
    ensures forall c :: Cached(s', c) <==> Cached(s, c)
  {}

  lemma SmallHeapOf(lib: Library, s0: Store, m: Machine)
    requires Inv(lib, s0, m)
    ensures SmallHeapOk(s0, m.s, m.small)
  {
    InvParts(lib, s0, m);
    hide Inv, SmallHeapOk;
  }

  /** What a pop takes out of the cache is its own candidate. */
  lemma StepKeepsOthers(lib: Library, m: Machine, ev: Event, x: Candidate)
    requires m.s.DistinctIds() && LargeTierMatches(m) && Cached(m.s, x)
    requires ev.PopLarge? || !SameItem(x, ev.c)
    ensures Cached(Step(lib, m, ev).s, x)
  {
    hide DropManifest, DropRedis, SpillRedisCandidate, SpillManifest, LargeTierMatches, Store.DistinctIds, In;
    hide RedisCharge;
    match ev {
      case PopSmall(c) =>
        var m1 := m.(small := m.small - multiset{c});
        match c {
          case ManifestCandidate(_, d) => DropManifestKeepsOthers(lib, m1, d, x);
          case RedisCandidate(_, k, size) => DropRedisKeepsOthers(m1, k, In(SmallRedisMemory, size), x);
        }
      case PopLarge(c) =>
        var m1 := m.(large := m.large - multiset{c});
        TierMatchIgnoresHeaps(m, m1);
        LargeKeepsOthers(lib, m1, c, x);
      case PopDisk(c) =>
        var m1 := m.(disk := m.disk - multiset{c});
        match c {
          case ManifestCandidate(_, d) => DropManifestKeepsOthers(lib, m1, d, x);
          case RedisCandidate(_, k, size) => DropRedisKeepsOthers(m1, k, In(RedisDisk, size), x);
        }
    }
  }

  predicate SameItem(x: Candidate, c: Candidate) {
    match x
    case ManifestCandidate(_, d) => c.ManifestCandidate? && c.digest == d
    case RedisCandidate(_, k, _) => c.RedisCandidate? && c.key == k
  }

  lemma DropManifestKeepsOthers(lib: Library, m: Machine, d: Digest, x: Candidate)
    requires Cached(m.s, x) && !(x.ManifestCandidate? && x.digest == d)
    ensures Cached(DropManifest(lib, m, d).s, x)
  {
    if d in m.s.manifests {
      DropManifestShape(lib, m, d);
      assert DropManifest(lib, m, d).s.redis == m.s.redis by { DropLeavesRedis(lib, m, d); }
      hide DropManifest;
    }
  }

  lemma DropLeavesRedis(lib: Library, m: Machine, d: Digest)
    ensures DropManifest(lib, m, d).s.redis == m.s.redis
  {
    hide BlobTotal, DroppedBk, ToDelete, ManifestCharge;
  }

  lemma DropRedisKeepsOthers(m: Machine, k: Bytes, u: Usage, x: Candidate)
    requires Cached(m.s, x) && !(x.RedisCandidate? && x.key == k)
    ensures Cached(DropRedis(m, k, u).s, x)
  {
    hide RedisCharge;
  }

  lemma LargeKeepsOthers(lib: Library, m: Machine, c: Candidate, x: Candidate)
    requires m.s.DistinctIds() && LargeTierMatches(m) && Cached(m.s, x)
    ensures c.ManifestCandidate? ==> Cached(SpillManifest(lib, m, c).s, x)
    ensures c.RedisCandidate? ==> Cached(SpillRedisCandidate(m, c).s, x)
  {
    if c.ManifestCandidate? {
      if c.digest in m.s.manifests {
        SpillManifestTouches(lib, m, c);
      } else {
        StaleSpill(lib, m, c);
      }
      hide SpillManifest, LargeTierMatches, Store.DistinctIds;
    }
  }

  /** Each item of the small pool has one candidate, so a popped one leaves none behind. */
  ghost predicate SmallOnce(s0: Store, m: Machine) {
    && (forall c :: c in m.small ==> m.small[c] == 1 && c in SmallCandidates(s0) && Cached(m.s, c))
  }

  lemma SmallItemsDiffer(s0: Store, x: Candidate, c: Candidate)
    requires x in SmallCandidates(s0) && c in SmallCandidates(s0) && SameItem(x, c)
    ensures x == c
  {}

  lemma SmallStart(lib: Library, s0: Store)
    ensures SmallOnce(s0, Initial(lib, s0))
  {
    hide InitialBk, Store.Recomputed, LargeCandidates, DiskCandidates;
    assert forall c :: c in SmallCandidates(s0) ==> Cached(s0, c);
    hide SmallCandidates;
  }

  lemma SmallOnceStep(lib: Library, s0: Store, m: Machine, ev: Event)
    requires m.s.DistinctIds() && LargeTierMatches(m) && SmallOnce(s0, m) && !ev.PopDisk?
    requires ev.PopSmall? ==> ev.c in m.small
    ensures SmallOnce(s0, Step(lib, m, ev))
  {
    hide Step, LargeTierMatches, Store.DistinctIds, SmallCandidates, SameItem, Cached;
    var m' := Step(lib, m, ev);
    StepHeaps(lib, m, ev);
    forall c | c in m'.small ensures m'.small[c] == 1 && c in SmallCandidates(s0) && Cached(m'.s, c) {
      if ev.PopSmall? && SameItem(c, ev.c) {
        SmallItemsDiffer(s0, c, ev.c);
      } else {
        StepKeepsOthers(lib, m, ev, c);
      }
    }
  }

  lemma {:induction false} SmallHeapIsLive(
      lib: Library, cfg: Config, s0: Store, events: seq<Event>, states: seq<Machine>, n: nat)
    requires s0.Owned() && IsTrace(lib, cfg, s0, events, states) && n <= |events|
    requires forall i :: 0 <= i < n ==> !events[i].PopDisk?
    ensures SmallOnce(s0, states[n])
  {
    hide Store.Owned, Initial, Step, LargeTierMatches, Store.DistinctIds, PicksSmall, PicksLarge, PicksDisk, SmallOnce;
    if n == 0 {
      SmallStart(lib, s0);
    } else {
      SmallHeapIsLive(lib, cfg, s0, events, states, n - 1);
      TraceAt(lib, cfg, s0, events, states, n - 1);
      SmallOnceStep(lib, s0, states[n - 1], events[n - 1]);
    }
  }

  lemma SmallItemIsLive(s0: Store, s: Store, x: Candidate)
    requires ManifestsEvolved(s0, s) && RedisEvolved(s0, s) && x in SmallCandidates(s0) && Cached(s, x)
    ensures LiveSmall(s, x)
  {
    hide Store.RedisValue;
    SameDescription(s0, s, x);
  }

  // ---- What a caller can check before the pass

  /** Bytes that are on disk or may be spilled to it. */
  function Spillable(u: Usage): int {
    u.TotalDisk() + u.largeBlobMemory + u.largeRedisMemory
  }

  /** Even with everything large on it the disk would be within its target. */
  ghost predicate DiskHasRoom(cfg: Config, s0: Store) {
    Spillable(s0.Recomputed()) <= cfg.DiskTarget()
  }

  lemma SpillableOfAcc(lib: Library, s0: Store, m: Machine)
    requires Inv(lib, s0, m)
    ensures Spillable(m.acc) == Spillable(m.s.Recomputed())
  {
    hide Inv, Store.Recomputed, KeySlack, BlobsEvolved, RedisEvolved, RefsExact, DeletedRightly;
    hide SmallHeapOk, LargeHeapOk, DiskHeapOk, BkStable;
    InvParts(lib, s0, m);
    KeySlackNonNegative(s0, m.s);
  }

  lemma ShiftKeepsSpillable(u: Usage, n: int)
    ensures Spillable(u.Minus(In(LargeBlobMemory, n)).Plus(In(BlobDisk, n))) == Spillable(u)
    ensures Spillable(u.Minus(In(LargeRedisMemory, n)).Plus(In(RedisDisk, n))) == Spillable(u)
  {}

  ghost predicate SameSpillable(s: Store, s': Store) {
    Spillable(s'.Recomputed()) == Spillable(s.Recomputed())
  }

  lemma SpillKeepsSpillable(lib: Library, m: Machine, c: Candidate, s': Store)
    requires c.ManifestCandidate? && m.s.DistinctIds() && LargeTierMatches(m) && s' == SpillManifest(lib, m, c).s
    ensures SameSpillable(m.s, s')
  {
    hide SpilledBk, ToSpill, BlobTotal, Moved, Store.Recomputed, Spillable, LargeTierMatches, Store.DistinctIds;
    hide AllLargeInMemory;
    hide SpillBlobs, FlagManifest, In, Usage.Plus, Usage.Minus;
    if c.digest in m.s.manifests {
      var man := m.s.manifests[c.digest];
      var refs := ReferencedDigests(lib, man.content);
      var w := ToSpill(m.s, SpilledBk(m.bk, man.evicted, refs), refs);
      var s1 := FlagManifest(m.s, c.digest);
      FlaggedStoreFits(m, c.digest, man.evicted, refs);
      SpillBlobsRecomputed(s1, w);
      FlagManifestRecomputed(m.s, c.digest);
      ShiftKeepsSpillable(s1.Recomputed(), BlobTotal(s1, w).largeBlobMemory);
    }
  }

  lemma FlaggedStoreFits(m: Machine, d: Digest, evicted: bool, refs: seq<Digest>)
    requires d in m.s.manifests && m.s.DistinctIds() && LargeTierMatches(m)
    ensures FlagManifest(m.s, d).DistinctIds()
    ensures AllLargeInMemory(FlagManifest(m.s, d), ToSpill(m.s, SpilledBk(m.bk, evicted, refs), refs))
  {
    hide SpilledBk, LargeTierMatches, ToSpill, IsLargeInMemory;
    ToSpillIsLarge(m, evicted, refs);
  }

  lemma ValueSpillKeepsSpillable(m: Machine, c: Candidate, m': Machine)
    requires c.RedisCandidate? && m' == SpillRedisCandidate(m, c)
    requires c.key in m.s.redis && m.s.redis[c.key].InMemory? ==> MatchesLarge(c, m.s.redis[c.key])
    ensures Spillable(m'.s.Recomputed()) == Spillable(m.s.Recomputed())
  {
    hide Store.Recomputed, Spillable, SpillRedis, In, Usage.Plus, Usage.Minus, SaturatingSub;
    if c.key in m.s.redis && m.s.redis[c.key].InMemory? {
      SpillRedisRecomputed(m.s, c.key);
      ShiftKeepsSpillable(m.s.Recomputed(), c.size);
    }
  }

  lemma StepSpillable(lib: Library, cfg: Config, s0: Store, m: Machine, ev: Event, m': Machine)
    requires Inv(lib, s0, m) && TraceStep(lib, cfg, m, ev, m')
    ensures Spillable(m'.acc) <= Spillable(m.acc)
  {
    hide Inv, Step, LargeTierMatches, Store.DistinctIds, Store.Recomputed, Spillable, PicksSmall, PicksLarge, PicksDisk;
    hide SpillManifest, SpillRedisCandidate, MatchesLarge, Core, HeapsOk, Describes;
    if ev.PopLarge? {
      StepInv(lib, cfg, s0, m, ev);
      SpillableOfAcc(lib, s0, m);
      SpillableOfAcc(lib, s0, m');
      if ev.c.ManifestCandidate? {
        SpillStep(lib, m, ev);
        SpillKeepsSpillable(lib, m, ev.c, SpillManifest(lib, m, ev.c).s);
      } else {
        LargePopFacts(lib, s0, m, m.(large := m.large - multiset{ev.c}), ev.c);
        ValueStep(lib, m, ev);
        ValueSpillKeepsSpillable(m, ev.c, SpillRedisCandidate(m, ev.c));
      }
    } else {
      AccNotNegative(lib, s0, m);
      DropSpillable(lib, m, ev);
    }
  }

  lemma AtMostIsNoMoreSpillable(u: Usage, v: Usage)
    ensures u.AtMost(v) ==> Spillable(u) <= Spillable(v)
  {}

  lemma DropSpillable(lib: Library, m: Machine, ev: Event)
    requires ZERO.AtMost(m.acc) && m.s.DistinctIds() && LargeTierMatches(m) && !ev.PopLarge?
    ensures Spillable(Step(lib, m, ev).acc) <= Spillable(m.acc)
  {
    hide DropManifest, DropRedis, LargeTierMatches, Store.DistinctIds, In, Spillable, Usage.AtMost;
    AtMostIsNoMoreSpillable(Step(lib, m, ev).acc, m.acc);
    match ev.c {
      case ManifestCandidate(_, d) =>
        DropManifestLowers(lib, m.(small := m.small - multiset{ev.c}), d);
        DropManifestLowers(lib, m.(disk := m.disk - multiset{ev.c}), d);
      case RedisCandidate(_, k, size) =>
        DropRedisLowers(m.(small := m.small - multiset{ev.c}), k, SmallRedisMemory, size);
        DropRedisLowers(m.(disk := m.disk - multiset{ev.c}), k, RedisDisk, size);
    }
  }

  ghost predicate NoMoreSpillable(s0: Store, m: Machine) {
    Spillable(m.acc) <= Spillable(s0.Recomputed())
  }

  lemma {:induction false} TraceSpillable(
      lib: Library, cfg: Config, s0: Store, events: seq<Event>, states: seq<Machine>, n: nat)
    requires s0.Owned() && IsTrace(lib, cfg, s0, events, states) && n <= |events|
    ensures NoMoreSpillable(s0, states[n])
  {
    hide Store.Owned, InitialBk, Step, LargeTierMatches, Store.DistinctIds, Enabled, Spillable, Inv, Store.Recomputed;
    hide SmallCandidates, LargeCandidates, DiskCandidates;
    if n > 0 {
      TraceSpillable(lib, cfg, s0, events, states, n - 1);
      TraceAt(lib, cfg, s0, events, states, n - 1);
      TraceInv(lib, cfg, s0, events, states, n - 1);
      StepSpillable(lib, cfg, s0, states[n - 1], events[n - 1], states[n]);
    }
  }

  /** When the disk has room even for everything large, no pop serves the disk. */
  lemma {:induction false} RoomMeansNoDiskPops(
      lib: Library, cfg: Config, s0: Store, events: seq<Event>, states: seq<Machine>, i: nat)
    requires s0.Owned() && IsTrace(lib, cfg, s0, events, states) && i < |events| && DiskHasRoom(cfg, s0)
    ensures !events[i].PopDisk?
  {
    hide IsTrace, Store.Owned, Store.Recomputed, Step, LargeTierMatches, Store.DistinctIds, Oldest, PicksSmall;
    hide PicksLarge, Inv;
    TraceLength(lib, cfg, s0, events, states);
    TraceSpillable(lib, cfg, s0, events, states, i);
    TraceInv(lib, cfg, s0, events, states, i);
    AccNotNegative(lib, s0, states[i]);
    TraceAt(lib, cfg, s0, events, states, i);
  }

  /** When the small usage is within its target, no pop serves it. */
  lemma {:induction false} WithinSmallMeansNoSmallPops(
      lib: Library, cfg: Config, s0: Store, events: seq<Event>, states: seq<Machine>, i: nat)
    requires s0.Owned() && IsTrace(lib, cfg, s0, events, states) && i < |events| && !cfg.OverSmall(s0.Recomputed())
    ensures !events[i].PopSmall?
  {
    hide IsTrace, Store.Owned, Store.Recomputed, Step, LargeTierMatches, Store.DistinctIds, Oldest, PicksLarge;
    hide PicksDisk;
    hide Usage.Small, Usage.TotalMemory;
    TraceLength(lib, cfg, s0, events, states);
    StartsExact(lib, cfg, s0, events, states);
    TraceLowers(lib, cfg, s0, events, states, 0, i);
    TraceAt(lib, cfg, s0, events, states, i);
  }

  lemma StartsExact(lib: Library, cfg: Config, s0: Store, events: seq<Event>, states: seq<Machine>)
    requires IsTrace(lib, cfg, s0, events, states)
    ensures states[0].acc == s0.Recomputed()
  {
    hide TraceStep, InitialBk, SmallCandidates, LargeCandidates, DiskCandidates, Store.Recomputed;
  }

  /** A pass over a store whose disk has room publishes an exact small gauge. */
  lemma {:induction false} RoomMeansExactSmallGauge(
      lib: Library, cfg: Config, s0: Store, events: seq<Event>, states: seq<Machine>, s1: Store, t: nat)
    requires s0.Owned() && IsPass(lib, cfg, s0, events, states, s1) && DiskHasRoom(cfg, s0)
    requires PublishedOldest(states[|events|].small, s1.now, t)
    ensures OldestLive(x => LiveSmall(s1, x), s1.now, t)
  {
    hide Store.Owned, IsPass, IsTrace, Done, SmallCandidates, DiskHasRoom, Cached, PassFacts, LiveSmall;
    hide PublishedOldest, OldestLive, ManifestsEvolved, BlobsEvolved, RedisEvolved, DeletedRightly, LargeOrDisk;
    hide SpilledAreFlagged, Inv, SmallHeapOk, LargeHeapOk, DiskHeapOk;
    var m := EndOfPass(lib, cfg, s0, events, states, s1);
    Facts(lib, s0, m);
    NoDiskPops(lib, cfg, s0, events, states);
    SmallHeapIsLive(lib, cfg, s0, events, states, |events|);
    forall x ensures LiveSmall(m.s, x) <==> x in m.small {
      if LiveSmall(m.s, x) {
        LiveSmallIsHeld(lib, s0, m, x);
      } else if x in m.small {
        SmallItemIsLive(s0, m.s, x);
      }
    }
    LiveHeapIsExact(m.small, s1.now, t, x => LiveSmall(s1, x));
  }

  lemma NoDiskPops(lib: Library, cfg: Config, s0: Store, events: seq<Event>, states: seq<Machine>)
    requires s0.Owned() && IsTrace(lib, cfg, s0, events, states) && DiskHasRoom(cfg, s0)
    ensures forall i :: 0 <= i < |events| ==> !events[i].PopDisk?
  {
    hide Store.Owned, IsTrace, DiskHasRoom;
    forall i | 0 <= i < |events| ensures !events[i].PopDisk? {
      RoomMeansNoDiskPops(lib, cfg, s0, events, states, i);
    }
  }

  // ---- Passes that pop large items only

  /** A pass over a store that is within its small target and whose disk has room
      pops from the large heap only. */
  lemma {:induction false} OnlyLargePops(
      lib: Library, cfg: Config, s0: Store, events: seq<Event>, states: seq<Machine>, i: nat)
    requires s0.Owned() && IsTrace(lib, cfg, s0, events, states) && i < |events|
    requires !cfg.OverSmall(s0.Recomputed()) && DiskHasRoom(cfg, s0)
    ensures events[i].PopLarge?
  {
    hide IsTrace, Store.Owned, DiskHasRoom, Config.OverSmall;
    WithinSmallMeansNoSmallPops(lib, cfg, s0, events, states, i);
    RoomMeansNoDiskPops(lib, cfg, s0, events, states, i);
  }

  /** No manifest of the large pool is flagged yet. */
  ghost predicate NoneFlagged(lib: Library, s0: Store) {
    forall d :: d in s0.manifests && RefersToTier(lib, s0, d, LargeMem) ==> !s0.manifests[d].evicted
  }

  /** Each item of the large pool has one candidate, and those left are neither
      flagged nor on disk nor gone. */
  ghost predicate LargeOnce(lib: Library, s0: Store, m: Machine) {
    forall c :: c in m.large ==> m.large[c] == 1 && c in LargeCandidates(lib, s0) && !Settled(m.s, c)
  }

  lemma LargeStart(lib: Library, s0: Store)
    requires NoneFlagged(lib, s0)
    ensures LargeOnce(lib, s0, Initial(lib, s0))
  {
    hide InitialBk, Store.Recomputed, SmallCandidates, DiskCandidates, RefersToTier;
    assert forall c :: c in LargeCandidates(lib, s0) ==> !Settled(s0, c);
    hide LargeCandidates;
  }

  lemma LargeItemsDiffer(lib: Library, s0: Store, x: Candidate, c: Candidate)
    requires x in LargeCandidates(lib, s0) && c in LargeCandidates(lib, s0) && SameItem(x, c)
    ensures x == c
  {
    hide RefersToTier;
  }

  /** Items keep being in their store, flagged or on disk; only `c` becomes settled. */
  ghost predicate SettlesOnly(s: Store, s': Store, c: Candidate, x: Candidate) {
    && s'.manifests.Keys == s.manifests.Keys && s'.redis.Keys == s.redis.Keys
    && (forall d :: d in s.manifests && s.manifests[d].evicted ==> s'.manifests[d].evicted)
    && (forall k :: k in s.redis && s.redis[k].OnDisk? ==> s'.redis[k].OnDisk?)
    && (!SameItem(x, c) && !Settled(s, x) ==> !Settled(s', x))
    && (Cached(s, c) ==> Settled(s', c))
  }

  lemma SpilledManifestSettles(lib: Library, m: Machine, c: Candidate, x: Candidate)
    requires c.ManifestCandidate? && m.s.DistinctIds() && LargeTierMatches(m)
    ensures SettlesOnly(m.s, SpillManifest(lib, m, c).s, c, x)
  {
    if c.digest in m.s.manifests {
      SpillManifestIs(lib, m, c);
      SpillManifestTouches(lib, m, c);
    } else {
      StaleSpill(lib, m, c);
    }
    hide SpillManifest, LargeTierMatches, Store.DistinctIds;
  }

  lemma SpilledValueSettles(m: Machine, c: Candidate, x: Candidate)
    requires c.RedisCandidate?
    ensures SettlesOnly(m.s, SpillRedisCandidate(m, c).s, c, x)
  {
    hide SaturatingSub;
  }

  /** A large pop flags or spills its own item and leaves the others of all pools alone. */
  lemma LargePopEffect(lib: Library, m: Machine, ev: Event, x: Candidate)
    requires m.s.DistinctIds() && LargeTierMatches(m) && ev.PopLarge?
    ensures SettlesOnly(m.s, Step(lib, m, ev).s, ev.c, x)
  {
    hide SettlesOnly, SpillManifest, SpillRedisCandidate, LargeTierMatches, Store.DistinctIds;
    var m1 := m.(large := m.large - multiset{ev.c});
    TierMatchIgnoresHeaps(m, m1);
    match ev.c {
      case ManifestCandidate(_, _) => SpilledManifestSettles(lib, m1, ev.c, x);
      case RedisCandidate(_, _, _) => SpilledValueSettles(m1, ev.c, x);
    }
  }

  lemma LargeOnceStep(lib: Library, s0: Store, m: Machine, ev: Event)
    requires m.s.DistinctIds() && LargeTierMatches(m) && LargeOnce(lib, s0, m) && ev.PopLarge? && ev.c in m.large
    ensures LargeOnce(lib, s0, Step(lib, m, ev))
  {
    hide Step, LargeTierMatches, Store.DistinctIds, LargeCandidates, SameItem, Settled, Cached;
    var m' := Step(lib, m, ev);
    StepHeaps(lib, m, ev);
    forall c | c in m'.large ensures m'.large[c] == 1 && c in LargeCandidates(lib, s0)
      && !Settled(m'.s, c) {
      if SameItem(c, ev.c) {
        LargeItemsDiffer(lib, s0, c, ev.c);
      } else {
        LargePopEffect(lib, m, ev, c);
      }
    }
  }

  lemma {:induction false} LargeHeapIsLive(
      lib: Library, cfg: Config, s0: Store, events: seq<Event>, states: seq<Machine>, n: nat)
    requires IsTrace(lib, cfg, s0, events, states) && n <= |events| && NoneFlagged(lib, s0)
    requires forall i :: 0 <= i < n ==> events[i].PopLarge?
    ensures LargeOnce(lib, s0, states[n])
  {
    hide Initial, Step, LargeTierMatches, Store.DistinctIds, PicksSmall, PicksLarge, PicksDisk, LargeOnce;
    hide NoneFlagged;
    if n == 0 {
      LargeStart(lib, s0);
    } else {
      LargeHeapIsLive(lib, cfg, s0, events, states, n - 1);
      TraceAt(lib, cfg, s0, events, states, n - 1);
      LargeOnceStep(lib, s0, states[n - 1], events[n - 1]);
    }
  }

  lemma OnlyLarge(lib: Library, cfg: Config, s0: Store, events: seq<Event>, states: seq<Machine>)
    requires s0.Owned() && IsTrace(lib, cfg, s0, events, states)
    requires !cfg.OverSmall(s0.Recomputed()) && DiskHasRoom(cfg, s0)
    ensures forall i :: 0 <= i < |events| ==> events[i].PopLarge?
  {
    hide Store.Owned, IsTrace, DiskHasRoom, Config.OverSmall;
    forall i | 0 <= i < |events| ensures events[i].PopLarge? {
      OnlyLargePops(lib, cfg, s0, events, states, i);
    }
  }

  /** A pass over a store within its small target, with room on the disk and without
      flagged manifests in its large pool publishes an exact large gauge. */
  lemma {:induction false} NoneFlaggedMeansExactLargeGauge(
      lib: Library, cfg: Config, s0: Store, events: seq<Event>, states: seq<Machine>, s1: Store, t: nat)
    requires s0.Owned() && IsPass(lib, cfg, s0, events, states, s1)
    requires !cfg.OverSmall(s0.Recomputed()) && DiskHasRoom(cfg, s0) && NoneFlagged(lib, s0)
    requires PublishedOldest(states[|events|].large, s1.now, t)
    ensures OldestLive(x => LiveLarge(lib, s1, x), s1.now, t)
  {
    hide Store.Owned, IsPass, IsTrace, Done, DiskHasRoom, Config.OverSmall, NoneFlagged, PassFacts, LiveLarge;
    hide LargeCandidates, Settled, PublishedOldest, OldestLive;
    var m := EndOfPass(lib, cfg, s0, events, states, s1);
    OnlyLarge(lib, cfg, s0, events, states);
    LargeHeapIsLive(lib, cfg, s0, events, states, |events|);
    PoppedAlongTrace(lib, cfg, s0, events, states, |events|, false);
    forall x ensures LiveLarge(lib, m.s, x) <==> x in m.large {
      if x in m.large {
        UnflaggedIsLive(lib, s0, m, x);
      } else if LiveLarge(lib, m.s, x) {
        MissedIsTied(lib, s0, m, x, false);
      }
    }
    LiveHeapIsExact(m.large, s1.now, t, x => LiveLarge(lib, s1, x));
  }

  // ---- The disk gauge

  lemma FlaggedIsNotHeld(lib: Library, s0: Store, m: Machine, x: Candidate)
    requires PassFacts(lib, s0, m) && NoneFlagged(lib, s0) && Flagged(s0, x)
    ensures x !in m.large
  {
    hide PassFacts, RefersToTier, LargeCandidates;
    if x in m.large {
      LargeIsDescribed(lib, s0, m, x);
      LargeItem(lib, s0, x);
    }
  }

  /** Without flagged manifests in the large pool the disk gauge is at most the touch
      time of everything that is on disk or refers to it, whatever the budgets. */
  lemma {:induction false} NoneFlaggedMeansDiskGaugeIsBound(
      lib: Library, cfg: Config, s0: Store, events: seq<Event>, states: seq<Machine>, s1: Store, t: nat)
    requires s0.Owned() && IsPass(lib, cfg, s0, events, states, s1) && NoneFlagged(lib, s0)
    requires PublishedOldest(states[|events|].disk, s1.now, t)
    ensures forall x :: LiveOnDisk(lib, s1, x) ==> x in states[|events|].disk && t <= x.lastAccessed
  {
    hide Store.Owned, IsPass, IsTrace, Done, NoneFlagged, PassFacts, LiveOnDisk, PublishedOldest;
    var m := EndOfPass(lib, cfg, s0, events, states, s1);
    forall x | LiveOnDisk(lib, s1, x) ensures x in m.disk && t <= x.lastAccessed {
      LiveOnDiskIsHeld(lib, s0, m, x);
      if x !in m.disk {
        FlaggedIsNotHeld(lib, s0, m, x);
      }
      OldestBelow(m.disk, s1.now, t, x);
    }
  }

  /** Everything on the disk heap was an item of the disk or of the large pool. */
  lemma {:induction false} DiskHeapComesFrom(
      lib: Library, cfg: Config, s0: Store, events: seq<Event>, states: seq<Machine>, n: nat)
    requires s0.Owned() && IsTrace(lib, cfg, s0, events, states) && n <= |events|
    ensures |states| == |events| + 1
    ensures forall c :: c in states[n].disk ==>
      c in DiskCandidates(lib, s0) || (n > 0 && c in LargeCandidates(lib, s0))
  {
    hide IsTrace, Store.Owned, Step, LargeTierMatches, Store.DistinctIds, Enabled, DiskCandidates, LargeCandidates;
    hide PassFacts, Oldest;
    TraceLength(lib, cfg, s0, events, states);
    if n == 0 {
      DiskHeapStart(lib, cfg, s0, events, states);
    } else {
      var m, ev := states[n - 1], events[n - 1];
      DiskHeapComesFrom(lib, cfg, s0, events, states, n - 1);
      TraceAt(lib, cfg, s0, events, states, n - 1);
      EventIsOldest(cfg, m, ev);
      StepHeaps(lib, m, ev);
      if ev.PopLarge? {
        TraceFacts(lib, cfg, s0, events, states, n - 1);
        OldestIsThere(m.large, ev.c);
        LargeIsDescribed(lib, s0, m, ev.c);
      }
    }
  }

  lemma DiskHeapStart(lib: Library, cfg: Config, s0: Store, events: seq<Event>, states: seq<Machine>)
    requires IsTrace(lib, cfg, s0, events, states)
    ensures states[0].disk == multiset(DiskCandidates(lib, s0)) && states[0].large == multiset(LargeCandidates(lib, s0))
  {
    hide InitialBk, Store.Recomputed, SmallCandidates, LargeCandidates, DiskCandidates, TraceStep;
  }

  /** What was on disk before the pass still is, if it is still cached. */
  lemma DiskItemIsLive(lib: Library, s0: Store, m: Machine, x: Candidate)
    requires PassFacts(lib, s0, m) && x in DiskCandidates(lib, s0) && Cached(m.s, x)
    ensures LiveOnDisk(lib, m.s, x)
  {
    hide PassFacts, Inv, ReferencedDigests, LargeOrDisk, SpilledAreFlagged, DeletedRightly, SmallHeapOk, LargeHeapOk;
    hide DiskHeapOk, RefersToTier, Store.RedisValue;
    Facts(lib, s0, m);
    SameDescription(s0, m.s, x);
    if x.ManifestCandidate? {
      var r := DiskBlobOf(lib, s0, x.digest);
      ReferredBlobStays(lib, s0, m, x.digest, r);
      hide Store.BlobBytes;
      TierWitness(lib, m.s, x.digest, r);
    }
  }

  lemma DiskBlobOf(lib: Library, s: Store, d: Digest) returns (r: Digest)
    requires d in s.manifests && RefersToTier(lib, s, d, Disk)
    ensures r in ReferencedDigests(lib, s.manifests[d].content) && r in s.blobs && s.blobs[r].OnDisk?
  {
    hide ReferencedDigests;
    r :| r in ReferencedDigests(lib, s.manifests[d].content) && r in s.blobs && TierOf(s.blobs[r]) == Disk;
  }

  lemma TierWitness(lib: Library, s: Store, d: Digest, r: Digest)
    requires d in s.manifests && r in ReferencedDigests(lib, s.manifests[d].content)
    requires r in s.blobs && s.blobs[r].OnDisk?
    ensures RefersToTier(lib, s, d, Disk)
  {
    hide ReferencedDigests;
    assert TierOf(s.blobs[r]) == Disk;
  }

  lemma ReferredBlobStays(lib: Library, s0: Store, m: Machine, d: Digest, r: Digest)
    requires PassFacts(lib, s0, m) && d in m.s.manifests && r in s0.blobs
    requires r in ReferencedDigests(lib, m.s.manifests[d].content)
    ensures r in m.s.blobs && SameOrSpilledBlob(s0.blobs[r], m.s.blobs[r])
  {
    hide PassFacts, Inv, ReferencedDigests, LargeOrDisk, SpilledAreFlagged, SmallHeapOk, LargeHeapOk, RefersTo;
    hide DiskHeapOk, RefCount, Store.BlobBytes, SameOrSpilledBlob, ManifestsEvolved, RedisEvolved;
    Facts(lib, s0, m);
    Refers(lib, m.s.manifests, d, r);
    RefersToIffCounted(lib, m.s.manifests, r);
  }

  /** `d` refers to a blob on disk, or to a large one in memory that no other manifest
      refers to: once it is popped it has something on disk. */
  ghost predicate HasItsOwn(lib: Library, s: Store, d: Digest)
    requires d in s.manifests
  {
    RefersToTier(lib, s, d, Disk) || exists r :: HoldsAlone(lib, s, d, r)
  }

  ghost predicate HoldsAlone(lib: Library, s: Store, d: Digest, r: Digest) {
    && HoldsLarge(lib, s, d, r)
    && forall e :: e in s.manifests && r in ReferencedDigests(lib, s.manifests[e].content) ==> e == d
  }

  lemma OnlyHolder(lib: Library, s0: Store, s: Store, d: Digest, r: Digest)
    requires ManifestsEvolved(s0, s) && HoldsAlone(lib, s0, d, r) && RefersTo(lib, Unevicted(s.manifests), r)
    ensures d in s.manifests && !s.manifests[d].evicted
  {
    hide ReferencedDigests, HoldsLarge;
    var u := Unevicted(s.manifests);
    var e :| e in u && r in ReferencedDigests(lib, u[e].content);
    assert e == d;
  }

  lemma AloneIsSpilled(lib: Library, s0: Store, m: Machine, d: Digest, r: Digest)
    requires PassFacts(lib, s0, m) && PoppedHoldNothing(lib, s0, m, false) && d in s0.manifests && d in m.s.manifests
    requires CandidateOf(s0, d) in LargeCandidates(lib, s0) && CandidateOf(s0, d) !in m.large
    requires HoldsAlone(lib, s0, d, r)
    ensures RefersToTier(lib, m.s, d, Disk)
  {
    hide PassFacts, Inv, ReferencedDigests, LargeOrDisk, SpilledAreFlagged, SmallHeapOk, DiskHeapOk, RefersTo;
    hide Unevicted, Store.BlobBytes, IsLargeInMemory, HoldsAlone, LargeCandidates, RefersToTier, BlobsEvolved;
    hide RedisEvolved, DeletedRightly;
    Facts(lib, s0, m);
    assert HoldsLarge(lib, s0, d, r) by { AloneHolds(lib, s0, d, r); }
    ReferredBlobStays(lib, s0, m, d, r);
    if m.s.blobs[r] == s0.blobs[r] {
      assert HoldsLarge(lib, m.s, d, r);
      assert Excused(lib, s0, m, d, r, false);
      OnlyHolder(lib, s0, m.s, d, r);
      assert false;
    } else {
      TierWitness(lib, m.s, d, r);
    }
  }

  lemma AloneHolds(lib: Library, s: Store, d: Digest, r: Digest)
    requires HoldsAlone(lib, s, d, r)
    ensures HoldsLarge(lib, s, d, r)
  {
    hide HoldsLarge, ReferencedDigests;
  }

  /** An item that has been popped off the large heap has something on disk. */
  lemma PoppedIsOnDisk(lib: Library, s0: Store, m: Machine, x: Candidate)
    requires PassFacts(lib, s0, m) && PoppedHoldNothing(lib, s0, m, false)
    requires x in LargeCandidates(lib, s0) && x !in m.large && Cached(m.s, x)
    requires x.ManifestCandidate? ==> x.digest in s0.manifests && HasItsOwn(lib, s0, x.digest)
    ensures LiveOnDisk(lib, m.s, x)
  {
    hide PassFacts, Inv, LargeOrDisk, SpilledAreFlagged, SmallHeapOk, DiskHeapOk, HoldsAlone, LargeCandidates;
    hide RefersToTier, BlobsEvolved, DeletedRightly, PoppedHoldNothing, Store.RedisValue;
    Facts(lib, s0, m);
    LargeItem(lib, s0, x);
    SameDescription(s0, m.s, x);
    match x {
      case ManifestCandidate(_, d) =>
        if RefersToTier(lib, s0, d, Disk) {
          assert x in DiskCandidates(lib, s0);
          DiskItemIsLive(lib, s0, m, x);
        } else {
          var r :| HoldsAlone(lib, s0, d, r);
          AloneIsSpilled(lib, s0, m, d, r);
        }
      case RedisCandidate(_, k, _) =>
    }
  }

  /** What a pass would spill first leaves something on disk. */
  ghost predicate OldestGoesToDisk(lib: Library, s: Store) {
    forall c :: Oldest(multiset(LargeCandidates(lib, s)), c) && c.ManifestCandidate? ==>
      c.digest in s.manifests && HasItsOwn(lib, s, c.digest)
  }

  lemma FirstPop(lib: Library, cfg: Config, s0: Store, events: seq<Event>, states: seq<Machine>)
    requires IsTrace(lib, cfg, s0, events, states) && |events| > 0 && events[0].PopLarge?
    ensures |states| == |events| + 1 && Oldest(multiset(LargeCandidates(lib, s0)), events[0].c)
    ensures events[0].c in LargeCandidates(lib, s0) && events[0].c !in states[|events|].large
  {
    hide IsTrace, LargeCandidates, Step, LargeTierMatches, Store.DistinctIds, Enabled, DiskCandidates;
    TraceLength(lib, cfg, s0, events, states);
    DiskHeapStart(lib, cfg, s0, events, states);
    TraceAt(lib, cfg, s0, events, states, 0);
    EventIsOldest(cfg, states[0], events[0]);
    StepHeaps(lib, states[0], events[0]);
    HeapsShrink(lib, cfg, s0, events, states, 1, |events|);
  }

  lemma OldestOfAll(lib: Library, s: Store, c: Candidate, x: Candidate)
    requires Oldest(multiset(LargeCandidates(lib, s)), c) && x in LargeCandidates(lib, s)
    ensures c.lastAccessed <= x.lastAccessed
  {
    hide LargeCandidates;
    assert x in multiset(LargeCandidates(lib, s));
  }

  /** The same keys, the same blobs, and manifests with the same content. */
  ghost predicate NothingDropped(s0: Store, s: Store) {
    s.redis.Keys == s0.redis.Keys && s.blobs.Keys == s0.blobs.Keys && SameContents(s0, s) && SameContents(s, s0)
  }

  lemma {:induction false} LargePopsDropNothing(
      lib: Library, cfg: Config, s0: Store, events: seq<Event>, states: seq<Machine>, n: nat)
    requires IsTrace(lib, cfg, s0, events, states) && n <= |events| && forall i :: 0 <= i < n ==> events[i].PopLarge?
    ensures NothingDropped(s0, states[n].s)
  {
    hide InitialBk, Step, LargeTierMatches, Store.DistinctIds, Enabled, Store.Recomputed;
    hide SmallCandidates, LargeCandidates, DiskCandidates;
    if n > 0 {
      LargePopsDropNothing(lib, cfg, s0, events, states, n - 1);
      TraceAt(lib, cfg, s0, events, states, n - 1);
      NoDropSame(lib, states[n - 1], events[n - 1]);
      LargePopEffect(lib, states[n - 1], events[n - 1], events[n - 1].c);
    }
  }

  /** If moreover what would be spilled first leaves something on disk, the disk gauge
      is exact too. */
  lemma {:induction false} OwnBlobMeansExactDiskGauge(
      lib: Library, cfg: Config, s0: Store, events: seq<Event>, states: seq<Machine>, s1: Store, t: nat)
    requires s0.Owned() && IsPass(lib, cfg, s0, events, states, s1)
    requires !cfg.OverSmall(s0.Recomputed()) && DiskHasRoom(cfg, s0) && NoneFlagged(lib, s0)
    requires OldestGoesToDisk(lib, s0) && PublishedOldest(states[|events|].disk, s1.now, t)
    ensures OldestLive(x => LiveOnDisk(lib, s1, x), s1.now, t)
  {
    hide Store.Owned, IsPass, IsTrace, Done, DiskHasRoom, Config.OverSmall, NoneFlagged, PassFacts, LiveOnDisk;
    hide LargeCandidates, DiskCandidates, OldestGoesToDisk, OldestLive;
    var m := EndOfPass(lib, cfg, s0, events, states, s1);
    OnlyLarge(lib, cfg, s0, events, states);
    NoneFlaggedMeansDiskGaugeIsBound(lib, cfg, s0, events, states, s1, t);
    if m.disk != multiset{} {
      var c :| c in m.disk && Oldest(m.disk, c) && t == c.lastAccessed;
      var x := LiveAtLeastAsOld(lib, cfg, s0, events, states, c);
      LiveOneIsOldest(x => LiveOnDisk(lib, s1, x), s1.now, t, x);
    } else {
      LiveHeapIsExact(m.disk, s1.now, t, x => LiveOnDisk(lib, s1, x));
    }
  }

  lemma LiveOneIsOldest(live: Candidate -> bool, now: nat, t: nat, x: Candidate)
    requires live(x) && x.lastAccessed == t && forall y :: live(y) ==> t <= y.lastAccessed
    ensures OldestLive(live, now, t)
  {}

  /** Nothing on the disk heap is older than all that is on disk. */
  lemma LiveAtLeastAsOld(lib: Library, cfg: Config, s0: Store, events: seq<Event>, states: seq<Machine>, c: Candidate)
      returns (x: Candidate)
    requires s0.Owned() && IsTrace(lib, cfg, s0, events, states) && OldestGoesToDisk(lib, s0)
    requires forall i :: 0 <= i < |events| ==> events[i].PopLarge?
    requires |states| == |events| + 1 && c in states[|events|].disk
    ensures LiveOnDisk(lib, states[|events|].s, x) && x.lastAccessed <= c.lastAccessed
  {
    hide Store.Owned, IsTrace, PassFacts, LiveOnDisk, LargeCandidates, DiskCandidates, PoppedHoldNothing, HasItsOwn;
    hide PoppedAreOlder, Oldest;
    var m := states[|events|];
    TraceFacts(lib, cfg, s0, events, states, |events|);
    DiskHeapComesFrom(lib, cfg, s0, events, states, |events|);
    LargePopsDropNothing(lib, cfg, s0, events, states, |events|);
    if c in DiskCandidates(lib, s0) {
      x := c;
      DiskItemOf(lib, s0, x);
      DiskItemIsLive(lib, s0, m, x);
    } else {
      x := events[0].c;
      FirstPop(lib, cfg, s0, events, states);
      OldestOfAll(lib, s0, x, c);
      LargeItem(lib, s0, x);
      PoppedAlongTrace(lib, cfg, s0, events, states, |events|, false);
      PoppedIsOnDisk(lib, s0, m, x);
    }
  }

  lemma DiskItemOf(lib: Library, s: Store, x: Candidate)
    requires x in DiskCandidates(lib, s)
    ensures Cached(s, x)
  {
    hide RefersToTier;
  }
}
