/** The order in which a pass serves its budgets, and what follows from it for
    the blobs that are still in memory or on disk when it ends. */
module EvictionPhases {
  import opened Prelude
  import opened DigestText
  import opened UsageSums
  import opened References
  import opened Cache
  import opened EvictionMachine
  import opened EvictionStore
  import opened EvictionInvariant
  import opened EvictionHeaps
  import opened EvictionTheorems

  // ---- The accumulators the loop compares never rise

  lemma SaturatingLowers(acc: Usage, u: Usage)
    requires ZERO.AtMost(acc) && ZERO.AtMost(u)
    ensures ZERO.AtMost(acc.Saturating(u)) && acc.Saturating(u).AtMost(acc)
  {}

  predicate NoHigher(acc': Usage, acc: Usage) {
    acc'.Small() <= acc.Small() && acc'.TotalMemory() <= acc.TotalMemory()
  }

  lemma AtMostIsNoHigher(acc': Usage, acc: Usage)
    requires acc'.AtMost(acc)
    ensures NoHigher(acc', acc)
  {}

  lemma MovedIsNoHigher(acc: Usage, n: int)
    requires ZERO.AtMost(acc) && n >= 0
    ensures NoHigher(Moved(acc, n), acc)
  {}

  lemma ChargesAreNotNegative(m: Manifest, b: Bucket, n: nat)
    ensures ZERO.AtMost(ManifestCharge(m)) && ZERO.AtMost(In(b, n))
  {}

  lemma DropManifestLowers(lib: Library, m: Machine, d: Digest)
    requires ZERO.AtMost(m.acc)
    ensures DropManifest(lib, m, d).acc.AtMost(m.acc)
  {
    if d in m.s.manifests {
      hide BlobTotal, DroppedBk, ToDelete, DeleteBlobs, UntagManifest, ManifestCharge, OnlyBlobs, Usage.Saturating;
      hide Usage.AtMost;
      var man := m.s.manifests[d];
      var refs := ReferencedDigests(lib, man.content);
      var w := ToDelete(m.s, DroppedBk(m.bk, man.evicted, refs), refs);
      ChargesAreNotNegative(man, SmallRedisMemory, 0);
      BlobTotalIsOnlyBlobs(m.s, w);
      SaturatingLowers(m.acc, ManifestCharge(man));
      SaturatingLowers(m.acc.Saturating(ManifestCharge(man)), BlobTotal(m.s, w));
      AtMostTransitive(m.acc.Saturating(ManifestCharge(man)).Saturating(BlobTotal(m.s, w)),
                       m.acc.Saturating(ManifestCharge(man)), m.acc);
    } else {
      AtMostTransitive(m.acc, m.acc, m.acc);
    }
  }

  lemma AtMostTransitive(u: Usage, v: Usage, w: Usage)
    ensures u.AtMost(u)
    ensures u.AtMost(v) && v.AtMost(w) ==> u.AtMost(w)
  {}

  lemma DropRedisLowers(m: Machine, k: Bytes, b: Bucket, n: nat)
    requires ZERO.AtMost(m.acc)
    ensures DropRedis(m, k, In(b, n)).acc.AtMost(m.acc)
  {
    hide In, Usage.Saturating, Usage.AtMost;
    ChargesAreNotNegative(Manifest([], [], 0, false), b, n);
    SaturatingLowers(m.acc, In(b, n));
    AtMostTransitive(m.acc, m.acc, m.acc);
  }

  lemma SpillLowers(lib: Library, m: Machine, c: Candidate)
    requires ZERO.AtMost(m.acc) && m.s.DistinctIds() && LargeTierMatches(m)
    ensures c.ManifestCandidate? ==> NoHigher(SpillManifest(lib, m, c).acc, m.acc)
    ensures c.RedisCandidate? ==> NoHigher(SpillRedisCandidate(m, c).acc, m.acc)
  {
    if c.ManifestCandidate? && c.digest in m.s.manifests {
      hide BlobTotal, SpilledBk, ToSpill, Moved, SpillBlobs, OnlyBlobs;
      var man := m.s.manifests[c.digest];
      var refs := ReferencedDigests(lib, man.content);
      var w := ToSpill(m.s, SpilledBk(m.bk, man.evicted, refs), refs);
      BlobTotalIsOnlyBlobs(FlagManifest(m.s, c.digest), w);
      MovedIsNoHigher(m.acc, BlobTotal(FlagManifest(m.s, c.digest), w).largeBlobMemory);
    }
  }

  lemma StepLowers(lib: Library, m: Machine, ev: Event)
    requires ZERO.AtMost(m.acc) && m.s.DistinctIds() && LargeTierMatches(m)
    ensures NoHigher(Step(lib, m, ev).acc, m.acc)
  {
    hide NoHigher, DropManifest, DropRedis, SpillManifest, SpillRedisCandidate, Store.DistinctIds, LargeTierMatches, In;
    hide Usage.AtMost;
    match ev {
      case PopSmall(c) =>
        var m1 := m.(small := m.small - multiset{c});
        match c {
          case ManifestCandidate(_, d) =>
            DropManifestLowers(lib, m1, d);
            AtMostIsNoHigher(DropManifest(lib, m1, d).acc, m.acc);
          case RedisCandidate(_, k, size) =>
            DropRedisLowers(m1, k, SmallRedisMemory, size);
            AtMostIsNoHigher(DropRedis(m1, k, In(SmallRedisMemory, size)).acc, m.acc);
        }
      case PopLarge(c) =>
        var m1 := m.(large := m.large - multiset{c});
        TierMatchIgnoresHeaps(m, m1);
        SpillLowers(lib, m1, c);
      case PopDisk(c) =>
        var m1 := m.(disk := m.disk - multiset{c});
        match c {
          case ManifestCandidate(_, d) =>
            DropManifestLowers(lib, m1, d);
            AtMostIsNoHigher(DropManifest(lib, m1, d).acc, m.acc);
          case RedisCandidate(_, k, size) =>
            DropRedisLowers(m1, k, RedisDisk, size);
            AtMostIsNoHigher(DropRedis(m1, k, In(RedisDisk, size)).acc, m.acc);
        }
    }
  }

  lemma AccNotNegative(lib: Library, s0: Store, m: Machine)
    requires Inv(lib, s0, m)
    ensures ZERO.AtMost(m.acc)
  {
    hide Inv, Store.Recomputed, KeySlack, Usage.Plus, Usage.AtMost, BlobsEvolved, RedisEvolved, RefsExact;
    hide DeletedRightly;
    hide SmallHeapOk, LargeHeapOk, DiskHeapOk, BkStable, In;
    InvParts(lib, s0, m);
    AccIsSum(s0, m.s, m.acc);
    hide AccExact;
    RecomputedNonNegative(m.s);
    KeySlackNonNegative(s0, m.s);
    SumNonNegative(m.s.Recomputed(), KeySlack(s0, m.s));
  }

  lemma {:induction false} TraceLowers(
      lib: Library, cfg: Config, s0: Store, events: seq<Event>, states: seq<Machine>, i: nat, j: nat)
    requires s0.Owned() && IsTrace(lib, cfg, s0, events, states) && i <= j <= |events|
    ensures NoHigher(states[j].acc, states[i].acc)
    decreases j
  {
    hide Initial, Step, LargeTierMatches, Store.DistinctIds, Store.Owned, Enabled, Inv, Usage.AtMost;
    if i < j {
      TraceLowers(lib, cfg, s0, events, states, i, j - 1);
      TraceAt(lib, cfg, s0, events, states, j - 1);
      TraceInv(lib, cfg, s0, events, states, j - 1);
      AccNotNegative(lib, s0, states[j - 1]);
      StepLowers(lib, states[j - 1], events[j - 1]);
    }
  }

  // ---- Phases

  /** Which budget a pop serves, in the order of priority. */
  function Phase(ev: Event): nat {
    match ev
    case PopSmall(_) => 0
    case PopLarge(_) => 1
    case PopDisk(_) => 2
  }

  lemma SmallStaysServed(
      lib: Library, cfg: Config, s0: Store, events: seq<Event>, states: seq<Machine>, i: nat, j: nat)
    requires s0.Owned() && IsTrace(lib, cfg, s0, events, states) && i <= j <= |events|
    requires !PicksSmall(cfg, states[i])
    ensures !PicksSmall(cfg, states[j])
  {
    hide IsTrace, Store.Owned, Usage.Small, Usage.TotalMemory;
    TraceLength(lib, cfg, s0, events, states);
    TraceLowers(lib, cfg, s0, events, states, i, j);
    HeapsShrink(lib, cfg, s0, events, states, i, j);
  }

  lemma TraceLength(lib: Library, cfg: Config, s0: Store, events: seq<Event>, states: seq<Machine>)
    requires IsTrace(lib, cfg, s0, events, states)
    ensures |states| == |events| + 1
  {}

  lemma LargeStaysServed(cfg: Config, m: Machine, m': Machine)
    requires NoHigher(m'.acc, m.acc) && m'.large <= m.large && !PicksSmall(cfg, m) && !PicksLarge(cfg, m)
    ensures !PicksLarge(cfg, m')
  {
    hide Usage.Small, Usage.TotalMemory, PicksSmall;
  }

  /** A pass runs in three phases: all pops of the small heap come before all pops
      of the large heap, and those before all pops of the disk heap. */
  lemma {:induction false} PopsComeInPhases(
      lib: Library, cfg: Config, s0: Store, events: seq<Event>, states: seq<Machine>, i: nat, j: nat)
    requires s0.Owned() && IsTrace(lib, cfg, s0, events, states) && i <= j < |events|
    ensures Phase(events[i]) <= Phase(events[j])
  {
    hide IsTrace, Store.Owned, Step, LargeTierMatches, Store.DistinctIds, Oldest, PicksSmall;
    TraceLength(lib, cfg, s0, events, states);
    TraceAt(lib, cfg, s0, events, states, i);
    TraceAt(lib, cfg, s0, events, states, j);
    if !PicksSmall(cfg, states[i]) {
      SmallStaysServed(lib, cfg, s0, events, states, i, j);
      if !PicksLarge(cfg, states[i]) {
        TraceLowers(lib, cfg, s0, events, states, i, j);
        HeapsShrink(lib, cfg, s0, events, states, i, j);
        LargeStaysServed(cfg, states[i], states[j]);
      }
    }
  }

  lemma {:induction false} LargeHeapUntouched(
      lib: Library, cfg: Config, s0: Store, events: seq<Event>, states: seq<Machine>, n: nat)
    requires IsTrace(lib, cfg, s0, events, states) && n <= |events|
    requires forall i :: 0 <= i < n ==> events[i].PopSmall?
    ensures states[n].large == multiset(LargeCandidates(lib, s0))
  {
    hide InitialBk, Step, LargeTierMatches, Store.DistinctIds, Enabled, LargeCandidates, Store.Recomputed;
    if n > 0 {
      LargeHeapUntouched(lib, cfg, s0, events, states, n - 1);
      TraceAt(lib, cfg, s0, events, states, n - 1);
      StepHeaps(lib, states[n - 1], events[n - 1]);
    }
  }

  // ---- What a pop does to manifests and blobs

  /** Nothing but manifests and blobs of `s`, unchanged. */
  ghost predicate FewerItems(s: Store, s': Store) {
    && (forall d :: d in s'.manifests ==> d in s.manifests && s'.manifests[d] == s.manifests[d])
    && (forall r :: r in s'.blobs ==> r in s.blobs && s'.blobs[r] == s.blobs[r])
  }

  lemma DropManifestFewer(lib: Library, m: Machine, d: Digest)
    ensures FewerItems(m.s, DropManifest(lib, m, d).s)
  {
    if d in m.s.manifests {
      DropManifestShape(lib, m, d);
      hide DropManifest;
    }
  }

  predicate SpillsManifest(ev: Event) {
    ev.PopLarge? && ev.c.ManifestCandidate?
  }

  lemma RedisPopsAreFewer(m: Machine, c: Candidate, u: Usage)
    requires c.RedisCandidate?
    ensures FewerItems(m.s, DropRedis(m, c.key, u).s) && FewerItems(m.s, SpillRedisCandidate(m, c).s)
  {
    hide RedisCharge;
  }

  /** A pop that does not spill a manifest leaves the other items as they are. */
  lemma StepIsFewer(lib: Library, m: Machine, ev: Event)
    requires m.s.DistinctIds() && LargeTierMatches(m) && !SpillsManifest(ev)
    ensures FewerItems(m.s, Step(lib, m, ev).s)
  {
    hide DropManifest, DropRedis, SpillRedisCandidate, In, Store.DistinctIds, LargeTierMatches, FewerItems;
    match ev {
      case PopSmall(c) =>
        var m1 := m.(small := m.small - multiset{c});
        match c {
          case ManifestCandidate(_, d) => DropManifestFewer(lib, m1, d);
          case RedisCandidate(_, _, size) => RedisPopsAreFewer(m1, c, In(SmallRedisMemory, size));
        }
      case PopLarge(c) => RedisPopsAreFewer(m.(large := m.large - multiset{c}), c, ZERO);
      case PopDisk(c) =>
        var m1 := m.(disk := m.disk - multiset{c});
        match c {
          case ManifestCandidate(_, d) => DropManifestFewer(lib, m1, d);
          case RedisCandidate(_, _, size) => RedisPopsAreFewer(m1, c, In(RedisDisk, size));
        }
    }
  }

  /** Heaps do not matter to what a spill does to the store. */
  lemma SpillIgnoresHeaps(lib: Library, m: Machine, m1: Machine, c: Candidate)
    requires c.ManifestCandidate? && m.s.DistinctIds() && LargeTierMatches(m) && LargeTierMatches(m1)
    requires m1.s == m.s && m1.bk == m.bk
    ensures SpillManifest(lib, m1, c).s == SpillManifest(lib, m, c).s
  {
    hide SpilledBk, ToSpill, SpillBlobs, BlobTotal, Moved, LargeTierMatches, Store.DistinctIds;
  }

  lemma SpillStep(lib: Library, m: Machine, ev: Event)
    requires m.s.DistinctIds() && LargeTierMatches(m) && SpillsManifest(ev)
    ensures Step(lib, m, ev).s == SpillManifest(lib, m, ev.c).s
  {
    var m1 := m.(large := m.large - multiset{ev.c});
    TierMatchIgnoresHeaps(m, m1);
    SpillIgnoresHeaps(lib, m, m1, ev.c);
    hide SpillManifest, LargeTierMatches, Store.DistinctIds;
  }

  /** The manifests of `s'` are manifests of `s` with the same content. */
  ghost predicate SameContents(s: Store, s': Store) {
    forall d :: d in s'.manifests ==> d in s.manifests && s'.manifests[d].content == s.manifests[d].content
  }

  lemma ContentsRefer(lib: Library, s: Store, s': Store, r: Digest)
    requires SameContents(s, s')
    ensures RefersTo(lib, s'.manifests, r) ==> RefersTo(lib, s.manifests, r)
  {
    hide ReferencedDigests;
    if RefersTo(lib, s'.manifests, r) {
      var d :| d in s'.manifests && r in ReferencedDigests(lib, s'.manifests[d].content);
      assert d in s.manifests;
    }
  }

  // ---- Large blobs that are still referred to

  /** `d` is a surviving manifest that refers to `r` and is still on the large heap. */
  predicate Holder(lib: Library, s0: Store, m: Machine, d: Digest, r: Digest) {
    && d in m.s.manifests && r in ReferencedDigests(lib, m.s.manifests[d].content)
    && d in s0.manifests && CandidateOf(s0, d) in m.large
  }

  /** A large blob in memory that some manifest refers to. */
  predicate HeldInMemory(lib: Library, s: Store, r: Digest) {
    r in s.blobs && IsLargeInMemory(s.blobs[r]) && RefersTo(lib, s.manifests, r)
  }

  ghost predicate HeldByHeap(lib: Library, s0: Store, m: Machine) {
    forall r :: HeldInMemory(lib, m.s, r) ==> exists d :: Holder(lib, s0, m, d, r)
  }

  lemma ReferrerIsCandidate(lib: Library, s0: Store, s: Store, d: Digest, r: Digest)
    requires ManifestsEvolved(s0, s) && BlobsEvolved(s0, s)
    requires d in s.manifests && r in ReferencedDigests(lib, s.manifests[d].content)
    requires r in s.blobs && IsLargeInMemory(s.blobs[r])
    ensures d in s0.manifests && CandidateOf(s0, d) in LargeCandidates(lib, s0)
  {
    hide Store.BlobBytes, ReferencedDigests;
    assert r in s0.blobs && TierOf(s0.blobs[r]) == LargeMem;
    assert RefersToTier(lib, s0, d, LargeMem);
  }

  lemma HeldWhenFull(lib: Library, s0: Store, m: Machine)
    requires Inv(lib, s0, m) && m.large == multiset(LargeCandidates(lib, s0))
    ensures HeldByHeap(lib, s0, m)
  {
    InvParts(lib, s0, m);
    InvManifests(lib, s0, m);
    hide Inv, ManifestsEvolved, BlobsEvolved, RedisEvolved, LargeCandidates, IsLargeInMemory, ReferencedDigests;
    hide BkStable, RefsExact, DeletedRightly, AccExact, SmallHeapOk, LargeHeapOk, DiskHeapOk, CandidateOf;
    forall r | HeldInMemory(lib, m.s, r) ensures exists d :: Holder(lib, s0, m, d, r) {
      var d :| d in m.s.manifests && r in ReferencedDigests(lib, m.s.manifests[d].content);
      ReferrerIsCandidate(lib, s0, m.s, d, r);
      assert Holder(lib, s0, m, d, r);
    }
  }

  /** A referrer that is not flagged is still on the large heap. */
  lemma UnflaggedIsHolder(lib: Library, s0: Store, m: Machine, r: Digest)
    requires Inv(lib, s0, m) && r in m.s.blobs && IsLargeInMemory(m.s.blobs[r])
    requires RefersTo(lib, Unevicted(m.s.manifests), r)
    ensures exists d :: Holder(lib, s0, m, d, r)
  {
    InvParts(lib, s0, m);
    InvManifests(lib, s0, m);
    hide Inv, ManifestsEvolved, BlobsEvolved, RedisEvolved, LargeCandidates, IsLargeInMemory, ReferencedDigests;
    hide BkStable, RefsExact, DeletedRightly, AccExact, SmallHeapOk, DiskHeapOk;
    var u := Unevicted(m.s.manifests);
    var d :| d in u && r in ReferencedDigests(lib, u[d].content);
    ReferrerIsCandidate(lib, s0, m.s, d, r);
    assert !Settled(m.s, CandidateOf(s0, d));
    assert Holder(lib, s0, m, d, r);
  }

  lemma SpilledIsNotLarge(b: Blob)
    ensures !IsLargeInMemory(ToDisk(b))
  {}

  /** What a spill leaves of a large blob in memory. */
  lemma SpillLeaves(lib: Library, s0: Store, m: Machine, c: Candidate, r: Digest)
    requires Inv(lib, s0, m) && m.s.DistinctIds() && LargeTierMatches(m)
    requires c.ManifestCandidate? && c.digest in m.s.manifests
    requires HeldInMemory(lib, SpillManifest(lib, m, c).s, r)
    ensures HeldInMemory(lib, m.s, r)
    ensures r in ReferencedDigests(lib, m.s.manifests[c.digest].content) ==>
      RefersTo(lib, Unevicted(SpillManifest(lib, m, c).s.manifests), r)
  {
    hide SpillManifest, SpilledBk, ToSpill, Inv, LargeTierMatches, Store.DistinctIds, ReferencedDigests, RefersTo;
    hide IsLargeInMemory, ToDisk, Unevicted;
    SpillManifestIs(lib, m, c);
    SpillMovesExactly(lib, s0, m, c, r);
    SpilledIsNotLarge(m.s.blobs[r]);
    ContentsRefer(lib, m.s, SpillManifest(lib, m, c).s, r);
  }

  lemma HolderSurvives(lib: Library, s0: Store, m: Machine, m': Machine, c: Candidate, d: Digest, r: Digest)
    requires Holder(lib, s0, m, d, r) && m'.large == m.large - multiset{c}
    requires c.ManifestCandidate? ==> d != c.digest
    requires d in m'.s.manifests && m'.s.manifests[d].content == m.s.manifests[d].content
    ensures Holder(lib, s0, m', d, r)
  {
    hide ReferencedDigests;
  }

  lemma HeldAfterSpill(lib: Library, s0: Store, m: Machine, m': Machine, c: Candidate, r: Digest)
    requires Inv(lib, s0, m) && m.s.DistinctIds() && LargeTierMatches(m) && Inv(lib, s0, m')
    requires c.ManifestCandidate? && HeldByHeap(lib, s0, m)
    requires m'.s == SpillManifest(lib, m, c).s && m'.large == m.large - multiset{c}
    requires HeldInMemory(lib, m'.s, r)
    ensures exists d :: Holder(lib, s0, m', d, r)
  {
    hide Inv, LargeTierMatches, Store.DistinctIds, HeldInMemory, Holder, ReferencedDigests, SpillManifest;
    if c.digest in m.s.manifests {
      SpillLeaves(lib, s0, m, c, r);
      SpillManifestIs(lib, m, c);
      if r in ReferencedDigests(lib, m.s.manifests[c.digest].content) {
        HeldParts(lib, m'.s, r);
        UnflaggedIsHolder(lib, s0, m', r);
      } else {
        var d :| Holder(lib, s0, m, d, r);
        HolderParts(lib, s0, m, d, r);
        HolderSurvives(lib, s0, m, m', c, d, r);
      }
    } else {
      StaleSpill(lib, m, c);
      var d :| Holder(lib, s0, m, d, r);
      HolderParts(lib, s0, m, d, r);
      HolderSurvives(lib, s0, m, m', c, d, r);
    }
  }

  lemma StaleSpill(lib: Library, m: Machine, c: Candidate)
    requires c.ManifestCandidate? && m.s.DistinctIds() && LargeTierMatches(m) && c.digest !in m.s.manifests
    ensures SpillManifest(lib, m, c) == m
  {}

  lemma HeldParts(lib: Library, s: Store, r: Digest)
    requires HeldInMemory(lib, s, r)
    ensures r in s.blobs && IsLargeInMemory(s.blobs[r]) && RefersTo(lib, s.manifests, r)
  {}

  lemma HolderParts(lib: Library, s0: Store, m: Machine, d: Digest, r: Digest)
    requires Holder(lib, s0, m, d, r)
    ensures d in m.s.manifests && r in ReferencedDigests(lib, m.s.manifests[d].content)
  {}

  lemma HeldAfterPopLarge(lib: Library, s0: Store, m: Machine, ev: Event)
    requires Inv(lib, s0, m) && m.s.DistinctIds() && LargeTierMatches(m) && Inv(lib, s0, Step(lib, m, ev))
    requires ev.PopLarge? && HeldByHeap(lib, s0, m)
    ensures HeldByHeap(lib, s0, Step(lib, m, ev))
  {
    var m' := Step(lib, m, ev);
    StepHeaps(lib, m, ev);
    if SpillsManifest(ev) {
      SpillStep(lib, m, ev);
    } else {
      ValueSpillLeaves(lib, m, ev);
    }
    hide Inv, LargeTierMatches, Store.DistinctIds, HeldInMemory, Holder, Step, SpillManifest;
    forall r | HeldInMemory(lib, m'.s, r) ensures exists d :: Holder(lib, s0, m', d, r) {
      if SpillsManifest(ev) {
        HeldAfterSpill(lib, s0, m, m', ev.c, r);
      } else {
        SameItemsHeld(lib, m.s, m'.s, r);
        var d :| Holder(lib, s0, m, d, r);
        HolderParts(lib, s0, m, d, r);
        HolderSurvives(lib, s0, m, m', ev.c, d, r);
      }
    }
  }

  lemma SameItemsHeld(lib: Library, s: Store, s': Store, r: Digest)
    requires s'.manifests == s.manifests && s'.blobs == s.blobs
    ensures HeldInMemory(lib, s', r) <==> HeldInMemory(lib, s, r)
  {}

  lemma ValueSpillLeaves(lib: Library, m: Machine, ev: Event)
    requires m.s.DistinctIds() && LargeTierMatches(m) && ev.PopLarge? && ev.c.RedisCandidate?
    ensures Step(lib, m, ev).s.manifests == m.s.manifests && Step(lib, m, ev).s.blobs == m.s.blobs
  {}

  lemma FewerHeld(lib: Library, s: Store, s': Store, r: Digest)
    requires FewerItems(s, s')
    ensures HeldInMemory(lib, s', r) ==> HeldInMemory(lib, s, r)
  {
    hide IsLargeInMemory, RefersTo;
    ContentsRefer(lib, s, s', r);
  }

  lemma NoHolders(lib: Library, s0: Store, m: Machine)
    requires HeldByHeap(lib, s0, m) && m.large == multiset{}
    ensures forall r :: !HeldInMemory(lib, m.s, r)
  {
    hide HeldInMemory, ReferencedDigests;
  }

  /** Without holders on the heap nothing is held, and dropping keeps it that way. */
  lemma NothingHeldAfterDrop(lib: Library, s0: Store, m: Machine, m': Machine)
    requires HeldByHeap(lib, s0, m) && m.large == multiset{} && FewerItems(m.s, m'.s)
    ensures forall r :: !HeldInMemory(lib, m'.s, r)
  {
    hide HeldInMemory, HeldByHeap, FewerItems;
    NoHolders(lib, s0, m);
    forall r ensures HeldInMemory(lib, m'.s, r) ==> HeldInMemory(lib, m.s, r) {
      FewerHeld(lib, m.s, m'.s, r);
    }
  }

  /** While a trace is over its memory target, every large blob that is referred to
      has a referrer on the large heap. */
  lemma {:induction false} HeldAlongTrace(
      lib: Library, cfg: Config, s0: Store, events: seq<Event>, states: seq<Machine>, n: nat)
    requires s0.Owned() && IsTrace(lib, cfg, s0, events, states) && n <= |events|
    requires cfg.OverMemory(states[n].acc)
    ensures HeldByHeap(lib, s0, states[n])
  {
    hide Store.Owned, Initial, Inv, Step, Oldest, LargeTierMatches, Store.DistinctIds, HeldByHeap, FewerItems;
    TraceInv(lib, cfg, s0, events, states, n);
    if n == 0 || events[n - 1].PopSmall? {
      forall i | 0 <= i < n ensures events[i].PopSmall? {
        PopsComeInPhases(lib, cfg, s0, events, states, i, n - 1);
      }
      LargeHeapUntouched(lib, cfg, s0, events, states, n);
      HeldWhenFull(lib, s0, states[n]);
    } else {
      var m, ev := states[n - 1], events[n - 1];
      TraceLowers(lib, cfg, s0, events, states, n - 1, n);
      assert cfg.OverMemory(m.acc);
      HeldAlongTrace(lib, cfg, s0, events, states, n - 1);
      TraceInv(lib, cfg, s0, events, states, n - 1);
      TraceAt(lib, cfg, s0, events, states, n - 1);
      if ev.PopLarge? {
        HeldAfterPopLarge(lib, s0, m, ev);
      } else {
        StepIsFewer(lib, m, ev);
        NothingHeldAfterDrop(lib, s0, m, states[n]);
        NothingHeld(lib, s0, states[n]);
      }
    }
  }

  lemma NothingHeld(lib: Library, s0: Store, m: Machine)
    requires forall r :: !HeldInMemory(lib, m.s, r)
    ensures HeldByHeap(lib, s0, m)
  {}

  /** When the loop ends over its memory target, no large blob that a manifest
      refers to is left in memory. */
  lemma NothingHeldAtDone(lib: Library, cfg: Config, s0: Store, events: seq<Event>, states: seq<Machine>, r: Digest)
    requires s0.Owned() && IsTrace(lib, cfg, s0, events, states) && Done(cfg, states[|events|])
    requires cfg.OverMemory(states[|events|].acc)
    ensures !HeldInMemory(lib, states[|events|].s, r)
  {
    hide IsTrace, Store.Owned, HeldInMemory;
    TraceLength(lib, cfg, s0, events, states);
    HeldAlongTrace(lib, cfg, s0, events, states, |events|);
  }

  // ---- Blobs that are on disk when the loop ends

  /** Every cached candidate of the large heap is on it or on the disk heap. */
  ghost predicate LargeOrDisk(lib: Library, s0: Store, m: Machine) {
    forall c :: c in LargeCandidates(lib, s0) && c.ManifestCandidate? && Cached(m.s, c) ==> c in m.large || c in m.disk
  }

  /** A blob goes to disk only when all that refer to it are flagged. */
  ghost predicate SpilledAreFlagged(lib: Library, s0: Store, s: Store) {
    forall r :: r in s.blobs && r in s0.blobs && s.blobs[r].OnDisk? && s0.blobs[r].InMemory? ==>
      !RefersTo(lib, Unevicted(s.manifests), r)
  }

  lemma LargeOrDiskStep(lib: Library, s0: Store, m: Machine, ev: Event)
    requires m.s.DistinctIds() && LargeTierMatches(m) && LargeOrDisk(lib, s0, m)
    ensures LargeOrDisk(lib, s0, Step(lib, m, ev))
  {
    hide Step, LargeTierMatches, Store.DistinctIds, LargeCandidates;
    var m' := Step(lib, m, ev);
    StepHeaps(lib, m, ev);
    StepUncaches(lib, m, ev);
    forall c | c in LargeCandidates(lib, s0) && c.ManifestCandidate? && Cached(m'.s, c)
      ensures c in m'.large || c in m'.disk
    {
      assert Cached(m.s, c);
    }
  }

  /** What a pop takes out of the cache or moves to the disk heap. */
  lemma StepUncaches(lib: Library, m: Machine, ev: Event)
    requires m.s.DistinctIds() && LargeTierMatches(m)
    ensures Step(lib, m, ev).s.manifests.Keys <= m.s.manifests.Keys
    ensures ev.PopDisk? && ev.c.ManifestCandidate? ==> !Cached(Step(lib, m, ev).s, ev.c)
    ensures SpillsManifest(ev) && Cached(m.s, ev.c) ==> ev.c in Step(lib, m, ev).disk
  {
    if SpillsManifest(ev) {
      SpillStep(lib, m, ev);
      var m1 := m.(large := m.large - multiset{ev.c});
      TierMatchIgnoresHeaps(m, m1);
      if ev.c.digest in m.s.manifests {
        SpillManifestTouches(lib, m1, ev.c);
      } else {
        StaleSpill(lib, m1, ev.c);
      }
      hide SpillManifest, LargeTierMatches, Store.DistinctIds;
    } else {
      StepIsFewer(lib, m, ev);
      if ev.PopDisk? && ev.c.ManifestCandidate? {
        DropManifestShrinks(lib, m.(disk := m.disk - multiset{ev.c}), ev.c.digest);
      }
      hide DropManifest, DropRedis, SpillRedisCandidate, LargeTierMatches, Store.DistinctIds, In;
    }
  }

  /** Manifests only go away or get flagged. */
  ghost predicate FewerUnflagged(s: Store, s': Store) {
    forall d :: d in s'.manifests ==>
      && d in s.manifests && s'.manifests[d].content == s.manifests[d].content
      && (s.manifests[d].evicted ==> s'.manifests[d].evicted)
  }

  lemma UnflaggedRefer(lib: Library, s: Store, s': Store, r: Digest)
    requires FewerUnflagged(s, s')
    ensures RefersTo(lib, Unevicted(s'.manifests), r) ==> RefersTo(lib, Unevicted(s.manifests), r)
  {
    hide ReferencedDigests;
    if RefersTo(lib, Unevicted(s'.manifests), r) {
      var u := Unevicted(s'.manifests);
      var d :| d in u && r in ReferencedDigests(lib, u[d].content);
      assert d in Unevicted(s.manifests);
    }
  }

  lemma FewerKeepsFlagged(lib: Library, s0: Store, s: Store, s': Store)
    requires FewerItems(s, s') && SpilledAreFlagged(lib, s0, s)
    ensures SpilledAreFlagged(lib, s0, s')
  {
    assert FewerUnflagged(s, s');
    hide RefersTo, Unevicted, FewerUnflagged;
    forall r ensures RefersTo(lib, Unevicted(s'.manifests), r) ==> RefersTo(lib, Unevicted(s.manifests), r) {
      UnflaggedRefer(lib, s, s', r);
    }
  }

  lemma SpillKeepsFlagged(lib: Library, s0: Store, m: Machine, c: Candidate)
    requires Inv(lib, s0, m) && m.s.DistinctIds() && LargeTierMatches(m) && SpilledAreFlagged(lib, s0, m.s)
    requires c.ManifestCandidate? && c.digest in m.s.manifests
    ensures SpilledAreFlagged(lib, s0, SpillManifest(lib, m, c).s)
  {
    hide SpillManifest, Inv, LargeTierMatches, Store.DistinctIds, RefersTo, Unevicted, SpilledBk, ToSpill;
    hide ReferencedDigests, IsLargeInMemory, FewerUnflagged;
    var s' := SpillManifest(lib, m, c).s;
    SpillManifestIs(lib, m, c);
    FlaggingIsFewer(m.s, s', c.digest);
    forall r | r in s'.blobs && r in s0.blobs && s'.blobs[r].OnDisk? && s0.blobs[r].InMemory?
      ensures !RefersTo(lib, Unevicted(s'.manifests), r)
    {
      SpillMovesExactly(lib, s0, m, c, r);
      UnflaggedRefer(lib, m.s, s', r);
    }
  }

  lemma FlaggingIsFewer(s: Store, s': Store, d: Digest)
    requires d in s.manifests && s'.manifests == s.manifests[d := s.manifests[d].(evicted := true)]
    ensures FewerUnflagged(s, s')
  {}

  lemma SpilledAreFlaggedStep(lib: Library, s0: Store, m: Machine, ev: Event)
    requires Inv(lib, s0, m) && m.s.DistinctIds() && LargeTierMatches(m) && SpilledAreFlagged(lib, s0, m.s)
    ensures SpilledAreFlagged(lib, s0, Step(lib, m, ev).s)
  {
    hide Step, Inv, LargeTierMatches, Store.DistinctIds, SpilledAreFlagged, FewerItems, SpillManifest;
    if SpillsManifest(ev) {
      SpillStep(lib, m, ev);
      if ev.c.digest in m.s.manifests {
        SpillKeepsFlagged(lib, s0, m, ev.c);
      } else {
        StaleSpill(lib, m, ev.c);
      }
    } else {
      StepIsFewer(lib, m, ev);
      FewerKeepsFlagged(lib, s0, m.s, Step(lib, m, ev).s);
    }
  }

  lemma {:induction false} DiskFacts(
      lib: Library, cfg: Config, s0: Store, events: seq<Event>, states: seq<Machine>, n: nat)
    requires s0.Owned() && IsTrace(lib, cfg, s0, events, states) && n <= |events|
    ensures LargeOrDisk(lib, s0, states[n]) && SpilledAreFlagged(lib, s0, states[n].s)
  {
    hide Store.Owned, Inv, Step, Enabled, LargeTierMatches, Store.DistinctIds, LargeCandidates, InitialBk;
    hide Store.Recomputed, SmallCandidates, DiskCandidates, RefersTo, Unevicted;
    if n > 0 {
      DiskFacts(lib, cfg, s0, events, states, n - 1);
      TraceInv(lib, cfg, s0, events, states, n - 1);
      TraceAt(lib, cfg, s0, events, states, n - 1);
      hide LargeOrDisk, SpilledAreFlagged;
      LargeOrDiskStep(lib, s0, states[n - 1], events[n - 1]);
      SpilledAreFlaggedStep(lib, s0, states[n - 1], events[n - 1]);
    }
  }

  // ---- Which blobs a pass keeps, whatever the clock

  /** The cascade has deleted what it may: an expired blob that lost its last
      referrer is gone. Nothing that had no referrer was deleted by it. */
  ghost predicate Cascaded(lib: Library, s0: Store, s: Store) {
    && (forall r :: r in s0.blobs && r in s.blobs && CascadeExpired(s0.now, s0.blobs[r].lastAccessed) ==>
          RefersTo(lib, s0.manifests, r) ==> RefersTo(lib, s.manifests, r))
    && (forall r :: r in s0.blobs && r !in s.blobs ==> RefersTo(lib, s0.manifests, r))
  }

  lemma LostReferrer(lib: Library, ms: map<Digest, Manifest>, d: Digest, r: Digest)
    requires d in ms && RefersTo(lib, ms, r) && r !in ReferencedDigests(lib, ms[d].content)
    ensures RefersTo(lib, ms - {d}, r)
  {
    hide ReferencedDigests;
    var x :| x in ms && r in ReferencedDigests(lib, ms[x].content);
    assert x in ms - {d};
  }

  lemma ReferredByOne(lib: Library, s0: Store, s: Store, d: Digest, r: Digest)
    requires ManifestsEvolved(s0, s) && d in s.manifests && r in ReferencedDigests(lib, s.manifests[d].content)
    ensures RefersTo(lib, s0.manifests, r)
  {
    hide ReferencedDigests;
    assert d in s0.manifests && s0.manifests[d].content == s.manifests[d].content;
  }

  lemma CascadedDropOne(lib: Library, s0: Store, m: Machine, d: Digest, r: Digest)
    requires Inv(lib, s0, m) && Cascaded(lib, s0, m.s) && d in m.s.manifests && r in s0.blobs
    ensures var s' := DropManifest(lib, m, d).s;
      && (r in s'.blobs && CascadeExpired(s0.now, s0.blobs[r].lastAccessed) && RefersTo(lib, s0.manifests, r) ==>
            RefersTo(lib, s'.manifests, r))
      && (r !in s'.blobs ==> RefersTo(lib, s0.manifests, r))
  {
    hide Inv, DropManifest, DroppedBk, CascadeExpired, RefersTo, ReferencedDigests, ManifestsEvolved, ToDelete;
    InvManifests(lib, s0, m);
    DropManifestShape(lib, m, d);
    if r in m.s.blobs {
      DropDeletesExactly(lib, s0, m, d, r);
      if r in ReferencedDigests(lib, m.s.manifests[d].content) {
        ReferredByOne(lib, s0, m.s, d, r);
      } else if RefersTo(lib, m.s.manifests, r) {
        LostReferrer(lib, m.s.manifests, d, r);
      }
    }
  }

  lemma CascadedDrop(lib: Library, s0: Store, m: Machine, d: Digest)
    requires Inv(lib, s0, m) && Cascaded(lib, s0, m.s) && d in m.s.manifests
    ensures Cascaded(lib, s0, DropManifest(lib, m, d).s)
  {
    hide Inv, DropManifest, CascadeExpired, RefersTo;
    var s' := DropManifest(lib, m, d).s;
    forall r | r in s0.blobs
      ensures r in s'.blobs && CascadeExpired(s0.now, s0.blobs[r].lastAccessed) && RefersTo(lib, s0.manifests, r) ==>
        RefersTo(lib, s'.manifests, r)
      ensures r !in s'.blobs ==> RefersTo(lib, s0.manifests, r)
    {
      CascadedDropOne(lib, s0, m, d, r);
    }
  }

  lemma CascadedSame(lib: Library, s0: Store, s: Store, s': Store)
    requires Cascaded(lib, s0, s) && s'.blobs.Keys == s.blobs.Keys && SameContents(s', s)
    ensures Cascaded(lib, s0, s')
  {
    hide RefersTo, CascadeExpired, SameContents;
    forall r ensures RefersTo(lib, s.manifests, r) ==> RefersTo(lib, s'.manifests, r) {
      ContentsRefer(lib, s', s, r);
    }
  }

  lemma SpillSame(lib: Library, m: Machine, c: Candidate)
    requires c.ManifestCandidate? && m.s.DistinctIds() && LargeTierMatches(m)
    ensures SpillManifest(lib, m, c).s.blobs.Keys == m.s.blobs.Keys
    ensures SameContents(SpillManifest(lib, m, c).s, m.s) && SameContents(m.s, SpillManifest(lib, m, c).s)
  {
    hide SpillManifest, SpilledBk, ToSpill, LargeTierMatches, Store.DistinctIds, ToDisk;
    if c.digest in m.s.manifests {
      SpillManifestIs(lib, m, c);
    } else {
      StaleSpill(lib, m, c);
    }
  }

  lemma OtherSame(lib: Library, m: Machine, c: Candidate, u: Usage)
    ensures c.ManifestCandidate? && c.digest !in m.s.manifests ==> DropManifest(lib, m, c.digest) == m
    ensures c.RedisCandidate? ==>
      DropRedis(m, c.key, u).s.blobs == m.s.blobs && SpillRedisCandidate(m, c).s.blobs == m.s.blobs
    ensures c.RedisCandidate? ==>
      DropRedis(m, c.key, u).s.manifests == m.s.manifests && SpillRedisCandidate(m, c).s.manifests == m.s.manifests
  {
    hide RedisCharge;
  }

  /** Pops that drop no manifest change neither the blobs nor what refers to them. */
  lemma NoDropSame(lib: Library, m: Machine, ev: Event)
    requires m.s.DistinctIds() && LargeTierMatches(m)
    requires ev.PopLarge? || ev.c.RedisCandidate? || ev.c.digest !in m.s.manifests
    ensures Step(lib, m, ev).s.blobs.Keys == m.s.blobs.Keys
    ensures SameContents(Step(lib, m, ev).s, m.s) && SameContents(m.s, Step(lib, m, ev).s)
  {
    hide DropManifest, DropRedis, SpillRedisCandidate, SpillManifest, LargeTierMatches, Store.DistinctIds, In;
    if SpillsManifest(ev) {
      SpillStep(lib, m, ev);
      SpillSame(lib, m, ev.c);
      hide Step;
    } else {
      match ev {
        case PopSmall(c) =>
          OtherSame(lib, m.(small := m.small - multiset{c}), c,
            if c.RedisCandidate? then In(SmallRedisMemory, c.size) else ZERO);
        case PopLarge(c) => OtherSame(lib, m.(large := m.large - multiset{c}), c, ZERO);
        case PopDisk(c) =>
          OtherSame(lib, m.(disk := m.disk - multiset{c}), c,
            if c.RedisCandidate? then In(RedisDisk, c.size) else ZERO);
      }
    }
  }

  lemma DropIgnoresHeaps(lib: Library, m: Machine, ev: Event)
    requires m.s.DistinctIds() && LargeTierMatches(m) && !ev.PopLarge? && ev.c.ManifestCandidate?
    ensures Step(lib, m, ev).s == DropManifest(lib, m, ev.c.digest).s
  {
    hide DroppedBk, DeleteBlobs, UntagManifest, ToDelete, BlobTotal, ManifestCharge, LargeTierMatches;
    hide Store.DistinctIds;
  }

  lemma {:induction false} TraceCascaded(
      lib: Library, cfg: Config, s0: Store, events: seq<Event>, states: seq<Machine>, n: nat)
    requires s0.Owned() && IsTrace(lib, cfg, s0, events, states) && n <= |events|
    ensures Cascaded(lib, s0, states[n].s)
  {
    hide Store.Owned, Inv, Step, Enabled, LargeTierMatches, Store.DistinctIds, InitialBk, RefersTo, CascadeExpired;
    hide Store.Recomputed, SmallCandidates, LargeCandidates, DiskCandidates, DropManifest, SameContents;
    if n > 0 {
      var m, ev := states[n - 1], events[n - 1];
      TraceCascaded(lib, cfg, s0, events, states, n - 1);
      TraceInv(lib, cfg, s0, events, states, n - 1);
      TraceAt(lib, cfg, s0, events, states, n - 1);
      hide Cascaded;
      if !ev.PopLarge? && ev.c.ManifestCandidate? && ev.c.digest in m.s.manifests {
        DropIgnoresHeaps(lib, m, ev);
        CascadedDrop(lib, s0, m, ev.c.digest);
      } else {
        NoDropSame(lib, m, ev);
        CascadedSame(lib, s0, m.s, states[n].s);
      }
    }
  }

  lemma FinishSweeps(lib: Library, s0: Store, m: Machine, r: Digest)
    requires Inv(lib, s0, m) && r in s0.blobs
    ensures Finish(m).manifests == m.s.manifests
    ensures r in Finish(m).blobs <==>
      r in m.s.blobs && (RefersTo(lib, m.s.manifests, r) || !SweepExpired(s0.now, s0.blobs[r].lastAccessed))
  {
    InvParts(lib, s0, m);
    RefersToIffCounted(lib, m.s.manifests, r);
    hide Inv, RefCount, RefersTo, SweepExpired, BlobTotal, Store.BlobBytes, AccExact, RedisEvolved, DeletedRightly;
    hide SmallHeapOk, LargeHeapOk, DiskHeapOk;
  }

  /** Which blobs survive a pass, both ways and for every clock: those that a
      surviving manifest refers to, and those that no test calls expired. The
      cascade's test only counts for blobs that had a referrer to lose. */
  lemma {:induction false} SurvivesIff(
      lib: Library, cfg: Config, s0: Store, events: seq<Event>, states: seq<Machine>, s1: Store, r: Digest)
    requires s0.Owned() && IsPass(lib, cfg, s0, events, states, s1) && r in s0.blobs
    ensures r in s1.blobs <==>
      || RefersTo(lib, s1.manifests, r)
      || (!SweepExpired(s0.now, s0.blobs[r].lastAccessed)
          && !(RefersTo(lib, s0.manifests, r) && CascadeExpired(s0.now, s0.blobs[r].lastAccessed)))
  {
    hide IsTrace, Done, Inv, RefersTo, Store.Owned, Finish, CascadeExpired, SweepExpired, DeletedRightly;
    TraceLength(lib, cfg, s0, events, states);
    TraceInv(lib, cfg, s0, events, states, |events|);
    TraceCascaded(lib, cfg, s0, events, states, |events|);
    FinishSweeps(lib, s0, states[|events|], r);
    KeepsExactlyReferencedOrFresh(lib, cfg, s0, events, states, s1, r);
    DeletedByCascade(lib, s0, states[|events|], r);
  }

  lemma DeletedByCascade(lib: Library, s0: Store, m: Machine, r: Digest)
    requires Inv(lib, s0, m) && r in s0.blobs
    ensures r !in m.s.blobs ==> CascadeExpired(s0.now, s0.blobs[r].lastAccessed)
  {
    InvParts(lib, s0, m);
    hide Inv, RefCount, CascadeExpired, AccExact, RedisEvolved, BlobsEvolved, SmallHeapOk, LargeHeapOk, DiskHeapOk;
  }

  // ---- Counts never saturate

  /** Whenever a manifest is dropped or spilled, each of its blobs is counted at least
      as often as the manifest refers to it, so no `saturating_sub` on a count ever
      saturates. */
  lemma {:induction false} CountsNeverSaturate(
      lib: Library, cfg: Config, s0: Store, events: seq<Event>, states: seq<Machine>, i: nat, r: Digest)
    requires s0.Owned() && IsTrace(lib, cfg, s0, events, states) && i < |events| && r in s0.blobs
    requires events[i].c.ManifestCandidate? && events[i].c.digest in states[i].s.manifests
    ensures var m := states[i];
      var man := m.s.manifests[events[i].c.digest];
      var n := multiset(ReferencedDigests(lib, man.content))[r];
      && r in m.bk && n <= m.bk[r].refs
      && (!man.evicted ==> n <= m.bk[r].unevictedRefs)
  {
    hide IsTrace, RefCount, Store.Owned, ReferencedDigests, Unevicted;
    TraceLength(lib, cfg, s0, events, states);
    CountsAreExact(lib, cfg, s0, events, states, i, r);
    RefCountTake(lib, states[i].s.manifests, events[i].c.digest, r);
    UnevictedTake(lib, states[i].s.manifests, events[i].c.digest, r);
  }

  lemma {:induction false} SmallHeapUntouched(
      lib: Library, cfg: Config, s0: Store, events: seq<Event>, states: seq<Machine>, n: nat)
    requires IsTrace(lib, cfg, s0, events, states) && n <= |events|
    requires forall i :: 0 <= i < n ==> !events[i].PopSmall?
    ensures states[n].small == multiset(SmallCandidates(s0))
  {
    hide InitialBk, Step, LargeTierMatches, Store.DistinctIds, Enabled, SmallCandidates, Store.Recomputed;
    if n > 0 {
      SmallHeapUntouched(lib, cfg, s0, events, states, n - 1);
      TraceAt(lib, cfg, s0, events, states, n - 1);
      StepHeaps(lib, states[n - 1], events[n - 1]);
    }
  }
}
