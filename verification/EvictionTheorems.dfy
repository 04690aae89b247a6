/** What one eviction pass guarantees, for every trace it can take. */
module EvictionTheorems {
  import opened Prelude
  import opened DigestText
  import opened UsageSums
  import opened References
  import opened Cache
  import opened EvictionMachine
  import opened EvictionStore
  import opened EvictionInvariant
  import opened EvictionHeaps

  // ---- The sweep

  ghost function Swept(m: Machine): Store {
    DeleteBlobs(m.s, ToSweep(m))
  }

  lemma FinishStore(lib: Library, s0: Store, m: Machine)
    requires Inv(lib, s0, m)
    ensures Finish(m).Owned() && Evolved(s0, Finish(m))
  {
    assert m.s.Owned() && Evolved(s0, m.s);
    hide Inv, Core, ToSweep, DeleteBlobs, Store.Owned, Evolved;
    DeleteBlobsKeepsOwnership(m.s, ToSweep(m));
    DeleteBlobsEvolves(m.s, ToSweep(m));
    EvolvedTransitive(s0, m.s, Swept(m));
    CountersDoNotMatter(s0, Swept(m), Finish(m).counters);
  }

  lemma CountersDoNotMatter(s0: Store, s: Store, counters: Usage)
    requires s.Owned() && Evolved(s0, s)
    ensures s.(counters := counters).Owned() && Evolved(s0, s.(counters := counters))
  {
    var s' := s.(counters := counters);
    assert s'.FilesPresent();
    assert BlobsEvolved(s0, s') && RedisEvolved(s0, s') && ManifestsEvolved(s0, s');
    assert TagsFollow(s0, s') && UnlinksExplained(s0, s');
    hide BlobsEvolved, RedisEvolved, ManifestsEvolved, TagsFollow, UnlinksExplained, Store.FilesPresent;
  }

  /** A pass leaves an owned store whose entries are entries it started with,
      byte for byte, with tags following their manifests. */
  lemma {:induction false} PassEvolves(
      lib: Library, cfg: Config, s0: Store, events: seq<Event>, states: seq<Machine>, s1: Store)
    requires s0.Owned() && IsPass(lib, cfg, s0, events, states, s1)
    ensures s1.Owned() && Evolved(s0, s1)
  {
    hide IsTrace, Done, Inv, Finish, Evolved, Store.Owned;
    TraceInv(lib, cfg, s0, events, states, |events|);
    FinishStore(lib, s0, states[|events|]);
  }

  // ---- Reference counts

  /** At every point of a pass, `refs` and `unevicted_refs` are the numbers of
      occurrences in surviving and in surviving un-evicted manifests. */
  lemma {:induction false} CountsAreExact(
      lib: Library, cfg: Config, s0: Store, events: seq<Event>, states: seq<Machine>, n: nat, r: Digest)
    requires s0.Owned() && IsTrace(lib, cfg, s0, events, states) && n <= |events| && r in s0.blobs
    ensures r in states[n].bk
    ensures states[n].bk[r].refs == RefCount(lib, states[n].s.manifests, r)
    ensures states[n].bk[r].unevictedRefs == RefCount(lib, Unevicted(states[n].s.manifests), r)
  {
    hide IsTrace, RefCount, Store.Owned, Evolved, AccExact, DeletedRightly, SmallHeapOk, LargeHeapOk, DiskHeapOk;
    TraceInv(lib, cfg, s0, events, states, n);
  }

  predicate RefersTo(lib: Library, ms: map<Digest, Manifest>, r: Digest) {
    exists d :: d in ms && r in ReferencedDigests(lib, ms[d].content)
  }

  lemma RefersToIffCounted(lib: Library, ms: map<Digest, Manifest>, r: Digest)
    ensures RefersTo(lib, ms, r) <==> RefCount(lib, ms, r) != 0
  {
    RefCountZero(lib, ms, r);
    hide RefCount;
  }

  /** Spilling a manifest moves exactly those of its blobs to disk that are large,
      in memory, and referred to by no un-evicted manifest. */
  lemma {:induction false} SpillMovesExactly(lib: Library, s0: Store, m: Machine, c: Candidate, r: Digest)
    requires Inv(lib, s0, m) && m.s.DistinctIds() && LargeTierMatches(m)
    requires c.ManifestCandidate? && c.digest in m.s.manifests && r in m.s.blobs
    ensures var m' := SpillManifest(lib, m, c);
      && r in m'.s.blobs
      && m'.s.blobs[r] ==
          if r in ReferencedDigests(lib, m.s.manifests[c.digest].content) && IsLargeInMemory(m.s.blobs[r])
             && !RefersTo(lib, Unevicted(m'.s.manifests), r)
          then ToDisk(m.s.blobs[r]) else m.s.blobs[r]
  {
    var d := c.digest;
    var man := m.s.manifests[d];
    var refs := ReferencedDigests(lib, man.content);
    var bk := SpilledBk(m.bk, man.evicted, refs);
    var m' := SpillManifest(lib, m, c);
    var ms' := m.s.manifests[d := man.(evicted := true)];
    InvParts(lib, s0, m);
    FlagKeepsRefsExact(lib, m.s.manifests, m.bk, d);
    DroppedBkStable(s0, m.bk, man.evicted, refs);
    RefersToIffCounted(lib, Unevicted(ms'), r);
    SpillManifestIs(lib, m, c);
    hide Inv, SpillManifest, SpilledBk, RefCount, RefersTo, LargeTierMatches, Store.DistinctIds;
    TierIsLarge(s0, m.s, bk, r);
  }

  lemma TierIsLarge(s0: Store, s: Store, bk: map<Digest, BlobBk>, r: Digest)
    requires BkStable(s0, bk) && BlobsEvolved(s0, s) && r in s.blobs
    ensures r in bk && (bk[r].tier == LargeMem && s.blobs[r].InMemory? <==> IsLargeInMemory(s.blobs[r]))
  {
    hide Store.BlobBytes;
  }

  lemma SpillManifestIs(lib: Library, m: Machine, c: Candidate)
    requires c.ManifestCandidate? && c.digest in m.s.manifests && m.s.DistinctIds() && LargeTierMatches(m)
    ensures var m', man := SpillManifest(lib, m, c), m.s.manifests[c.digest];
      var refs := ReferencedDigests(lib, man.content);
      && m'.s.manifests == m.s.manifests[c.digest := man.(evicted := true)]
      && m'.s.blobs == SpillIn(m.s.blobs, ToSpill(m.s, SpilledBk(m.bk, man.evicted, refs), refs))
  {
    hide BlobTotal, SpilledBk, ToSpill, Moved, SpillIn, SpillFiles;
  }

  lemma InvParts(lib: Library, s0: Store, m: Machine)
    requires Inv(lib, s0, m)
    ensures BkStable(s0, m.bk) && RefsExact(lib, m.s.manifests, m.bk) && BlobsEvolved(s0, m.s) && m.s.now == s0.now
    ensures DeletedRightly(lib, s0, m.s) && AccExact(s0, m.s, m.acc) && RedisEvolved(s0, m.s)
    ensures SmallHeapOk(s0, m.s, m.small) && LargeHeapOk(lib, s0, m.s, m.large) && DiskHeapOk(lib, s0, m.s, m.disk)
  {
    hide Store.Owned, BkStable, RefsExact, BlobsEvolved, RedisEvolved, DeletedRightly, AccExact;
    hide SmallHeapOk, LargeHeapOk, DiskHeapOk;
  }

  /** Dropping a manifest deletes exactly those of its blobs that no remaining
      manifest refers to and that have not been used lately. */
  lemma {:induction false} DropDeletesExactly(lib: Library, s0: Store, m: Machine, d: Digest, r: Digest)
    requires Inv(lib, s0, m) && d in m.s.manifests && r in m.s.blobs
    ensures var m' := DropManifest(lib, m, d);
      r in m'.s.blobs <==>
        !(r in ReferencedDigests(lib, m.s.manifests[d].content) && !RefersTo(lib, m'.s.manifests, r)
          && CascadeExpired(s0.now, s0.blobs[r].lastAccessed))
  {
    InvParts(lib, s0, m);
    DropManifestBk(lib, s0, m, d);
    DropManifestShape(lib, m, d);
    hide Inv, DropManifest, DroppedBk, RefCount, CascadeExpired, RefersTo, Store.BlobBytes;
    RefersToIffCounted(lib, DropManifest(lib, m, d).s.manifests, r);
  }

  // ---- Which blobs a pass leaves

  /** The two age tests agree, except that before the clock has reached the grace
      period the cascade lets blobs of age zero epoch through. */
  lemma {:induction false} AgeTestsAgree(now: nat, lastAccessed: nat)
    ensures CascadeExpired(now, lastAccessed) <==>
      SweepExpired(now, lastAccessed) || (now < BLOB_GRACE_SECONDS && lastAccessed == 0)
    ensures now >= BLOB_GRACE_SECONDS ==>
      (CascadeExpired(now, lastAccessed) <==> lastAccessed + BLOB_GRACE_SECONDS <= now)
  {}

  lemma FinishBlobs(lib: Library, s0: Store, m: Machine, r: Digest)
    requires Inv(lib, s0, m) && r in s0.blobs
    ensures Finish(m).manifests == m.s.manifests
    ensures r !in Finish(m).blobs ==>
      !RefersTo(lib, m.s.manifests, r) && CascadeExpired(s0.now, s0.blobs[r].lastAccessed)
    ensures r in Finish(m).blobs ==>
      RefersTo(lib, m.s.manifests, r) || !SweepExpired(s0.now, s0.blobs[r].lastAccessed)
  {
    InvParts(lib, s0, m);
    RefersToIffCounted(lib, m.s.manifests, r);
    AgeTestsAgree(s0.now, s0.blobs[r].lastAccessed);
    hide Inv, RefCount, RefersTo, CascadeExpired, SweepExpired, BlobTotal, Store.BlobBytes, AccExact, RedisEvolved;
    hide SmallHeapOk, LargeHeapOk, DiskHeapOk;
  }

  /** The blobs of the starting store that a pass keeps are exactly those some
      surviving manifest refers to and those inside the grace window. */
  lemma {:induction false} KeepsExactlyReferencedOrFresh(
      lib: Library, cfg: Config, s0: Store, events: seq<Event>, states: seq<Machine>, s1: Store, r: Digest)
    requires s0.Owned() && IsPass(lib, cfg, s0, events, states, s1) && r in s0.blobs
    ensures r !in s1.blobs ==>
      !RefersTo(lib, s1.manifests, r) && CascadeExpired(s0.now, s0.blobs[r].lastAccessed)
    ensures r in s1.blobs ==>
      RefersTo(lib, s1.manifests, r) || !SweepExpired(s0.now, s0.blobs[r].lastAccessed)
    ensures s0.now >= BLOB_GRACE_SECONDS ==>
      (r in s1.blobs <==> RefersTo(lib, s1.manifests, r) || s0.now < s0.blobs[r].lastAccessed + BLOB_GRACE_SECONDS)
  {
    hide IsTrace, Done, Inv, RefersTo, Store.Owned;
    TraceInv(lib, cfg, s0, events, states, |events|);
    FinishBlobs(lib, s0, states[|events|], r);
    hide Finish;
    AgeTestsAgree(s0.now, s0.blobs[r].lastAccessed);
  }

  /** Survivor closure: a cached blob that a surviving manifest refers to is still
      cached, with identical bytes, in memory or in its file. */
  lemma {:induction false} SurvivorClosure(
      lib: Library, cfg: Config, s0: Store, events: seq<Event>, states: seq<Machine>, s1: Store, d: Digest, r: Digest)
    requires s0.Owned() && IsPass(lib, cfg, s0, events, states, s1)
    requires d in s1.manifests && r in ReferencedDigests(lib, s1.manifests[d].content) && r in s0.blobs
    ensures r in s1.blobs && s1.BlobBytes(r) == s0.BlobBytes(r)
    ensures s1.blobs[r].OnDisk? ==> HasFile(s1.disk, s1.blobs[r].id, s0.BlobBytes(r))
  {
    assert RefersTo(lib, s1.manifests, r);
    hide IsPass, RefersTo, CascadeExpired, SweepExpired;
    KeepsExactlyReferencedOrFresh(lib, cfg, s0, events, states, s1, r);
    PassEvolves(lib, cfg, s0, events, states, s1);
  }

  // ---- Usage after the sweep

  /** The sweep takes the swept blobs off the sums and leaves the other maps alone. */
  lemma FinishRecomputed(m: Machine)
    ensures Finish(m).Recomputed() == m.s.Recomputed().Minus(BlobTotal(m.s, ToSweep(m)))
    ensures Finish(m).redis == m.s.redis && Finish(m).manifests == m.s.manifests
  {
    hide BlobTotal, ToSweep;
    DeleteBlobsRecomputed(m.s, ToSweep(m));
    assert Finish(m).Recomputed() == Swept(m).Recomputed();
  }

  lemma CoverAlgebra(acc: Usage, loop: Usage, slack: Usage, swept: Usage)
    requires acc == loop.Plus(slack) && ZERO.AtMost(slack) && ZERO.AtMost(swept)
    ensures loop.Minus(swept).AtMost(acc)
  {}

  /** The accumulators the loop tests never under-count the store it leaves. */
  lemma AccCoversFinish(lib: Library, s0: Store, m: Machine)
    requires Inv(lib, s0, m)
    ensures Finish(m).Recomputed().AtMost(m.acc)
  {
    hide Inv, Store.Recomputed, KeySlack, BlobTotal, Finish, ToSweep, BlobsEvolved, RedisEvolved, RefsExact;
    hide DeletedRightly;
    hide SmallHeapOk, LargeHeapOk, DiskHeapOk, BkStable, Usage.Plus, Usage.Minus, OnlyBlobs, In, Usage.AtMost;
    InvParts(lib, s0, m);
    AccIsSum(s0, m.s, m.acc);
    hide AccExact;
    FinishRecomputed(m);
    KeySlackNonNegative(s0, m.s);
    BlobTotalIsOnlyBlobs(m.s, ToSweep(m));
    CoverAlgebra(m.acc, m.s.Recomputed(), KeySlack(s0, m.s), BlobTotal(m.s, ToSweep(m)));
  }

  lemma InvManifests(lib: Library, s0: Store, m: Machine)
    requires Inv(lib, s0, m)
    ensures ManifestsEvolved(s0, m.s)
  {
    hide ManifestsEvolved, Store.Owned, BkStable, RefsExact, DeletedRightly, AccExact;
    hide SmallHeapOk, LargeHeapOk, DiskHeapOk;
  }

  /** A pass over a store within its targets pops nothing. */
  lemma {:induction false} NoPressureNoPops(
      lib: Library, cfg: Config, s0: Store, events: seq<Event>, states: seq<Machine>, s1: Store)
    requires IsPass(lib, cfg, s0, events, states, s1)
    requires !cfg.OverSmall(s0.Recomputed()) && !cfg.OverMemory(s0.Recomputed()) && !cfg.OverDisk(s0.Recomputed())
    ensures events == []
    ensures s1.manifests == s0.manifests && s1.redis == s0.redis && s1.tags == s0.tags
  {
    hide Store.Recomputed, Finish, Enabled, Step, LargeTierMatches, Store.DistinctIds;
    hide SmallCandidates, LargeCandidates, DiskCandidates, InitialBk;
    if events != [] {
      NothingEnabled(cfg, states[0], events[0]);
      TraceAt(lib, cfg, s0, events, states, 0);
      assert false;
    }
    FinishKeepsOthers(states[0]);
  }

  lemma NothingEnabled(cfg: Config, m: Machine, ev: Event)
    requires !cfg.OverSmall(m.acc) && !cfg.OverMemory(m.acc) && !cfg.OverDisk(m.acc)
    ensures !Enabled(cfg, m, ev)
  {}

  lemma FinishKeepsOthers(m: Machine)
    ensures Finish(m).manifests == m.s.manifests && Finish(m).redis == m.s.redis && Finish(m).tags == m.s.tags
  {
    hide BlobTotal, ToSweep;
  }

  // ---- Termination

  /** A pass pops at most as often as its candidates allow. */
  lemma {:induction false} TraceIsBounded(
      lib: Library, cfg: Config, s0: Store, events: seq<Event>, states: seq<Machine>, n: nat)
    requires IsTrace(lib, cfg, s0, events, states) && n <= |events|
    ensures n + Measure(states[n]) <= Measure(Initial(lib, s0))
  {
    hide Initial, Measure, Step, LargeTierMatches, Store.DistinctIds, Enabled;
    if n > 0 {
      TraceIsBounded(lib, cfg, s0, events, states, n - 1);
      TraceAt(lib, cfg, s0, events, states, n - 1);
      StepDecreasesMeasure(lib, cfg, states[n - 1], events[n - 1]);
    }
  }

  // ---- Least recently used first

  /** The small and the large heap only ever shrink. */
  lemma {:induction false} HeapsShrink(
      lib: Library, cfg: Config, s0: Store, events: seq<Event>, states: seq<Machine>, i: nat, n: nat)
    requires IsTrace(lib, cfg, s0, events, states) && i <= n <= |events|
    ensures states[n].small <= states[i].small && states[n].large <= states[i].large
    decreases n
  {
    hide TraceStep, Initial;
    if i < n {
      HeapsShrink(lib, cfg, s0, events, states, i, n - 1);
      TraceAt(lib, cfg, s0, events, states, n - 1);
      StepShrinks(lib, cfg, states[n - 1], events[n - 1], states[n]);
    }
  }

  lemma StepShrinks(lib: Library, cfg: Config, m: Machine, ev: Event, m': Machine)
    requires TraceStep(lib, cfg, m, ev, m')
    ensures m'.small <= m.small && m'.large <= m.large
  {
    hide Step, LargeTierMatches, Store.DistinctIds, Enabled;
    StepHeaps(lib, m, ev);
  }

  /** If a pass popped `c` from the small heap, no older manifest or small redis
      entry survives it. */
  lemma {:induction false} SmallPopsAreOldest(
      lib: Library, cfg: Config, s0: Store, events: seq<Event>, states: seq<Machine>, i: nat, x: Candidate)
    requires s0.Owned() && IsTrace(lib, cfg, s0, events, states) && i < |events| && events[i].PopSmall?
    requires x in SmallCandidates(s0) && Cached(states[|events|].s, x)
    ensures events[i].c.lastAccessed <= x.lastAccessed
  {
    hide IsTrace, SmallCandidates, Cached, Inv, Store.Owned;
    TraceInv(lib, cfg, s0, events, states, |events|);
    InvParts(lib, s0, states[|events|]);
    HeapsShrink(lib, cfg, s0, events, states, i, |events|);
    TraceAt(lib, cfg, s0, events, states, i);
    hide Step, LargeTierMatches, Store.DistinctIds, PicksSmall;
    assert x in states[i].small;
    assert Oldest(states[i].small, events[i].c);
  }

  /** If a pass popped `c` from the large heap, every older large redis value is
      out of memory and every older manifest with large blobs is flagged or gone. */
  lemma {:induction false} LargePopsAreOldest(
      lib: Library, cfg: Config, s0: Store, events: seq<Event>, states: seq<Machine>, i: nat, x: Candidate)
    requires s0.Owned() && IsTrace(lib, cfg, s0, events, states) && i < |events| && events[i].PopLarge?
    requires x in LargeCandidates(lib, s0) && x.lastAccessed < events[i].c.lastAccessed
    ensures Settled(states[|events|].s, x)
  {
    hide IsTrace, LargeCandidates, Settled, Inv, Store.Owned;
    TraceInv(lib, cfg, s0, events, states, |events|);
    InvParts(lib, s0, states[|events|]);
    HeapsShrink(lib, cfg, s0, events, states, i, |events|);
    TraceAt(lib, cfg, s0, events, states, i);
    hide Step, LargeTierMatches, Store.DistinctIds, PicksLarge;
    assert Oldest(states[i].large, events[i].c);
    assert x !in states[i].large && x !in states[|events|].large;
  }
}
