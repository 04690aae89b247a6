/** `evict` itself (src/eviction.rs:106-539): seven running accumulators, three
    candidate heaps and the per-blob bookkeeping, updated in place together with
    the shared state. Every pop is proved to be a step of the machine. */
module EvictionPass {
  import opened Prelude
  import opened DigestText
  import opened UsageSums
  import opened References
  import opened Cache
  import opened CacheState
  import opened EvictionMachine
  import opened EvictionStore
  import opened EvictionInvariant
  import opened EvictionHeaps
  import opened EvictionTheorems
  import opened EvictionGauges
  import opened EvictionRefinement
  import opened EvictionSetup

  lemma {:induction false} OldestExists(heap: multiset<Candidate>)
    requires heap != multiset{}
    ensures exists c :: c in heap && Oldest(heap, c)
    decreases |heap|
  {
    var c :| c in heap;
    var rest := heap - multiset{c};
    assert heap == rest + multiset{c};
    if rest == multiset{} {
      assert forall x :: x in heap ==> x == c;
      assert Oldest(heap, c);
    } else {
      OldestExists(rest);
      var d :| d in rest && Oldest(rest, d);
      assert forall x :: x in heap ==> x == c || x in rest;
      assert Oldest(heap, if c.lastAccessed <= d.lastAccessed then c else d);
    }
  }

  /** `BinaryHeap::pop` under the reversed order: some oldest candidate comes out. */
  method PopOldest(heap: multiset<Candidate>) returns (c: Candidate, rest: multiset<Candidate>)
    requires heap != multiset{}
    ensures Oldest(heap, c) && rest == heap - multiset{c}
  {
    OldestExists(heap);
    c :| c in heap && Oldest(heap, c);
    rest := heap - multiset{c};
  }

  /** The touch time published for a pool. */
  method OldestOr(heap: multiset<Candidate>, now: nat) returns (t: nat)
    ensures PublishedOldest(heap, now, t)
  {
    if heap == multiset{} {
      t := now;
    } else {
      var c, _ := PopOldest(heap);
      t := c.lastAccessed;
    }
  }

  /** The local variables of one pass. */
  class Pass {
    const state: State

    var smallBlobMemory: nat
    var largeBlobMemory: nat
    var blobDisk: nat
    var smallRedisMemory: nat
    var largeRedisMemory: nat
    var redisDisk: nat
    var manifestMemory: nat
    var smallMemoryCandidates: multiset<Candidate>
    var largeMemoryCandidates: multiset<Candidate>
    var diskCandidates: multiset<Candidate>
    var bk: map<Digest, BlobBk>

    ghost function Acc(): Usage
      reads this
    {
      Usage(manifestMemory, smallBlobMemory, largeBlobMemory, smallRedisMemory, largeRedisMemory, blobDisk, redisDisk)
    }

    ghost function M(): Machine
      reads this, state
    {
      Machine(state.View(), Acc(), bk, smallMemoryCandidates, largeMemoryCandidates, diskCandidates)
    }

    /** Count every reference and collect every candidate (src/eviction.rs:180-289). */
    constructor (state: State)
      ensures this.state == state && M() == Initial(state.lib, state.View())
    {
      this.state := state;
      smallBlobMemory, largeBlobMemory, blobDisk := 0, 0, 0;
      smallRedisMemory, largeRedisMemory, redisDisk, manifestMemory := 0, 0, 0, 0;
      smallMemoryCandidates, largeMemoryCandidates, diskCandidates := multiset{}, multiset{}, multiset{};
      bk := map[];
      new;
      WalkAll();
    }

    method WalkAll()
      requires bk == map[] && smallBlobMemory == largeBlobMemory == blobDisk == 0
      requires smallRedisMemory == largeRedisMemory == redisDisk == manifestMemory == 0
      requires smallMemoryCandidates == largeMemoryCandidates == diskCandidates == multiset{}
      modifies this
      ensures M() == Initial(state.lib, state.View())
    {
      hide BlobUsage, RedisUsage, In, BkCounts, Store.Recomputed, SmallCandidates, LargeCandidates, DiskCandidates;
      hide ManifestCandidates, RedisCandidates, TierHolders, InitialBk, Total, ManifestCharges, BlobCharges;
      hide RedisCharges;
      ghost var s := state.View();
      WalkBlobs();
      WalkManifests();
      WalkRedis();
      AssembleUsage(s, manifestMemory, smallBlobMemory, largeBlobMemory, blobDisk, smallRedisMemory,
        largeRedisMemory, redisDisk);
      CandidatesComplete(state.lib, s);
      BkIsInitial(state.lib, s, bk);
    }

    method WalkBlobs()
      requires bk == map[] && smallBlobMemory == largeBlobMemory == blobDisk == 0
      modifies this`bk, this`smallBlobMemory, this`largeBlobMemory, this`blobDisk
      ensures BkCounts(state.lib, state.blobs, map[], bk)
      ensures Total(BlobCharges(state.blobs)) == BlobUsage(smallBlobMemory, largeBlobMemory, blobDisk)
    {
      hide BlobCharge, BlobUsage, Usage.Plus, Usage.Minus, MapOf, RefCount, Unevicted, Total, BlobCharges, Restrict;
      var todo := state.blobs.Keys;
      ghost var seen := {};
      assert Total(BlobCharges(Restrict(state.blobs, seen))) == BlobUsage(0, 0, 0) by {
        NothingSeen(state.blobs);
      }
      while todo != {}
        invariant todo !! seen && todo + seen == state.blobs.Keys
        invariant bk.Keys == seen
        invariant forall r :: r in seen ==> bk[r] == BlobBk(TierOf(state.blobs[r]), 0, 0, state.blobs[r].lastAccessed)
        invariant Total(BlobCharges(Restrict(state.blobs, seen))) ==
          BlobUsage(smallBlobMemory, largeBlobMemory, blobDisk)
        decreases todo
      {
        var d :| d in todo;
        var b := state.blobs[d];
        RestrictGrows(state.blobs, seen, d);
        BlobTotalGrows(Restrict(state.blobs, seen), d, b);
        BlobUsageAdd(smallBlobMemory, largeBlobMemory, blobDisk, b);
        var tier := TierOf(b);
        match b {
          case InMemory(_, content, _, _) =>
            if |content| > MEMORY_TIER_THRESHOLD {
              largeBlobMemory := largeBlobMemory + |content|;
            } else {
              smallBlobMemory := smallBlobMemory + |content|;
            }
          case OnDisk(_, size, _, _) =>
            blobDisk := blobDisk + size;
        }
        bk := bk[d := BlobBk(tier, 0, 0, b.lastAccessed)];
        todo, seen := todo - {d}, seen + {d};
      }
      RestrictAll(state.blobs, seen);
      forall r ensures RefCount(state.lib, map[], r) == 0 && Unevicted(map[]) == map[] {
        NoRefs(state.lib, r);
      }
    }

    /** Count a manifest's references; report the tiers they reach. */
    method CountRefs(refs: seq<Digest>, evicted: bool) returns (someInLargeMemory: bool, someOnDisk: bool)
      modifies this`bk
      ensures Counted(old(bk), evicted, refs, bk)
      ensures someInLargeMemory <==> HoldsTier(bk, refs, LargeMem)
      ensures someOnDisk <==> HoldsTier(bk, refs, Disk)
    {
      hide Counted, HoldsTier;
      someInLargeMemory, someOnDisk := false, false;
      ghost var bk0 := bk;
      NothingCounted(bk0, evicted, refs);
      for i := 0 to |refs|
        invariant Counted(bk0, evicted, refs[..i], bk)
        invariant someInLargeMemory <==> HoldsTier(bk0, refs[..i], LargeMem)
        invariant someOnDisk <==> HoldsTier(bk0, refs[..i], Disk)
      {
        var r := refs[i];
        ghost var bk1 := bk;
        if r in bk {
          var bb := bk[r];
          bb := bb.(refs := bb.refs + 1);
          if !evicted {
            bb := bb.(unevictedRefs := bb.unevictedRefs + 1);
          }
          bk := bk[r := bb];
          someOnDisk := someOnDisk || bb.tier == Disk;
          someInLargeMemory := someInLargeMemory || bb.tier == LargeMem;
        }
        CountedTier(bk0, evicted, refs[..i], bk1, r);
        CountedGrows(bk0, evicted, refs, i, bk1, bk);
        HoldsTierGrows(bk0, refs, i, Disk);
        HoldsTierGrows(bk0, refs, i, LargeMem);
      }
      assert refs[..|refs|] == refs;
      CountedHolds(bk0, evicted, refs, bk);
    }

    method WalkManifests()
      requires BkCounts(state.lib, state.blobs, map[], bk) && manifestMemory == 0
      requires smallMemoryCandidates == largeMemoryCandidates == diskCandidates == multiset{}
      modifies this`bk, this`manifestMemory, this`smallMemoryCandidates, this`largeMemoryCandidates, this`diskCandidates
      ensures BkCounts(state.lib, state.blobs, state.manifests, bk)
      ensures Total(ManifestCharges(state.manifests)) == In(ManifestMemory, manifestMemory)
      ensures smallMemoryCandidates == multiset(ManifestCandidates(state.View(), state.manifests.Keys))
      ensures largeMemoryCandidates ==
        multiset(ManifestCandidates(state.View(), TierHolders(state.lib, state.View(), state.manifests.Keys, LargeMem)))
      ensures diskCandidates ==
        multiset(ManifestCandidates(state.View(), TierHolders(state.lib, state.View(), state.manifests.Keys, Disk)))
    {
      hide BkCounts, Counted, HoldsTier, Total, ManifestCharges, Restrict, ManifestCandidates, TierHolders;
      hide RefersToTier;
      hide ReferencedDigests, Usage.Plus, In, ManifestCharge;
      ghost var s := state.View();
      var todo := state.manifests.Keys;
      ghost var seen := {};
      NoManifestsSeen(state.lib, s);
      while todo != {}
        invariant todo !! seen && todo + seen == state.manifests.Keys && state.View() == s
        invariant BkCounts(state.lib, state.blobs, Restrict(state.manifests, seen), bk)
        invariant Total(ManifestCharges(Restrict(state.manifests, seen))) == In(ManifestMemory, manifestMemory)
        invariant smallMemoryCandidates == multiset(ManifestCandidates(s, seen))
        invariant largeMemoryCandidates == multiset(ManifestCandidates(s, TierHolders(state.lib, s, seen, LargeMem)))
        invariant diskCandidates == multiset(ManifestCandidates(s, TierHolders(state.lib, s, seen, Disk)))
        decreases todo
      {
        var d :| d in todo;
        WalkManifest(d, seen);
        todo, seen := todo - {d}, seen + {d};
      }
      RestrictAll(state.manifests, seen);
    }

    /** One manifest of the walk. */
    method WalkManifest(d: Digest, ghost seen: set<Digest>)
      requires d in state.manifests && d !in seen
      requires BkCounts(state.lib, state.blobs, Restrict(state.manifests, seen), bk)
      requires Total(ManifestCharges(Restrict(state.manifests, seen))) == In(ManifestMemory, manifestMemory)
      requires smallMemoryCandidates == multiset(ManifestCandidates(state.View(), seen))
      requires largeMemoryCandidates ==
        multiset(ManifestCandidates(state.View(), TierHolders(state.lib, state.View(), seen, LargeMem)))
      requires diskCandidates ==
        multiset(ManifestCandidates(state.View(), TierHolders(state.lib, state.View(), seen, Disk)))
      modifies this`bk, this`manifestMemory, this`smallMemoryCandidates, this`largeMemoryCandidates, this`diskCandidates
      ensures BkCounts(state.lib, state.blobs, Restrict(state.manifests, seen + {d}), bk)
      ensures Total(ManifestCharges(Restrict(state.manifests, seen + {d}))) == In(ManifestMemory, manifestMemory)
      ensures smallMemoryCandidates == multiset(ManifestCandidates(state.View(), seen + {d}))
      ensures largeMemoryCandidates ==
        multiset(ManifestCandidates(state.View(), TierHolders(state.lib, state.View(), seen + {d}, LargeMem)))
      ensures diskCandidates ==
        multiset(ManifestCandidates(state.View(), TierHolders(state.lib, state.View(), seen + {d}, Disk)))
    {
      hide BkCounts, Counted, HoldsTier, Total, ManifestCharges, Restrict, ManifestCandidates, TierHolders;
      hide RefersToTier;
      hide ReferencedDigests, Usage.Plus, In, ManifestCharge;
      ghost var s, bk0 := state.View(), bk;
      var m := state.manifests[d];
      var refs := CollectDigests(state.lib, m.content);
      var someInLargeMemory, someOnDisk := CountRefs(refs, m.evicted);
      BkCountsGrow(state.lib, state.blobs, state.manifests, seen, d, bk0, bk);
      HoldsTierIsRefersTo(state.lib, s, d, Restrict(state.manifests, seen + {d}), bk, LargeMem);
      HoldsTierIsRefersTo(state.lib, s, d, Restrict(state.manifests, seen + {d}), bk, Disk);
      TierHoldersGrow(state.lib, s, seen, d, LargeMem);
      TierHoldersGrow(state.lib, s, seen, d, Disk);
      var c := ManifestCandidate(m.lastUsed, d);
      ManifestCandidatesGrow(s, seen, d);
      smallMemoryCandidates := smallMemoryCandidates + multiset{c};
      if someInLargeMemory {
        ManifestCandidatesGrow(s, TierHolders(state.lib, s, seen, LargeMem), d);
        largeMemoryCandidates := largeMemoryCandidates + multiset{c};
      }
      if someOnDisk {
        ManifestCandidatesGrow(s, TierHolders(state.lib, s, seen, Disk), d);
        diskCandidates := diskCandidates + multiset{c};
      }
      RestrictGrows(state.manifests, seen, d);
      ManifestTotalPut(Restrict(state.manifests, seen), d, m);
      assert In(ManifestMemory, manifestMemory).Plus(ManifestCharge(m)) ==
        In(ManifestMemory, manifestMemory + |m.content|) by {
        InAdds(ManifestMemory, manifestMemory, |m.content|);
        OneManifest(m);
      }
      manifestMemory := manifestMemory + |m.content|;
    }

    method WalkRedis()
      requires smallRedisMemory == largeRedisMemory == redisDisk == 0
      modifies this`smallRedisMemory, this`largeRedisMemory, this`redisDisk
      modifies this`smallMemoryCandidates, this`largeMemoryCandidates, this`diskCandidates
      ensures Total(RedisCharges(state.redisEntries)) == RedisUsage(smallRedisMemory, largeRedisMemory, redisDisk)
      ensures smallMemoryCandidates == old(smallMemoryCandidates)
        + multiset(RedisCandidates(state.View(), state.redisEntries.Keys, SmallRedisMemory))
      ensures largeMemoryCandidates == old(largeMemoryCandidates)
        + multiset(RedisCandidates(state.View(), state.redisEntries.Keys, LargeRedisMemory))
      ensures diskCandidates == old(diskCandidates)
        + multiset(RedisCandidates(state.View(), state.redisEntries.Keys, RedisDisk))
    {
      hide RedisUsage, Total, RedisCharges, Restrict, RedisCandidates, CandidateAdded;
      ghost var s := state.View();
      var todo := state.redisEntries.Keys;
      ghost var seen := {};
      NoRedisSeen(s);
      while todo != {}
        invariant todo !! seen && todo + seen == state.redisEntries.Keys && state.View() == s
        invariant Total(RedisCharges(Restrict(state.redisEntries, seen))) ==
          RedisUsage(smallRedisMemory, largeRedisMemory, redisDisk)
        invariant smallMemoryCandidates ==
          old(smallMemoryCandidates) + multiset(RedisCandidates(s, seen, SmallRedisMemory))
        invariant largeMemoryCandidates ==
          old(largeMemoryCandidates) + multiset(RedisCandidates(s, seen, LargeRedisMemory))
        invariant diskCandidates == old(diskCandidates) + multiset(RedisCandidates(s, seen, RedisDisk))
        decreases todo
      {
        var k :| k in todo;
        ghost var small, large, disk := smallMemoryCandidates, largeMemoryCandidates, diskCandidates;
        WalkRedisEntry(k, seen);
        HeapGrows(s, seen, k, SmallRedisMemory, old(smallMemoryCandidates), small, smallMemoryCandidates);
        HeapGrows(s, seen, k, LargeRedisMemory, old(largeMemoryCandidates), large, largeMemoryCandidates);
        HeapGrows(s, seen, k, RedisDisk, old(diskCandidates), disk, diskCandidates);
        todo, seen := todo - {k}, seen + {k};
      }
      RestrictAll(state.redisEntries, seen);
    }

    /** One redis entry of the walk. */
    method WalkRedisEntry(k: Bytes, ghost seen: set<Bytes>)
      requires k in state.redisEntries && k !in seen
      requires Total(RedisCharges(Restrict(state.redisEntries, seen))) ==
        RedisUsage(smallRedisMemory, largeRedisMemory, redisDisk)
      modifies this`smallRedisMemory, this`largeRedisMemory, this`redisDisk
      modifies this`smallMemoryCandidates, this`largeMemoryCandidates, this`diskCandidates
      ensures Total(RedisCharges(Restrict(state.redisEntries, seen + {k}))) ==
        RedisUsage(smallRedisMemory, largeRedisMemory, redisDisk)
      ensures CandidateAdded(state.View(), k, SmallRedisMemory, old(smallMemoryCandidates), smallMemoryCandidates)
      ensures CandidateAdded(state.View(), k, LargeRedisMemory, old(largeMemoryCandidates), largeMemoryCandidates)
      ensures CandidateAdded(state.View(), k, RedisDisk, old(diskCandidates), diskCandidates)
    {
      hide RedisCharge, RedisUsage, Usage.Plus, Total, RedisCharges, Restrict;
      var e := state.redisEntries[k];
      RestrictGrows(state.redisEntries, seen, k);
      RedisTotalPut(Restrict(state.redisEntries, seen), k, e);
      RedisUsageAdd(smallRedisMemory, largeRedisMemory, redisDisk, k, e);
      smallRedisMemory := smallRedisMemory + |k|;
      match e {
        case InMemory(_, value, lastAccessed) =>
          if |value| > MEMORY_TIER_THRESHOLD {
            largeMemoryCandidates := largeMemoryCandidates + multiset{RedisCandidate(lastAccessed, k, |value|)};
            largeRedisMemory := largeRedisMemory + |value|;
          } else {
            smallMemoryCandidates := smallMemoryCandidates + multiset{RedisCandidate(lastAccessed, k, |value|)};
            smallRedisMemory := smallRedisMemory + |value|;
          }
        case OnDisk(_, size, lastAccessed) =>
          diskCandidates := diskCandidates + multiset{RedisCandidate(lastAccessed, k, size)};
          redisDisk := redisDisk + size;
      }
    }

    /** One reference of a dropped manifest (src/eviction.rs:449-477). */
    method DropRef(r: Digest, evicted: bool)
      modifies this, state
      ensures M() == AfterDropRef(old(M()), r, evicted)
    {
      hide BlobCharge, Usage.Saturating, DeleteOne;
      if r !in bk {
        return;
      }
      var bb := bk[r];
      if !evicted {
        bb := bb.(unevictedRefs := SaturatingSub(bb.unevictedRefs, 1));
      }
      bb := bb.(refs := SaturatingSub(bb.refs, 1));
      assert bb == DroppedOnce(old(bk)[r], evicted);
      hide DroppedOnce;
      bk := bk[r := bb];
      if bb.refs != 0 || bb.lastAccessed > SaturatingSub(state.now, BLOB_GRACE_SECONDS) {
        return;
      }
      var blob := state.RemoveBlob(r);
      if blob.None? {
        return;
      }
      TakeOff(blob.value);
      if blob.value.OnDisk? {
        state.DeleteFile(blob.value.id);
      }
      DeleteOneIs(old(state.View()), r, state.View());
    }

    /** Take a removed blob's bytes off the accumulator of its tier. */
    method TakeOff(b: Blob)
      modifies this
      ensures Acc() == old(Acc()).Saturating(BlobCharge(b))
      ensures unchanged(`bk) && unchanged(`smallMemoryCandidates)
      ensures unchanged(`largeMemoryCandidates) && unchanged(`diskCandidates)
    {
      match b {
        case InMemory(_, content, _, _) =>
          if |content| > MEMORY_TIER_THRESHOLD {
            largeBlobMemory := SaturatingSub(largeBlobMemory, |content|);
          } else {
            smallBlobMemory := SaturatingSub(smallBlobMemory, |content|);
          }
        case OnDisk(_, size, _, _) =>
          blobDisk := SaturatingSub(blobDisk, size);
      }
    }

    /** Drop a manifest, cascading to its blobs (src/eviction.rs:439-478). */
    method Drop(d: Digest)
      modifies this, state
      ensures M() == DropManifest(state.lib, old(M()), d)
    {
      hide AfterDropRef, DropWalk, Usage.Saturating, ManifestCharge;
      ghost var m0 := M();
      var removed := state.RemoveManifest(d);
      if removed.None? {
        return;
      }
      var man := removed.value;
      TakeOffManifest(man);
      var pointing := set t | t in state.tags && state.tags[t] == d;
      state.tags := state.tags - pointing;
      ghost var m1 := M();
      assert m1 == m0.(s := UntagManifest(m0.s, d), acc := m0.acc.Saturating(ManifestCharge(man)));
      DropManifestIsWalk(state.lib, m0, d);
      hide DropManifest, UntagManifest;
      var refs := CollectDigests(state.lib, man.content);
      DropWalkStart(m1, man.evicted);
      assert refs[..0] == [];
      for i := 0 to |refs|
        invariant M() == DropWalk(m1, man.evicted, refs[..i])
      {
        DropRef(refs[i], man.evicted);
        DropWalkStep(m1, man.evicted, refs, i);
      }
      assert refs[..|refs|] == refs;
    }

    method TakeOffManifest(man: Manifest)
      modifies this
      ensures Acc() == old(Acc()).Saturating(ManifestCharge(man))
      ensures unchanged(`bk) && unchanged(`smallMemoryCandidates)
      ensures unchanged(`largeMemoryCandidates) && unchanged(`diskCandidates)
    {
      manifestMemory := SaturatingSub(manifestMemory, |man.content|);
    }

    /** One reference of a spilled manifest (src/eviction.rs:328-372). */
    method SpillRef(r: Digest, evicted: bool)
      modifies this, state
      ensures M() == AfterSpillRef(old(M()), r, evicted)
    {
      hide BlobCharge;
      if r !in bk {
        return;
      }
      var bb := bk[r];
      if !evicted {
        bb := bb.(unevictedRefs := SaturatingSub(bb.unevictedRefs, 1));
      }
      bk := bk[r := bb];
      if bb.unevictedRefs != 0 || bb.tier != LargeMem {
        return;
      }
      if r !in state.blobs || state.blobs[r].OnDisk? {
        return;
      }
      var b := state.blobs[r];
      var size := |b.content|;
      state.WriteFile(b.id, b.content);
      state.InsertBlob(r, Blob.OnDisk(b.id, size, b.mediaType, b.lastAccessed));
      largeBlobMemory := SaturatingSub(largeBlobMemory, size);
      blobDisk := blobDisk + size;
    }

    /** A manifest popped from the large heap (src/eviction.rs:320-378). */
    method Spill(c: Candidate)
      requires c.ManifestCandidate? && M().s.DistinctIds() && LargeTierMatches(M())
      modifies this, state
      ensures M() == SpillManifest(state.lib, old(M()), c)
    {
      hide AfterSpillRef, SpillWalk, LargeTierMatches, Store.DistinctIds, SpilledBk;
      var d := c.digest;
      ghost var m0 := M();
      if d !in state.manifests {
        return;
      }
      var man := state.manifests[d];
      state.manifests := state.manifests[d := man.(evicted := true)];
      ghost var m1 := M();
      assert m1 == m0.(s := FlagManifest(m0.s, d));
      FlagKeepsTiers(m0, d);
      var refs := CollectDigests(state.lib, man.content);
      SpillManifestIsWalk(state.lib, m0, c);
      hide SpillManifest, FlagManifest;
      SpillWalkStart(m1, man.evicted);
      assert refs[..0] == [];
      for i := 0 to |refs|
        invariant M() == SpillWalk(m1, man.evicted, refs[..i])
      {
        SpillRef(refs[i], man.evicted);
        SpillWalkStep(m1, man.evicted, refs, i);
      }
      assert refs[..|refs|] == refs;
      SpillWalkHeaps(m1, man.evicted, refs);
      diskCandidates := diskCandidates + multiset{c};
    }

    /** A redis value popped from the large heap (src/eviction.rs:379-413). */
    method SpillValue(c: Candidate)
      requires c.RedisCandidate?
      modifies this, state
      ensures M() == SpillRedisCandidate(old(M()), c)
    {
      if c.key !in state.redisEntries || state.redisEntries[c.key].OnDisk? {
        return;
      }
      hide SaturatingSub;
      var e := state.redisEntries[c.key];
      state.WriteFile(e.id, e.value);
      state.redisEntries := state.redisEntries[c.key := RedisEntry.OnDisk(e.id, c.size, c.lastAccessed)];
      assert state.View() == SpillRedis(old(state.View()), c.key, c.size, c.lastAccessed);
      hide SpillRedis;
      largeRedisMemory := SaturatingSub(largeRedisMemory, c.size);
      redisDisk := redisDisk + c.size;
      diskCandidates := diskCandidates + multiset{c};
    }

    /** A small redis entry popped from the small heap: its key stays on the accumulator. */
    method DropSmallRedis(k: Bytes, size: nat)
      modifies this, state
      ensures M() == DropRedis(old(M()), k, In(SmallRedisMemory, size))
    {
      hide RedisCharge;
      var existed := state.RemoveRedis(k);
      if existed {
        smallRedisMemory := SaturatingSub(smallRedisMemory, size);
      }
    }

    method DropDiskRedis(k: Bytes, size: nat)
      modifies this, state
      ensures M() == DropRedis(old(M()), k, In(RedisDisk, size))
    {
      hide RedisCharge;
      var existed := state.RemoveRedis(k);
      if existed {
        redisDisk := SaturatingSub(redisDisk, size);
      }
    }

    method PopSmallMemory() returns (ghost ev: Event)
      requires smallMemoryCandidates != multiset{} && M().s.DistinctIds() && LargeTierMatches(M())
      modifies this, state
      ensures ev.PopSmall? && Oldest(old(smallMemoryCandidates), ev.c)
      ensures M() == Step(state.lib, old(M()), ev)
    {
      hide LargeTierMatches, Store.DistinctIds, DropManifest, DropRedis, In;
      var c, rest := PopOldest(smallMemoryCandidates);
      smallMemoryCandidates := rest;
      ev := PopSmall(c);
      match c {
        case ManifestCandidate(_, digest) => Drop(digest);
        case RedisCandidate(_, key, size) => DropSmallRedis(key, size);
      }
    }

    method PopLargeMemory() returns (ghost ev: Event)
      requires largeMemoryCandidates != multiset{} && M().s.DistinctIds() && LargeTierMatches(M())
      modifies this, state
      ensures ev.PopLarge? && Oldest(old(largeMemoryCandidates), ev.c)
      ensures M() == Step(state.lib, old(M()), ev)
    {
      hide LargeTierMatches, Store.DistinctIds, SpillManifest, SpillRedisCandidate;
      ghost var m0 := M();
      var c, rest := PopOldest(largeMemoryCandidates);
      largeMemoryCandidates := rest;
      ev := PopLarge(c);
      TierMatchIgnoresHeaps(m0, M());
      match c {
        case ManifestCandidate(_, _) => Spill(c);
        case RedisCandidate(_, _, _) => SpillValue(c);
      }
    }

    method PopDiskPool() returns (ghost ev: Event)
      requires diskCandidates != multiset{} && M().s.DistinctIds() && LargeTierMatches(M())
      modifies this, state
      ensures ev.PopDisk? && Oldest(old(diskCandidates), ev.c)
      ensures M() == Step(state.lib, old(M()), ev)
    {
      hide LargeTierMatches, Store.DistinctIds, DropManifest, DropRedis, In;
      var c, rest := PopOldest(diskCandidates);
      diskCandidates := rest;
      ev := PopDisk(c);
      match c {
        case ManifestCandidate(_, digest) => Drop(digest);
        case RedisCandidate(_, key, size) => DropDiskRedis(key, size);
      }
    }

    /** One turn of the loop (src/eviction.rs:297-432): serve the first budget that
        is over its target and has a candidate left. */
    method Turn() returns (done: bool, ghost ev: Event)
      requires M().s.DistinctIds() && LargeTierMatches(M())
      modifies this, state
      ensures done <==> Done(state.config, old(M()))
      ensures done ==> M() == old(M())
      ensures !done ==> Enabled(state.config, old(M()), ev) && M() == Step(state.lib, old(M()), ev)
    {
      hide LargeTierMatches, Store.DistinctIds, Step, Oldest;
      ghost var m0 := M();
      var smallUsed := smallBlobMemory + smallRedisMemory + manifestMemory;
      var memoryUsed := largeBlobMemory + largeRedisMemory + manifestMemory + smallBlobMemory + smallRedisMemory;
      done, ev := false, PopSmall(ManifestCandidate(0, Digest(seq(32, _ => 0))));
      if smallUsed > state.config.SmallTarget() && smallMemoryCandidates != multiset{} {
        assert PicksSmall(state.config, m0);
        ev := PopSmallMemory();
      } else if memoryUsed > state.config.MemoryTarget() && largeMemoryCandidates != multiset{} {
        assert PicksLarge(state.config, m0);
        ev := PopLargeMemory();
      } else if blobDisk + redisDisk > state.config.DiskTarget() && diskCandidates != multiset{} {
        assert PicksDisk(state.config, m0);
        ev := PopDiskPool();
      } else {
        done := true;
      }
    }

    /** The unreferenced sweep (src/eviction.rs:485-496). The accumulators are not lowered. */
    method Sweep()
      modifies state
      ensures state.View() == DeleteBlobs(old(state.View()), ToSweep(old(M())))
    {
      hide DeleteBlobs, Store.RemoveBlob, SweepExpired, DeleteOne;
      ghost var m := M();
      var todo := bk.Keys;
      ghost var seen := {};
      NothingDeleted(m.s);
      assert SweptSoFar(m, seen) == {};
      while todo != {}
        invariant todo !! seen && todo + seen == bk.Keys
        invariant state.View() == DeleteBlobs(m.s, SweptSoFar(m, seen))
        decreases todo
      {
        var r :| r in todo;
        SweepDigest(r, m, seen);
        todo, seen := todo - {r}, seen + {r};
      }
      assert SweptSoFar(m, seen) == ToSweep(m);
    }

    /** One digest of the sweep. */
    method SweepDigest(r: Digest, ghost m: Machine, ghost seen: set<Digest>)
      requires r in bk && r !in seen && bk == m.bk && state.View() == DeleteBlobs(m.s, SweptSoFar(m, seen))
      modifies state
      ensures state.View() == DeleteBlobs(m.s, SweptSoFar(m, seen + {r}))
    {
      hide BlobTotal, DeletedIds, BlobCharge, DeleteOne;
      ghost var w := SweptSoFar(m, seen);
      SweptGrows(m, seen, r);
      assert state.now == m.s.now;
      if bk[r].refs != 0 || SaturatingSub(state.now, bk[r].lastAccessed) < BLOB_GRACE_SECONDS {
        return;
      }
      ghost var s1 := state.View();
      assert r in s1.blobs <==> r in m.s.blobs;
      hide DeleteBlobs, SweptSoFar;
      var b := state.RemoveBlob(r);
      if b.Some? {
        if b.value.OnDisk? {
          state.DeleteFile(b.value.id);
        }
        DeleteOneIs(s1, r, state.View());
        DeleteMore(m.s, w, r);
      }
    }

    /** Publish the touch-time gauges (src/eviction.rs:501-521). */
    method PublishGauges()
      modifies state`oldestSmallMemoryTouchTime, state`oldestLargeMemoryTouchTime, state`oldestDiskTouchTime
      ensures state.View() == old(state.View())
      ensures PublishedOldest(smallMemoryCandidates, state.now, state.oldestSmallMemoryTouchTime)
      ensures PublishedOldest(largeMemoryCandidates, state.now, state.oldestLargeMemoryTouchTime)
      ensures PublishedOldest(diskCandidates, state.now, state.oldestDiskTouchTime)
    {
      hide PublishedOldest;
      var small := OldestOr(smallMemoryCandidates, state.now);
      var large := OldestOr(largeMemoryCandidates, state.now);
      var disk := OldestOr(diskCandidates, state.now);
      state.oldestSmallMemoryTouchTime := small;
      state.oldestLargeMemoryTouchTime := large;
      state.oldestDiskTouchTime := disk;
    }

    /** Store six of the seven counters (src/eviction.rs:523-536). */
    method StoreCounters()
      modifies state`smallBlobMemoryUsage, state`largeBlobMemoryUsage, state`blobDiskUsage
      modifies state`smallRedisMemoryUsage, state`largeRedisMemoryUsage, state`redisDiskUsage
      ensures state.View() == old(state.View()).(
        counters := Acc().(manifestMemory := old(state.View()).counters.manifestMemory))
    {
      state.smallBlobMemoryUsage := smallBlobMemory;
      state.largeBlobMemoryUsage := largeBlobMemory;
      state.blobDiskUsage := blobDisk;
      state.smallRedisMemoryUsage := smallRedisMemory;
      state.largeRedisMemoryUsage := largeRedisMemory;
      state.redisDiskUsage := redisDisk;
    }

    /** The loop, the sweep and the final stores. The ghost results record the pops. */
    method Run() returns (ghost events: seq<Event>, ghost states: seq<Machine>)
      requires state.View().Owned() && M() == Initial(state.lib, state.View())
      modifies this, state
      ensures IsPass(state.lib, state.config, old(state.View()), events, states, state.View())
      ensures PublishedOldest(states[|events|].small, state.now, state.oldestSmallMemoryTouchTime)
      ensures PublishedOldest(states[|events|].large, state.now, state.oldestLargeMemoryTouchTime)
      ensures PublishedOldest(states[|events|].disk, state.now, state.oldestDiskTouchTime)
    {
      hide IsTrace, Inv, Initial, Step, Enabled, LargeTierMatches, Store.DistinctIds, Done, Finish, PublishedOldest;
      hide DeleteBlobs, ToSweep, Store.Owned, Measure;
      ghost var s0 := state.View();
      events, states := [], [M()];
      InitialInv(state.lib, s0);
      EmptyTrace(state.lib, state.config, s0);
      var done := false;
      while !done
        invariant |states| == |events| + 1 && states[|events|] == M()
        invariant IsTrace(state.lib, state.config, s0, events, states) && Inv(state.lib, s0, M())
        invariant done ==> Done(state.config, M())
        decreases if done then 0 else 1, Measure(M())
      {
        ghost var m := M();
        ghost var ev;
        InvEnablesStep(state.lib, s0, m);
        done, ev := Turn();
        if !done {
          StepInv(state.lib, state.config, s0, m, ev);
          StepDecreasesMeasure(state.lib, state.config, m, ev);
          ExtendTrace(state.lib, state.config, s0, events, states, ev);
          events, states := events + [ev], states + [M()];
        }
      }
      ghost var m := M();
      Sweep();
      PublishGauges();
      StoreCounters();
      assert state.View() == Finish(m) by {
        FinishIs(m, Acc(), state.View());
      }
    }
  }

  /** `evict`: one full pass over the shared state. */
  method Evict(state: State) returns (ghost events: seq<Event>, ghost states: seq<Machine>)
    requires state.View().Owned()
    modifies state
    ensures IsPass(state.lib, state.config, old(state.View()), events, states, state.View())
    ensures PublishedOldest(states[|events|].small, state.now, state.oldestSmallMemoryTouchTime)
    ensures PublishedOldest(states[|events|].large, state.now, state.oldestLargeMemoryTouchTime)
    ensures PublishedOldest(states[|events|].disk, state.now, state.oldestDiskTouchTime)
  {
    hide IsPass, PublishedOldest, Initial, Store.Owned;
    var pass := new Pass(state);
    events, states := pass.Run();
  }

  // ---- Lemmas for the loop

  ghost function SweptSoFar(m: Machine, seen: set<Digest>): set<Digest> {
    set r | r in seen && r in ToSweep(m)
  }

  lemma SweptGrows(m: Machine, seen: set<Digest>, r: Digest)
    requires r in m.bk && r !in seen
    ensures r !in SweptSoFar(m, seen)
    ensures SweptSoFar(m, seen + {r}) ==
      if r in m.s.blobs && m.bk[r].refs == 0 && SweepExpired(m.s.now, m.bk[r].lastAccessed)
      then SweptSoFar(m, seen) + {r} else SweptSoFar(m, seen)
  {
    hide SweepExpired;
  }

  lemma FinishIs(m: Machine, acc: Usage, s: Store)
    requires acc == m.acc
    requires s == DeleteBlobs(m.s, ToSweep(m)).(
      counters := acc.(manifestMemory := DeleteBlobs(m.s, ToSweep(m)).counters.manifestMemory))
    ensures s == Finish(m)
  {
    hide DeleteBlobs, ToSweep;
  }

  lemma EmptyTrace(lib: Library, cfg: Config, s0: Store)
    ensures IsTrace(lib, cfg, s0, [], [Initial(lib, s0)])
  {
    hide Initial;
  }

  lemma ExtendTrace(lib: Library, cfg: Config, s0: Store, events: seq<Event>, states: seq<Machine>, ev: Event)
    requires IsTrace(lib, cfg, s0, events, states)
    requires states[|events|].s.DistinctIds() && LargeTierMatches(states[|events|])
    requires Enabled(cfg, states[|events|], ev)
    ensures IsTrace(lib, cfg, s0, events + [ev], states + [Step(lib, states[|events|], ev)])
  {
    hide Initial, Step, LargeTierMatches, Store.DistinctIds, Enabled;
    var events', states' := events + [ev], states + [Step(lib, states[|events|], ev)];
    forall i | 0 <= i < |events'| ensures TraceStep(lib, cfg, states'[i], events'[i], states'[i + 1]) {
      if i < |events| {
        TraceAt(lib, cfg, s0, events, states, i);
      }
    }
  }

  /** Unless the loop is done, some pop is enabled. */
  lemma PopIsEnabled(cfg: Config, m: Machine) returns (ev: Event)
    requires !Done(cfg, m)
    ensures Enabled(cfg, m, ev)
  {
    hide Config.OverSmall, Config.OverMemory, Config.OverDisk, Oldest;
    if PicksSmall(cfg, m) {
      OldestExists(m.small);
      var c :| c in m.small && Oldest(m.small, c);
      ev := PopSmall(c);
    } else if PicksLarge(cfg, m) {
      OldestExists(m.large);
      var c :| c in m.large && Oldest(m.large, c);
      ev := PopLarge(c);
    } else {
      OldestExists(m.disk);
      var c :| c in m.disk && Oldest(m.disk, c);
      ev := PopDisk(c);
    }
  }

  /** Any trace can be carried on until the loop is done: no state is stuck and
      the measure runs out. */
  lemma {:induction false} TraceCompletes(
      lib: Library, cfg: Config, s0: Store, events: seq<Event>, states: seq<Machine>)
      returns (events': seq<Event>, states': seq<Machine>)
    requires s0.Owned() && IsTrace(lib, cfg, s0, events, states)
    ensures IsTrace(lib, cfg, s0, events', states') && Done(cfg, states'[|events'|])
    decreases Measure(states[|events|])
  {
    hide Store.Owned, Initial, TraceStep, Done, Enabled, Step, Measure, Inv, LargeTierMatches, Store.DistinctIds;
    var m := states[|events|];
    if Done(cfg, m) {
      events', states' := events, states;
    } else {
      var ev := PopIsEnabled(cfg, m);
      TraceInv(lib, cfg, s0, events, states, |events|);
      InvEnablesStep(lib, s0, m);
      StepDecreasesMeasure(lib, cfg, m, ev);
      ExtendTrace(lib, cfg, s0, events, states, ev);
      events', states' := TraceCompletes(lib, cfg, s0, events + [ev], states + [Step(lib, m, ev)]);
    }
  }

  /** Every owned store has a complete pass. */
  lemma PassExists(lib: Library, cfg: Config, s0: Store)
    requires s0.Owned()
    ensures exists events, states, s1 :: IsPass(lib, cfg, s0, events, states, s1)
  {
    hide Store.Owned, Initial, IsTrace, Done, Finish;
    EmptyTrace(lib, cfg, s0);
    var events, states := TraceCompletes(lib, cfg, s0, [], [Initial(lib, s0)]);
    assert IsPass(lib, cfg, s0, events, states, Finish(states[|events|])) by {
      LastState(lib, cfg, s0, events, states);
    }
  }

  lemma LastState(lib: Library, cfg: Config, s0: Store, events: seq<Event>, states: seq<Machine>)
    requires IsTrace(lib, cfg, s0, events, states)
    ensures |states| == |events| + 1
  {}

  lemma FlagKeepsTiers(m: Machine, d: Digest)
    requires m.s.DistinctIds() && LargeTierMatches(m) && d in m.s.manifests
    ensures var m1 := m.(s := FlagManifest(m.s, d));
      m1.s.DistinctIds() && LargeTierMatches(m1)
  {
    hide IsLargeInMemory;
  }

  lemma SpillWalkHeaps(m: Machine, evicted: bool, refs: seq<Digest>)
    requires m.s.DistinctIds() && LargeTierMatches(m)
    ensures SameHeaps(m, SpillWalk(m, evicted, refs))
  {
    hide SpillBlobs, SpilledBk, ToSpill, LargeTierMatches, Store.DistinctIds;
  }

  /** The machine's spill is the flag, the walk and the push. */
  lemma SpillManifestIsWalk(lib: Library, m: Machine, c: Candidate)
    requires c.ManifestCandidate? && m.s.DistinctIds() && LargeTierMatches(m) && c.digest in m.s.manifests
    ensures var m1, man := m.(s := FlagManifest(m.s, c.digest)), m.s.manifests[c.digest];
      && m1.s.DistinctIds() && LargeTierMatches(m1)
      && SpillManifest(lib, m, c) ==
           SpillWalk(m1, man.evicted, ReferencedDigests(lib, man.content)).(disk := m.disk + multiset{c})
  {
    hide SpilledBk, BlobTotal, Moved, LargeTierMatches, Store.DistinctIds, SpillFiles, MoveCounters;
    FlagKeepsTiers(m, c.digest);
    var refs := ReferencedDigests(lib, m.s.manifests[c.digest].content);
    var bk := SpilledBk(m.bk, m.s.manifests[c.digest].evicted, refs);
    assert ToSpill(FlagManifest(m.s, c.digest), bk, refs) == ToSpill(m.s, bk, refs);
    hide ToSpill, FlagManifest, SpillBlobs;
  }

  lemma DeleteOneIs(s: Store, r: Digest, s': Store)
    requires r in s.blobs
    requires s' == if s.blobs[r].OnDisk? then s.RemoveBlob(r).DeleteFile(s.blobs[r].id) else s.RemoveBlob(r)
    ensures s' == DeleteOne(s, r)
  {}

  // ---- Lemmas for the walks

  lemma RestrictGrows<K, V>(m: map<K, V>, seen: set<K>, k: K)
    requires k in m && k !in seen
    ensures Restrict(m, seen + {k}) == Restrict(m, seen)[k := m[k]] && k !in Restrict(m, seen)
  {}

  lemma RestrictAll<K, V>(m: map<K, V>, seen: set<K>)
    requires seen == m.Keys
    ensures Restrict(m, seen) == m
  {}

  lemma NothingSeen(bs: map<Digest, Blob>)
    ensures Total(BlobCharges(Restrict(bs, {}))) == BlobUsage(0, 0, 0)
  {
    assert Restrict(bs, {}) == map[];
    hide Total, BlobCharges, Restrict;
    NoBlobs(Restrict(bs, {}));
    UsageOfNothing();
  }

  lemma NoManifestsSeen(lib: Library, s: Store)
    ensures Restrict(s.manifests, {}) == map[]
    ensures Total(ManifestCharges(Restrict(s.manifests, {}))) == In(ManifestMemory, 0)
    ensures ManifestCandidates(s, {}) == {}
    ensures TierHolders(lib, s, {}, LargeMem) == {} && TierHolders(lib, s, {}, Disk) == {}
  {
    assert Restrict(s.manifests, {}) == map[];
    hide Total, ManifestCharges, Restrict;
    NoManifests(Restrict(s.manifests, {}));
  }

  lemma NoRedisSeen(s: Store)
    ensures Total(RedisCharges(Restrict(s.redis, {}))) == RedisUsage(0, 0, 0)
    ensures RedisCandidates(s, {}, SmallRedisMemory) == {} && RedisCandidates(s, {}, LargeRedisMemory) == {}
    ensures RedisCandidates(s, {}, RedisDisk) == {}
  {
    assert Restrict(s.redis, {}) == map[];
    hide Total, RedisCharges, Restrict;
    NoRedis(Restrict(s.redis, {}));
    UsageOfNothing();
  }

  lemma OneManifest(m: Manifest)
    ensures ManifestCharge(m) == In(ManifestMemory, |m.content|)
  {}

  lemma NothingCounted(bk: map<Digest, BlobBk>, evicted: bool, refs: seq<Digest>)
    ensures Counted(bk, evicted, refs[..0], bk)
    ensures !HoldsTier(bk, refs[..0], LargeMem) && !HoldsTier(bk, refs[..0], Disk)
  {}

  lemma CountedTier(bk0: map<Digest, BlobBk>, evicted: bool, refs: seq<Digest>, bk1: map<Digest, BlobBk>, r: Digest)
    requires Counted(bk0, evicted, refs, bk1)
    ensures (r in bk1 <==> r in bk0) && (r in bk0 ==> bk1[r].tier == bk0[r].tier)
  {}

  lemma CountedHolds(bk0: map<Digest, BlobBk>, evicted: bool, refs: seq<Digest>, bk1: map<Digest, BlobBk>)
    requires Counted(bk0, evicted, refs, bk1)
    ensures HoldsTier(bk1, refs, LargeMem) <==> HoldsTier(bk0, refs, LargeMem)
    ensures HoldsTier(bk1, refs, Disk) <==> HoldsTier(bk0, refs, Disk)
  {
    forall i | 0 <= i < |refs|
      ensures (refs[i] in bk1 <==> refs[i] in bk0) && (refs[i] in bk0 ==> bk1[refs[i]].tier == bk0[refs[i]].tier)
    {
      CountedTier(bk0, evicted, refs, bk1, refs[i]);
    }
    hide Counted;
  }

  lemma CountedGrows(bk0: map<Digest, BlobBk>, evicted: bool, refs: seq<Digest>, i: nat,
                     bk1: map<Digest, BlobBk>, bk2: map<Digest, BlobBk>)
    requires i < |refs| && Counted(bk0, evicted, refs[..i], bk1)
    requires bk2 == if refs[i] in bk1
      then bk1[refs[i] := bk1[refs[i]].(refs := bk1[refs[i]].refs + 1,
                                       unevictedRefs := bk1[refs[i]].unevictedRefs + (if evicted then 0 else 1))]
      else bk1
    ensures Counted(bk0, evicted, refs[..i + 1], bk2)
  {
    forall r | r in bk0
      ensures multiset(refs[..i + 1])[r] == multiset(refs[..i])[r] + (if r == refs[i] then 1 else 0)
    {
      MultisetGrows(refs, i, r);
    }
  }

  lemma HoldsTierGrows(bk: map<Digest, BlobBk>, refs: seq<Digest>, i: nat, tier: BlobTier)
    requires i < |refs|
    ensures HoldsTier(bk, refs[..i + 1], tier) <==>
      HoldsTier(bk, refs[..i], tier) || (refs[i] in bk && bk[refs[i]].tier == tier)
  {
    if HoldsTier(bk, refs[..i], tier) {
      var j :| 0 <= j < i && refs[..i][j] in bk && bk[refs[..i][j]].tier == tier;
      assert refs[..i + 1][j] == refs[..i][j];
    }
    if refs[i] in bk && bk[refs[i]].tier == tier {
      assert refs[..i + 1][i] == refs[i];
    }
    if HoldsTier(bk, refs[..i + 1], tier) {
      var j :| 0 <= j < i + 1 && refs[..i + 1][j] in bk && bk[refs[..i + 1][j]].tier == tier;
      assert j < i ==> refs[..i][j] == refs[..i + 1][j];
    }
  }

  lemma BkIsInitial(lib: Library, s: Store, bk: map<Digest, BlobBk>)
    requires BkCounts(lib, s.blobs, s.manifests, bk)
    ensures bk == InitialBk(lib, s)
  {
    hide RefCount, MapOf;
  }
}
