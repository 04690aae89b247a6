/** What every pop of an eviction pass keeps: exact reference counts, exact
    accumulators up to the dropped redis keys, and no blob deleted that a
    surviving manifest refers to. */
module EvictionInvariant {
  import opened Prelude
  import opened DigestText
  import opened UsageSums
  import opened References
  import opened Cache
  import opened EvictionMachine
  import opened EvictionStore

  ghost predicate BkStable(s0: Store, bk: map<Digest, BlobBk>) {
    && bk.Keys == s0.blobs.Keys
    && forall r :: r in bk ==> bk[r].tier == TierOf(s0.blobs[r]) && bk[r].lastAccessed == s0.blobs[r].lastAccessed
  }

  /** `refs` counts the occurrences in surviving manifests, `unevicted_refs`
      those in surviving manifests that are not flagged as evicted. */
  ghost predicate RefsExact(lib: Library, ms: map<Digest, Manifest>, bk: map<Digest, BlobBk>) {
    forall r :: r in bk ==>
      bk[r].refs == RefCount(lib, ms, r) && bk[r].unevictedRefs == RefCount(lib, Unevicted(ms), r)
  }

  /** A blob that is gone is old and no surviving manifest refers to it. */
  ghost predicate DeletedRightly(lib: Library, s0: Store, s: Store) {
    forall r :: r in s0.blobs && r !in s.blobs ==>
      RefCount(lib, s.manifests, r) == 0 && CascadeExpired(s0.now, s0.blobs[r].lastAccessed)
  }

  ghost function KeyCharges(keys: set<Bytes>): (r: map<Bytes, Usage>)
    ensures r.Keys == keys && forall k :: k in keys ==> r[k] == KeyCharge(k)
  {
    MapOf(keys, k => KeyCharge(k))
  }

  /** The bytes of the keys of redis entries dropped since `s0`. */
  ghost function KeySlack(s0: Store, s: Store): Usage {
    Total(KeyCharges(s0.redis.Keys - s.redis.Keys))
  }

  /** The accumulators are the sums over the maps plus the dropped keys. */
  ghost predicate AccExact(s0: Store, s: Store, acc: Usage) {
    acc == s.Recomputed().(smallRedisMemory := s.Recomputed().smallRedisMemory + KeySlack(s0, s).smallRedisMemory)
  }

  ghost predicate Core(lib: Library, s0: Store, m: Machine) {
    && m.s.Owned() && Evolved(s0, m.s)
    && BkStable(s0, m.bk) && RefsExact(lib, m.s.manifests, m.bk)
    && DeletedRightly(lib, s0, m.s) && AccExact(s0, m.s, m.acc)
  }

  // ---- Reference counts

  lemma RefCountTake(lib: Library, ms: map<Digest, Manifest>, d: Digest, r: Digest)
    requires d in ms
    ensures RefCount(lib, ms, r) == multiset(ReferencedDigests(lib, ms[d].content))[r] + RefCount(lib, ms - {d}, r)
  {
    AllRefsTake(RefLists(lib, ms), d);
    assert RefLists(lib, ms - {d}) == RefLists(lib, ms) - {d};
  }

  /** Only un-evicted manifests count, so an evicted one can go unnoticed. */
  lemma UnevictedTake(lib: Library, ms: map<Digest, Manifest>, d: Digest, r: Digest)
    requires d in ms
    ensures RefCount(lib, Unevicted(ms), r) ==
      (if ms[d].evicted then 0 else multiset(ReferencedDigests(lib, ms[d].content))[r]) +
        RefCount(lib, Unevicted(ms - {d}), r)
  {
    hide RefCount, ReferencedDigests;
    if ms[d].evicted {
      assert Unevicted(ms - {d}) == Unevicted(ms);
    } else {
      RefCountTake(lib, Unevicted(ms), d, r);
      assert Unevicted(ms - {d}) == Unevicted(ms) - {d};
    }
  }

  lemma FlagKeepsRefCount(lib: Library, ms: map<Digest, Manifest>, d: Digest, r: Digest)
    requires d in ms
    ensures var ms' := ms[d := ms[d].(evicted := true)];
      RefCount(lib, ms', r) == RefCount(lib, ms, r) && Unevicted(ms') == Unevicted(ms - {d})
  {
    hide Unevicted, ReferencedDigests, AllRefs;
    FlagKeepsLists(lib, ms, d);
    FlaggedDoNotCount(ms, d);
  }

  lemma FlagKeepsLists(lib: Library, ms: map<Digest, Manifest>, d: Digest)
    requires d in ms
    ensures RefLists(lib, ms[d := ms[d].(evicted := true)]) == RefLists(lib, ms)
  {
    hide ReferencedDigests, MapOf;
  }

  lemma FlaggedDoNotCount(ms: map<Digest, Manifest>, d: Digest)
    requires d in ms
    ensures Unevicted(ms[d := ms[d].(evicted := true)]) == Unevicted(ms - {d})
  {}

  /** A count is zero exactly when no manifest of the family mentions the digest. */
  lemma RefCountZero(lib: Library, ms: map<Digest, Manifest>, r: Digest)
    ensures RefCount(lib, ms, r) == 0 <==>
      forall d :: d in ms ==> r !in ReferencedDigests(lib, ms[d].content)
  {
    AllRefsMember(RefLists(lib, ms), r);
    var lists := RefLists(lib, ms);
    assert forall d :: d in ms ==> lists[d] == ReferencedDigests(lib, ms[d].content);
  }

  /** Counts stay exact when a manifest is dropped, and no subtraction saturates. */
  lemma DropKeepsRefsExact(lib: Library, ms: map<Digest, Manifest>, bk: map<Digest, BlobBk>, d: Digest)
    requires RefsExact(lib, ms, bk) && d in ms
    ensures var refs := ReferencedDigests(lib, ms[d].content);
      && RefsExact(lib, ms - {d}, DroppedBk(bk, ms[d].evicted, refs))
      && (forall r :: r in bk ==> multiset(refs)[r] <= bk[r].refs)
      && (!ms[d].evicted ==> forall r :: r in bk ==> multiset(refs)[r] <= bk[r].unevictedRefs)
  {
    hide RefCount, ReferencedDigests;
    forall r | r in bk
      ensures RefCount(lib, ms, r) == multiset(ReferencedDigests(lib, ms[d].content))[r] + RefCount(lib, ms - {d}, r)
      ensures RefCount(lib, Unevicted(ms), r) ==
        (if ms[d].evicted then 0 else multiset(ReferencedDigests(lib, ms[d].content))[r]) +
          RefCount(lib, Unevicted(ms - {d}), r)
    {
      RefCountTake(lib, ms, d, r);
      UnevictedTake(lib, ms, d, r);
    }
  }

  /** Counts stay exact when a manifest is flagged, also when it already was. */
  lemma FlagKeepsRefsExact(lib: Library, ms: map<Digest, Manifest>, bk: map<Digest, BlobBk>, d: Digest)
    requires RefsExact(lib, ms, bk) && d in ms
    ensures var refs := ReferencedDigests(lib, ms[d].content);
      && RefsExact(lib, ms[d := ms[d].(evicted := true)], SpilledBk(bk, ms[d].evicted, refs))
      && (!ms[d].evicted ==> forall r :: r in bk ==> multiset(refs)[r] <= bk[r].unevictedRefs)
  {
    hide RefCount, ReferencedDigests;
    forall r | r in bk
      ensures RefCount(lib, ms[d := ms[d].(evicted := true)], r) == RefCount(lib, ms, r)
      ensures RefCount(lib, Unevicted(ms), r) ==
        (if ms[d].evicted then 0 else multiset(ReferencedDigests(lib, ms[d].content))[r])
          + RefCount(lib, Unevicted(ms[d := ms[d].(evicted := true)]), r)
    {
      FlagKeepsRefCount(lib, ms, d, r);
      UnevictedTake(lib, ms, d, r);
    }
  }

  lemma DroppedBkStable(s0: Store, bk: map<Digest, BlobBk>, evicted: bool, refs: seq<Digest>)
    requires BkStable(s0, bk)
    ensures BkStable(s0, DroppedBk(bk, evicted, refs)) && BkStable(s0, SpilledBk(bk, evicted, refs))
  {}

  // ---- Accumulators

  lemma RecomputedNonNegative(s: Store)
    ensures ZERO.AtMost(s.Recomputed())
  {
    BucketsAreSeparate(s);
    hide Total, OnlyRedis, OnlyBlobs, OnlyManifests, ManifestCharges, BlobCharges, RedisCharges;
  }

  lemma SumNonNegative(u: Usage, v: Usage)
    requires ZERO.AtMost(u) && ZERO.AtMost(v)
    ensures ZERO.AtMost(u.Plus(v))
  {}

  lemma KeySlackNonNegative(s0: Store, s: Store)
    ensures ZERO.AtMost(KeySlack(s0, s))
    ensures KeySlack(s0, s) == In(SmallRedisMemory, KeySlack(s0, s).smallRedisMemory)
  {
    TotalKeeps(KeyCharges(s0.redis.Keys - s.redis.Keys),
               u => ZERO.AtMost(u) && u == In(SmallRedisMemory, u.smallRedisMemory));
  }

  lemma AccIsSum(s0: Store, s: Store, acc: Usage)
    ensures AccExact(s0, s, acc) <==> acc == s.Recomputed().Plus(KeySlack(s0, s))
  {
    hide Store.Recomputed, KeySlack;
    KeySlackNonNegative(s0, s);
  }

  /** What is still in the maps after taking `u` out was not all of it. */
  lemma NothingSaturates(acc: Usage, before: Usage, after: Usage, slack: Usage, u: Usage)
    requires acc == before.Plus(slack) && ZERO.AtMost(slack)
    requires after == before.Minus(u) && ZERO.AtMost(after)
    ensures acc.Saturating(u) == after.Plus(slack)
  {}

  lemma AccAfter(s0: Store, s: Store, s': Store, acc: Usage, u: Usage)
    requires AccExact(s0, s, acc) && s'.Recomputed() == s.Recomputed().Minus(u) && s'.redis == s.redis
    ensures AccExact(s0, s', acc.Saturating(u))
  {
    hide Store.Recomputed, AccExact, Usage.Plus, Usage.Minus, Usage.Saturating, Usage.AtMost;
    AccIsSum(s0, s, acc);
    AccIsSum(s0, s', acc.Saturating(u));
    RecomputedNonNegative(s');
    KeySlackNonNegative(s0, s);
    NothingSaturates(acc, s.Recomputed(), s'.Recomputed(), KeySlack(s0, s), u);
    assert KeySlack(s0, s') == KeySlack(s0, s);
  }

  // ---- Dropping a manifest

  lemma DropManifestAcc(lib: Library, s0: Store, m: Machine, d: Digest)
    requires AccExact(s0, m.s, m.acc)
    ensures AccExact(s0, DropManifest(lib, m, d).s, DropManifest(lib, m, d).acc)
  {
    if d in m.s.manifests {
      var s1, m' := UntagManifest(m.s, d), DropManifest(lib, m, d);
      var refs := ReferencedDigests(lib, m.s.manifests[d].content);
      var w := ToDelete(m.s, DroppedBk(m.bk, m.s.manifests[d].evicted, refs), refs);
      UntagManifestRecomputed(m.s, d);
      DeleteBlobsRecomputed(s1, w);
      assert BlobTotal(m.s, w) == BlobTotal(s1, w);
      assert m'.s == DeleteBlobs(s1, w);
      var u := ManifestCharge(m.s.manifests[d]);
      assert m'.acc == m.acc.Saturating(u).Saturating(BlobTotal(s1, w));
      assert s1.redis == m.s.redis && m'.s.redis == s1.redis;
      hide BlobTotal, AccExact, ManifestCharge, DropManifest, DeleteBlobs, UntagManifest, Store.Recomputed, ToDelete;
      AccAfter(s0, m.s, s1, m.acc, u);
      AccAfter(s0, s1, m'.s, m.acc.Saturating(u), BlobTotal(s1, w));
    }
  }

  lemma DropManifestStore(lib: Library, s0: Store, m: Machine, d: Digest)
    requires m.s.Owned() && Evolved(s0, m.s)
    ensures DropManifest(lib, m, d).s.Owned() && Evolved(s0, DropManifest(lib, m, d).s)
  {
    if d in m.s.manifests {
      var s1, m' := UntagManifest(m.s, d), DropManifest(lib, m, d);
      var refs := ReferencedDigests(lib, m.s.manifests[d].content);
      var w := ToDelete(m.s, DroppedBk(m.bk, m.s.manifests[d].evicted, refs), refs);
      assert m'.s == DeleteBlobs(s1, w);
      hide DropManifest, DeleteBlobs, UntagManifest, Store.Owned, Evolved, ToDelete;
      UntagManifestKeepsOwnership(m.s, d);
      UntagManifestEvolves(m.s, d);
      DeleteBlobsKeepsOwnership(s1, w);
      DeleteBlobsEvolves(s1, w);
      EvolvedTransitive(s0, m.s, s1);
      EvolvedTransitive(s0, s1, m'.s);
    }
  }

  lemma DropManifestShape(lib: Library, m: Machine, d: Digest)
    requires d in m.s.manifests
    ensures var m', man := DropManifest(lib, m, d), m.s.manifests[d];
      var refs := ReferencedDigests(lib, man.content);
      && m'.bk == DroppedBk(m.bk, man.evicted, refs)
      && m'.s.manifests == m.s.manifests - {d}
      && m'.s.blobs == m.s.blobs - ToDelete(m.s, m'.bk, refs)
  {
    hide BlobTotal, DropRefs, DropUnevicted, ToDelete, ManifestCharge;
  }

  lemma DeletedAfterDrop(lib: Library, s0: Store, s: Store, s': Store, d: Digest, w: set<Digest>)
    requires DeletedRightly(lib, s0, s) && d in s.manifests
    requires s'.manifests == s.manifests - {d} && s'.blobs == s.blobs - w
    requires forall r :: r in w && r in s0.blobs ==>
      RefCount(lib, s'.manifests, r) == 0 && CascadeExpired(s0.now, s0.blobs[r].lastAccessed)
    ensures DeletedRightly(lib, s0, s')
  {
    hide RefCount, CascadeExpired;
    forall r | r in s0.blobs && r !in s'.blobs
      ensures RefCount(lib, s'.manifests, r) == 0 && CascadeExpired(s0.now, s0.blobs[r].lastAccessed)
    {
      RefCountTake(lib, s.manifests, d, r);
    }
  }

  lemma DropManifestDeletes(lib: Library, s0: Store, m: Machine, d: Digest)
    requires BkStable(s0, m.bk) && RefsExact(lib, m.s.manifests, m.bk)
    requires DeletedRightly(lib, s0, m.s) && m.s.now == s0.now
    ensures DeletedRightly(lib, s0, DropManifest(lib, m, d).s)
  {
    if d in m.s.manifests {
      var m' := DropManifest(lib, m, d);
      var w := ToDelete(m.s, m'.bk, ReferencedDigests(lib, m.s.manifests[d].content));
      DropManifestShape(lib, m, d);
      DropManifestBk(lib, s0, m, d);
      hide DropManifest, DroppedBk, RefCount, CascadeExpired, DeletedRightly;
      forall r | r in w && r in s0.blobs
        ensures RefCount(lib, m'.s.manifests, r) == 0 && CascadeExpired(s0.now, s0.blobs[r].lastAccessed) {}
      DeletedAfterDrop(lib, s0, m.s, m'.s, d, w);
    }
  }

  lemma DropManifestBk(lib: Library, s0: Store, m: Machine, d: Digest)
    requires BkStable(s0, m.bk) && RefsExact(lib, m.s.manifests, m.bk)
    ensures BkStable(s0, DropManifest(lib, m, d).bk)
    ensures RefsExact(lib, DropManifest(lib, m, d).s.manifests, DropManifest(lib, m, d).bk)
  {
    if d in m.s.manifests {
      var man := m.s.manifests[d];
      DropManifestShape(lib, m, d);
      hide DropManifest, DroppedBk, BkStable, RefsExact, ToDelete;
      DropKeepsRefsExact(lib, m.s.manifests, m.bk, d);
      DroppedBkStable(s0, m.bk, man.evicted, ReferencedDigests(lib, man.content));
    }
  }

  lemma DropManifestCore(lib: Library, s0: Store, m: Machine, d: Digest)
    requires Core(lib, s0, m)
    ensures Core(lib, s0, DropManifest(lib, m, d))
  {
    hide DropManifest, Store.Owned, BkStable, RefsExact, DeletedRightly, AccExact;
    DropManifestStore(lib, s0, m, d);
    assert m.s.now == s0.now;
    hide Evolved;
    DropManifestAcc(lib, s0, m, d);
    DropManifestDeletes(lib, s0, m, d);
    DropManifestBk(lib, s0, m, d);
  }

  // ---- Spilling a manifest

  lemma TiersMatch(s0: Store, m: Machine)
    requires BkStable(s0, m.bk) && BlobsEvolved(s0, m.s)
    ensures LargeTierMatches(m)
  {
    hide Store.BlobBytes;
  }

  lemma MoveIsExact(acc: Usage, before: Usage, after: Usage, slack: Usage, n: nat)
    requires acc == before.Plus(slack) && ZERO.AtMost(slack)
    requires after == before.Minus(In(LargeBlobMemory, n)).Plus(In(BlobDisk, n)) && ZERO.AtMost(after)
    ensures Moved(acc, n) == after.Plus(slack)
  {}

  lemma SpillBlobsAcc(s0: Store, s: Store, w: set<Digest>, acc: Usage)
    requires s.DistinctIds() && AllLargeInMemory(s, w) && AccExact(s0, s, acc)
    ensures AccExact(s0, SpillBlobs(s, w), Moved(acc, BlobTotal(s, w).largeBlobMemory))
  {
    hide Store.Recomputed, BlobTotal, Moved, Usage.Plus, Usage.Minus, Usage.AtMost, AccExact, SpillIn, SpillFiles;
    hide In;
    var s', n := SpillBlobs(s, w), BlobTotal(s, w).largeBlobMemory;
    SpillBlobsRecomputed(s, w);
    AccIsSum(s0, s, acc);
    AccIsSum(s0, s', Moved(acc, n));
    RecomputedNonNegative(s');
    KeySlackNonNegative(s0, s);
    KeySlackSame(s0, s, s');
    MoveIsExact(acc, s.Recomputed(), s'.Recomputed(), KeySlack(s0, s), n);
  }

  lemma FlagAcc(s0: Store, s: Store, d: Digest, acc: Usage)
    requires AccExact(s0, s, acc) && d in s.manifests
    ensures AccExact(s0, FlagManifest(s, d), acc)
  {
    FlagManifestRecomputed(s, d);
    hide Store.Recomputed;
  }

  /** Flag `d` and move the blobs `w`: what `SpillManifest` does to the store. */
  ghost function FlagAndSpill(s: Store, d: Digest, w: set<Digest>): Store
    requires d in s.manifests && s.DistinctIds() && AllLargeInMemory(s, w)
  {
    SpillBlobs(FlagManifest(s, d), w)
  }

  lemma FlagAndSpillStore(s0: Store, s: Store, d: Digest, w: set<Digest>)
    requires d in s.manifests && s.Owned() && AllLargeInMemory(s, w) && Evolved(s0, s)
    ensures FlagAndSpill(s, d, w).Owned() && Evolved(s0, FlagAndSpill(s, d, w))
  {
    var s1 := FlagManifest(s, d);
    FlagManifestKeepsOwnership(s, d);
    assert AllLargeInMemory(s1, w);
    hide SpillBlobs, FlagManifest, AllLargeInMemory, Evolved, Store.Owned;
    FlagManifestEvolves(s, d);
    SpillBlobsKeepsOwnership(s1, w);
    SpillBlobsEvolves(s1, w);
    EvolvedTransitive(s0, s, s1);
    EvolvedTransitive(s0, s1, FlagAndSpill(s, d, w));
  }

  lemma FlagAndSpillAcc(s0: Store, s: Store, d: Digest, w: set<Digest>, acc: Usage)
    requires d in s.manifests && s.DistinctIds() && AllLargeInMemory(s, w) && AccExact(s0, s, acc)
    ensures AccExact(s0, FlagAndSpill(s, d, w), Moved(acc, BlobTotal(FlagManifest(s, d), w).largeBlobMemory))
  {
    hide SpillBlobs, AccExact, Moved, BlobTotal, IsLargeInMemory;
    var s1 := FlagManifest(s, d);
    assert s1.DistinctIds() && AllLargeInMemory(s1, w);
    hide FlagManifest, Store.DistinctIds, AllLargeInMemory;
    FlagAcc(s0, s, d, acc);
    SpillBlobsAcc(s0, s1, w, acc);
  }

  lemma FlaggedDeletes(lib: Library, s0: Store, s: Store, s': Store, d: Digest)
    requires DeletedRightly(lib, s0, s) && d in s.manifests && s'.blobs.Keys == s.blobs.Keys
    requires s'.manifests == s.manifests[d := s.manifests[d].(evicted := true)]
    ensures DeletedRightly(lib, s0, s')
  {
    hide RefCount, CascadeExpired;
    forall r | r in s0.blobs && r !in s'.blobs ensures RefCount(lib, s'.manifests, r) == 0 {
      FlagKeepsRefCount(lib, s.manifests, d, r);
    }
  }

  lemma SpillManifestCore(lib: Library, s0: Store, m: Machine, c: Candidate)
    requires Core(lib, s0, m) && c.ManifestCandidate? && LargeTierMatches(m)
    ensures Core(lib, s0, SpillManifest(lib, m, c))
  {
    var d := c.digest;
    if d in m.s.manifests {
      var man, m' := m.s.manifests[d], SpillManifest(lib, m, c);
      var refs := ReferencedDigests(lib, man.content);
      var bk := SpilledBk(m.bk, man.evicted, refs);
      var w := ToSpill(m.s, bk, refs);
      assert m.s.DistinctIds();
      ToSpillIsLarge(m, man.evicted, refs);
      hide AllLargeInMemory, Store.Owned, Store.DistinctIds, Evolved, AccExact, DeletedRightly, SpilledBk, ToSpill;
      hide RefsExact, BkStable, LargeTierMatches, Moved, BlobTotal, SpillFiles, SpillIn;
      assert m'.s == FlagAndSpill(m.s, d, w) && m'.bk == bk;
      assert m'.acc == Moved(m.acc, BlobTotal(FlagManifest(m.s, d), w).largeBlobMemory);
      assert m'.s.manifests == m.s.manifests[d := man.(evicted := true)];
      assert m'.s.blobs.Keys == m.s.blobs.Keys by { SpillInKeys(m.s.blobs, w); }
      hide SpillManifest, FlagAndSpill, FlagManifest;
      FlagAndSpillStore(s0, m.s, d, w);
      FlagAndSpillAcc(s0, m.s, d, w, m.acc);
      FlaggedDeletes(lib, s0, m.s, m'.s, d);
      FlagKeepsRefsExact(lib, m.s.manifests, m.bk, d);
      DroppedBkStable(s0, m.bk, man.evicted, refs);
    }
  }

  lemma SpillInKeys(bs: map<Digest, Blob>, w: set<Digest>)
    ensures SpillIn(bs, w).Keys == bs.Keys
  {}

  // ---- Redis entries

  lemma KeySlackGrows(s0: Store, s: Store, k: Bytes)
    requires k in s.redis && k in s0.redis
    ensures KeySlack(s0, s.RemoveRedis(k)) == KeySlack(s0, s).Plus(KeyCharge(k))
  {
    hide KeyCharge, RedisCharge;
    var before, after :=
      KeyCharges(s0.redis.Keys - s.redis.Keys), KeyCharges(s0.redis.Keys - s.RemoveRedis(k).redis.Keys);
    assert after == before[k := KeyCharge(k)];
    TotalPut(before, k, KeyCharge(k));
  }

  /** Dropping an entry takes its value off the accumulator; its key moves to the slack. */
  lemma DropRedisAlgebra(acc: Usage, before: Usage, after: Usage, slack: Usage, key: Usage, value: Usage)
    requires acc == before.Plus(slack) && ZERO.AtMost(slack) && ZERO.AtMost(key)
    requires after == before.Minus(key.Plus(value)) && ZERO.AtMost(after)
    ensures acc.Saturating(value) == after.Plus(slack.Plus(key))
  {}

  lemma DropRedisAcc(s0: Store, m: Machine, k: Bytes, u: Usage)
    requires AccExact(s0, m.s, m.acc) && (k in m.s.redis ==> k in s0.redis && u == ValueCharge(m.s.redis[k]))
    ensures AccExact(s0, DropRedis(m, k, u).s, DropRedis(m, k, u).acc)
  {
    if k in m.s.redis {
      var s' := m.s.RemoveRedis(k);
      assert ZERO.AtMost(KeyCharge(k));
      hide Store.Recomputed, KeySlack, KeyCharge, ValueCharge, Usage.Plus, Usage.Minus, Usage.Saturating;
      hide Store.RemoveRedis, AccExact, Usage.AtMost;
      AccIsSum(s0, m.s, m.acc);
      AccIsSum(s0, s', m.acc.Saturating(u));
      RemoveRedisRecomputed(m.s, k);
      RecomputedNonNegative(s');
      KeySlackNonNegative(s0, m.s);
      KeySlackGrows(s0, m.s, k);
      DropRedisAlgebra(m.acc, m.s.Recomputed(), s'.Recomputed(), KeySlack(s0, m.s), KeyCharge(k), u);
    }
  }

  lemma SameManifestsAndBlobs(lib: Library, s0: Store, s: Store, s': Store)
    requires DeletedRightly(lib, s0, s) && s'.manifests == s.manifests && s'.blobs == s.blobs
    ensures DeletedRightly(lib, s0, s')
  {
    hide RefCount, CascadeExpired;
  }

  lemma DropRedisCore(lib: Library, s0: Store, m: Machine, k: Bytes, u: Usage)
    requires Core(lib, s0, m)
    requires k in m.s.redis ==> u == ValueCharge(m.s.redis[k])
    ensures Core(lib, s0, DropRedis(m, k, u))
  {
    if k in m.s.redis {
      var s' := m.s.RemoveRedis(k);
      assert k in s0.redis;
      hide Evolved, Store.Owned, AccExact, ValueCharge, DeletedRightly, RefsExact, BkStable, RedisCharge;
      assert s'.manifests == m.s.manifests && s'.blobs == m.s.blobs;
      hide Store.RemoveRedis;
      DropRedisAcc(s0, m, k, u);
      SameManifestsAndBlobs(lib, s0, m.s, s');
      RemoveRedisKeepsOwnership(m.s, k);
      RemoveRedisEvolves(m.s, k);
      EvolvedTransitive(s0, m.s, s');
    }
  }

  lemma SpillValueAlgebra(acc: Usage, before: Usage, after: Usage, slack: Usage, n: nat)
    requires acc == before.Plus(slack) && ZERO.AtMost(slack)
    requires after == before.Minus(In(LargeRedisMemory, n)).Plus(In(RedisDisk, n)) && ZERO.AtMost(after)
    ensures acc.(largeRedisMemory := SaturatingSub(acc.largeRedisMemory, n), redisDisk := acc.redisDisk + n) ==
      after.Plus(slack)
  {}

  lemma KeySlackSame(s0: Store, s: Store, s': Store)
    requires s'.redis.Keys == s.redis.Keys
    ensures KeySlack(s0, s') == KeySlack(s0, s)
  {
  }

  lemma SpillValueAcc(s0: Store, s: Store, k: Bytes, acc: Usage)
    requires AccExact(s0, s, acc) && k in s.redis && IsLargeValue(s.redis[k])
    ensures var n := |s.redis[k].value|;
      AccExact(s0, SpillRedis(s, k, n, s.redis[k].lastAccessed),
               acc.(largeRedisMemory := SaturatingSub(acc.largeRedisMemory, n), redisDisk := acc.redisDisk + n))
  {
    var n := |s.redis[k].value|;
    var s' := SpillRedis(s, k, n, s.redis[k].lastAccessed);
    var acc' := acc.(largeRedisMemory := SaturatingSub(acc.largeRedisMemory, n), redisDisk := acc.redisDisk + n);
    assert s'.redis.Keys == s.redis.Keys;
    hide Store.Recomputed, KeySlack, SpillRedis, Usage.Plus, Usage.Minus, Usage.AtMost, In, SaturatingSub, AccExact;
    AccIsSum(s0, s, acc);
    AccIsSum(s0, s', acc');
    SpillRedisRecomputed(s, k);
    RecomputedNonNegative(s');
    KeySlackNonNegative(s0, s);
    KeySlackSame(s0, s, s');
    SpillValueAlgebra(acc, s.Recomputed(), s'.Recomputed(), KeySlack(s0, s), n);
  }

  /** A candidate of the large heap still describes the in-memory entry it stands for. */
  predicate MatchesLarge(c: Candidate, e: RedisEntry)
    requires c.RedisCandidate?
  {
    IsLargeValue(e) && c.size == |e.value| && c.lastAccessed == e.lastAccessed
  }

  lemma SpillRedisCore(lib: Library, s0: Store, m: Machine, c: Candidate)
    requires Core(lib, s0, m) && c.RedisCandidate?
    requires c.key in m.s.redis && m.s.redis[c.key].InMemory? ==> MatchesLarge(c, m.s.redis[c.key])
    ensures Core(lib, s0, SpillRedisCandidate(m, c))
  {
    hide Evolved, Store.Owned, AccExact, DeletedRightly, RefsExact, BkStable, SaturatingSub;
    if c.key in m.s.redis && m.s.redis[c.key].InMemory? {
      var s', m' := SpillRedis(m.s, c.key, c.size, c.lastAccessed), SpillRedisCandidate(m, c);
      var acc' := m.acc.(largeRedisMemory := SaturatingSub(m.acc.largeRedisMemory, c.size),
                         redisDisk := m.acc.redisDisk + c.size);
      assert s'.manifests == m.s.manifests && s'.blobs == m.s.blobs;
      assert m'.s == s' && m'.bk == m.bk && m'.acc == acc';
      assert AccExact(s0, s', acc') by {
        SpillValueAcc(s0, m.s, c.key, m.acc);
      }
      hide SpillRedis, SpillRedisCandidate;
      SameManifestsAndBlobs(lib, s0, m.s, s');
      SpillRedisKeepsOwnership(m.s, c.key, c.lastAccessed);
      SpillRedisEvolves(m.s, c.key);
      EvolvedTransitive(s0, m.s, s');
    }
  }
}
