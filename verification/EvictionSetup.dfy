/** What the candidate-building loops of a pass (src/eviction.rs:180-289) add up to. */
module EvictionSetup {
  import opened Prelude
  import opened DigestText
  import opened UsageSums
  import opened References
  import opened Cache
  import opened CacheState
  import opened EvictionMachine
  import opened EvictionInvariant

  /** The bookkeeping with the references of the manifests `ms` counted. */
  ghost predicate BkCounts(lib: Library, blobs: map<Digest, Blob>, ms: map<Digest, Manifest>, bk: map<Digest, BlobBk>) {
    && bk.Keys == blobs.Keys
    && forall r :: r in bk ==>
         bk[r] == BlobBk(TierOf(blobs[r]), RefCount(lib, ms, r), RefCount(lib, Unevicted(ms), r), blobs[r].lastAccessed)
  }

  /** `refs` counted once more, on both levels unless the manifest is evicted. */
  ghost predicate Counted(bk: map<Digest, BlobBk>, evicted: bool, refs: seq<Digest>, bk': map<Digest, BlobBk>) {
    && bk'.Keys == bk.Keys
    && forall r :: r in bk ==>
         bk'[r] == bk[r].(refs := bk[r].refs + multiset(refs)[r],
                          unevictedRefs := bk[r].unevictedRefs + (if evicted then 0 else multiset(refs)[r]))
  }

  predicate HoldsTier(bk: map<Digest, BlobBk>, refs: seq<Digest>, tier: BlobTier) {
    exists i :: 0 <= i < |refs| && refs[i] in bk && bk[refs[i]].tier == tier
  }

  lemma NoRefs(lib: Library, r: Digest)
    ensures RefCount(lib, map[], r) == 0 && Unevicted(map[]) == map[]
  {
    hide MapOf;
    assert RefLists(lib, map[]) == map[];
  }

  lemma BkCountsGrow(lib: Library, blobs: map<Digest, Blob>, ms: map<Digest, Manifest>, seen: set<Digest>, d: Digest,
                     bk: map<Digest, BlobBk>, bk': map<Digest, BlobBk>)
    requires d in ms && d !in seen
    requires BkCounts(lib, blobs, Restrict(ms, seen), bk)
    requires Counted(bk, ms[d].evicted, ReferencedDigests(lib, ms[d].content), bk')
    ensures BkCounts(lib, blobs, Restrict(ms, seen + {d}), bk')
  {
    hide RefCount, ReferencedDigests, Unevicted;
    var ms' := Restrict(ms, seen + {d});
    RestrictKeys(ms, seen + {d}, d);
    assert ms' - {d} == Restrict(ms, seen);
    hide Restrict;
    forall r | r in bk
      ensures RefCount(lib, ms', r) ==
        multiset(ReferencedDigests(lib, ms[d].content))[r] + RefCount(lib, Restrict(ms, seen), r)
      ensures RefCount(lib, Unevicted(ms'), r) ==
        (if ms[d].evicted then 0 else multiset(ReferencedDigests(lib, ms[d].content))[r])
          + RefCount(lib, Unevicted(Restrict(ms, seen)), r)
    {
      RefCountTake(lib, ms', d, r);
      UnevictedTake(lib, ms', d, r);
    }
  }

  /** The tier test over the bookkeeping is the one over the store. */
  lemma HoldsTierIsRefersTo(
      lib: Library, s: Store, d: Digest, ms: map<Digest, Manifest>, bk: map<Digest, BlobBk>, tier: BlobTier)
    requires d in s.manifests && BkCounts(lib, s.blobs, ms, bk)
    ensures HoldsTier(bk, ReferencedDigests(lib, s.manifests[d].content), tier) <==> RefersToTier(lib, s, d, tier)
  {
    hide RefCount, ReferencedDigests;
    var refs := ReferencedDigests(lib, s.manifests[d].content);
    if RefersToTier(lib, s, d, tier) {
      var r :| r in refs && r in s.blobs && TierOf(s.blobs[r]) == tier;
      var i :| 0 <= i < |refs| && refs[i] == r;
      assert refs[i] in bk && bk[refs[i]].tier == tier;
    }
  }

  // ---- Candidate sets

  ghost function ManifestCandidates(s: Store, ds: set<Digest>): set<Candidate> {
    set d | d in ds && d in s.manifests :: CandidateOf(s, d)
  }

  ghost function TierHolders(lib: Library, s: Store, ds: set<Digest>, tier: BlobTier): set<Digest> {
    set d | d in ds && d in s.manifests && RefersToTier(lib, s, d, tier)
  }

  ghost function RedisCandidates(s: Store, ks: set<Bytes>, bucket: Bucket): set<Candidate> {
    set k | k in ks && k in s.redis && RedisValueBucket(s.redis[k]).0 == bucket :: RedisCandidateOf(s, k)
  }

  lemma MultisetAdd<T>(a: set<T>, x: T)
    requires x !in a
    ensures multiset(a + {x}) == multiset(a) + multiset{x}
  {}

  lemma MultisetUnion<T>(a: set<T>, b: set<T>)
    requires a !! b
    ensures multiset(a + b) == multiset(a) + multiset(b)
  {}

  lemma ManifestCandidatesGrow(s: Store, ds: set<Digest>, d: Digest)
    requires d in s.manifests && d !in ds
    ensures multiset(ManifestCandidates(s, ds + {d})) ==
      multiset(ManifestCandidates(s, ds)) + multiset{CandidateOf(s, d)}
  {
    assert ManifestCandidates(s, ds + {d}) == ManifestCandidates(s, ds) + {CandidateOf(s, d)};
    MultisetAdd(ManifestCandidates(s, ds), CandidateOf(s, d));
  }

  lemma TierHoldersGrow(lib: Library, s: Store, ds: set<Digest>, d: Digest, tier: BlobTier)
    requires d in s.manifests && d !in ds
    ensures d !in TierHolders(lib, s, ds, tier)
    ensures TierHolders(lib, s, ds + {d}, tier) ==
      if RefersToTier(lib, s, d, tier) then TierHolders(lib, s, ds, tier) + {d} else TierHolders(lib, s, ds, tier)
  {
    hide RefersToTier;
  }

  lemma RedisCandidatesGrow(s: Store, ks: set<Bytes>, k: Bytes, bucket: Bucket)
    requires k in s.redis && k !in ks
    ensures multiset(RedisCandidates(s, ks + {k}, bucket)) ==
      if RedisValueBucket(s.redis[k]).0 == bucket
      then multiset(RedisCandidates(s, ks, bucket)) + multiset{RedisCandidateOf(s, k)}
      else multiset(RedisCandidates(s, ks, bucket))
  {
    hide RedisValueBucket;
    if RedisValueBucket(s.redis[k]).0 == bucket {
      assert RedisCandidates(s, ks + {k}, bucket) == RedisCandidates(s, ks, bucket) + {RedisCandidateOf(s, k)};
      assert RedisCandidateOf(s, k) !in RedisCandidates(s, ks, bucket);
      MultisetAdd(RedisCandidates(s, ks, bucket), RedisCandidateOf(s, k));
    } else {
      assert RedisCandidates(s, ks + {k}, bucket) == RedisCandidates(s, ks, bucket);
    }
  }

  /** The heap of `bucket` gains the candidate of `k` iff its value is in that bucket. */
  ghost predicate CandidateAdded(
      s: Store, k: Bytes, bucket: Bucket, before: multiset<Candidate>, after: multiset<Candidate>)
    requires k in s.redis
  {
    after == if RedisValueBucket(s.redis[k]).0 == bucket then before + multiset{RedisCandidateOf(s, k)} else before
  }

  lemma HeapGrows(s: Store, ks: set<Bytes>, k: Bytes, bucket: Bucket, base: multiset<Candidate>,
                  before: multiset<Candidate>, after: multiset<Candidate>)
    requires k in s.redis && k !in ks
    requires before == base + multiset(RedisCandidates(s, ks, bucket)) && CandidateAdded(s, k, bucket, before, after)
    ensures after == base + multiset(RedisCandidates(s, ks + {k}, bucket))
  {
    hide RedisCandidates, RedisValueBucket;
    RedisCandidatesGrow(s, ks, k, bucket);
  }

  lemma CandidatesComplete(lib: Library, s: Store)
    ensures multiset(SmallCandidates(s)) ==
      multiset(ManifestCandidates(s, s.manifests.Keys)) + multiset(RedisCandidates(s, s.redis.Keys, SmallRedisMemory))
    ensures multiset(LargeCandidates(lib, s)) ==
      multiset(ManifestCandidates(s, TierHolders(lib, s, s.manifests.Keys, LargeMem)))
      + multiset(RedisCandidates(s, s.redis.Keys, LargeRedisMemory))
    ensures multiset(DiskCandidates(lib, s)) ==
      multiset(ManifestCandidates(s, TierHolders(lib, s, s.manifests.Keys, Disk)))
      + multiset(RedisCandidates(s, s.redis.Keys, RedisDisk))
  {
    hide RefersToTier, RedisValueBucket;
    CandidatesOfHeap(s, s.manifests.Keys, SmallRedisMemory);
    CandidatesOfHeap(s, TierHolders(lib, s, s.manifests.Keys, LargeMem), LargeRedisMemory);
    CandidatesOfHeap(s, TierHolders(lib, s, s.manifests.Keys, Disk), RedisDisk);
    assert SmallCandidates(s) ==
      ManifestCandidates(s, s.manifests.Keys) + RedisCandidates(s, s.redis.Keys, SmallRedisMemory);
    assert LargeCandidates(lib, s) ==
      ManifestCandidates(s, TierHolders(lib, s, s.manifests.Keys, LargeMem)) +
        RedisCandidates(s, s.redis.Keys, LargeRedisMemory);
    assert DiskCandidates(lib, s) ==
      ManifestCandidates(s, TierHolders(lib, s, s.manifests.Keys, Disk)) + RedisCandidates(s, s.redis.Keys, RedisDisk);
  }

  lemma CandidatesOfHeap(s: Store, ds: set<Digest>, bucket: Bucket)
    ensures multiset(ManifestCandidates(s, ds) + RedisCandidates(s, s.redis.Keys, bucket)) ==
      multiset(ManifestCandidates(s, ds)) + multiset(RedisCandidates(s, s.redis.Keys, bucket))
  {
    hide RedisValueBucket;
    MultisetUnion(ManifestCandidates(s, ds), RedisCandidates(s, s.redis.Keys, bucket));
  }
}
