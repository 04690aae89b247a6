/** The touch times a load publishes, against those a pass publishes for the same
    store. A load goes by the blobs' own touch times (src/snapshot.rs:393-443), a pass by
    those of the manifests that refer to them (src/eviction.rs:226-244). */
module GaugeAgreement {
  import opened Prelude
  import opened DigestText
  import opened UsageSums
  import opened References
  import opened Cache
  import opened EvictionMachine
  import opened EvictionHeaps
  import opened EvictionTheorems
  import opened EvictionPhases
  import opened EvictionGauges
  import opened EvictionWitnesses
  import opened EvictionGaugeWitnesses
  import CacheState

  /** Every touch time is short of the one that stands for an empty pool. */
  ghost predicate BeforeTheEnd(s: Store) {
    && (forall d :: d in s.manifests ==> s.manifests[d].lastUsed < CacheState.U64_MAX)
    && (forall r :: r in s.blobs ==> s.blobs[r].lastAccessed < CacheState.U64_MAX)
    && (forall k :: k in s.redis ==> s.redis[k].lastAccessed < CacheState.U64_MAX)
  }

  /** `t` is the oldest of `times`, or the clock when there are none. */
  predicate OldestOf(times: set<nat>, now: nat, t: nat) {
    if times == {} then t == now else t in times && forall x :: x in times ==> t <= x
  }

  lemma TouchIsOldest(times: set<nat>, now: nat, u: nat)
    requires CacheState.PublishedTouch(times, now, u) && forall x :: x in times ==> x < CacheState.U64_MAX
    ensures OldestOf(times, now, u)
  {
    if times != {} {
      var x :| x in times;
      assert x < CacheState.U64_MAX;
    }
  }

  /** A pass within all targets publishes what the store offered it. */
  lemma NoPopsNoChange(
      lib: Library, cfg: Config, s0: Store, events: seq<Event>, states: seq<Machine>, s1: Store)
    requires IsPass(lib, cfg, s0, events, states, s1) && WithinTargets(cfg, s0)
    ensures |states| == |events| + 1 && s1.now == s0.now
    ensures states[|events|].small == multiset(SmallCandidates(s0))
    ensures states[|events|].large == multiset(LargeCandidates(lib, s0))
    ensures states[|events|].disk == multiset(DiskCandidates(lib, s0))
  {
    NoPressureNoPops(lib, cfg, s0, events, states, s1);
    hide Store.Recomputed, InitialBk, SmallCandidates, LargeCandidates, DiskCandidates, BlobTotal, ToSweep, TraceStep;
    hide WithinTargets, Done;
  }

  ghost predicate WithinTargets(cfg: Config, s: Store) {
    var u := s.Recomputed();
    !cfg.OverSmall(u) && !cfg.OverMemory(u) && !cfg.OverDisk(u)
  }

  lemma PoolTimes(s: Store, times: set<nat>)
    requires BeforeTheEnd(s)
    requires times == CacheState.SmallTimes(s) || times == CacheState.LargeTimes(s) || times == CacheState.DiskTimes(s)
    ensures forall x :: x in times ==> x < CacheState.U64_MAX
  {}

  /** The times of the candidates of the small heap. */
  lemma CandidateTimes(s: Store, x: nat)
    ensures x in CacheState.SmallTimes(s) <==>
      x in CacheState.BlobTimes(s.blobs, SmallBlobMemory)
      || exists c :: c in SmallCandidates(s) && c.lastAccessed == x
  {
    if d :| d in s.manifests && s.manifests[d].lastUsed == x {
      assert CandidateOf(s, d) in SmallCandidates(s);
    }
    if k :| k in s.redis && RedisValueBucket(s.redis[k]).0 == SmallRedisMemory && s.redis[k].lastAccessed == x {
      assert RedisCandidateOf(s, k) in SmallCandidates(s);
    }
  }

  lemma PublishedIsLeast(cs: set<Candidate>, now: nat, t: nat)
    requires PublishedOldest(multiset(cs), now, t)
    ensures if cs == {} then t == now else exists c :: c in cs && c.lastAccessed == t
    ensures forall c :: c in cs ==> t <= c.lastAccessed
  {
    if cs != {} {
      var c :| c in cs;
      assert c in multiset(cs);
    }
    forall c | c in cs ensures t <= c.lastAccessed {
      OldestBelow(multiset(cs), now, t, c);
    }
  }

  /** What a load publishes for the small pool and what a pass without pressure publishes
      for it next are the same exactly if no small blob is older than what the pass
      publishes; and for a pool of blobs only, if the oldest is as new as the clock. */
  lemma {:induction false} SmallGaugesAgreeIff(
      lib: Library, cfg: Config, s0: Store, events: seq<Event>, states: seq<Machine>, s1: Store, t: nat, u: nat)
    requires IsPass(lib, cfg, s0, events, states, s1) && WithinTargets(cfg, s0) && BeforeTheEnd(s0)
    requires PublishedOldest(states[|events|].small, s1.now, t)
    requires CacheState.PublishedTouch(CacheState.SmallTimes(s0), s0.now, u)
    ensures var blobs := CacheState.BlobTimes(s0.blobs, SmallBlobMemory);
      t == u <==> if SmallCandidates(s0) == {} then OldestOf(blobs, s0.now, t) else forall x :: x in blobs ==> t <= x
  {
    hide IsPass, WithinTargets, BeforeTheEnd, CacheState.PublishedTouch, CacheState.SmallTimes, SmallCandidates;
    hide PublishedOldest, CacheState.BlobTimes;
    NoPopsNoChange(lib, cfg, s0, events, states, s1);
    var times, blobs := CacheState.SmallTimes(s0), CacheState.BlobTimes(s0.blobs, SmallBlobMemory);
    PoolTimes(s0, times);
    TouchIsOldest(times, s0.now, u);
    forall x ensures x in times <==> x in blobs || exists c :: c in SmallCandidates(s0) && c.lastAccessed == x {
      CandidateTimes(s0, x);
    }
    SmallPoolAgreesIff(SmallCandidates(s0), blobs, times, s0.now, t, u);
  }

  lemma SmallPoolAgreesIff(cs: set<Candidate>, blobs: set<nat>, times: set<nat>, now: nat, t: nat, u: nat)
    requires PublishedOldest(multiset(cs), now, t) && OldestOf(times, now, u)
    requires forall x :: x in times <==> x in blobs || exists c :: c in cs && c.lastAccessed == x
    ensures t == u <==> if cs == {} then OldestOf(blobs, now, t) else forall x :: x in blobs ==> t <= x
  {
    hide PublishedOldest;
    PublishedIsLeast(cs, now, t);
    if cs == {} {
      assert times == blobs;
    } else {
      var c :| c in cs && c.lastAccessed == t;
      assert t in times;
      assert u in times;
    }
  }

  /** What a pool of blobs and values offers a load and a pass: without blobs and values
      there are no candidates, and each value is a candidate with its own touch time. */
  ghost predicate Offers(cs: set<Candidate>, blobs: set<nat>, values: set<nat>) {
    && (blobs + values == {} ==> cs == {})
    && (forall x :: x in values ==> exists c :: c in cs && c.lastAccessed == x)
  }

  lemma LargeOffers(lib: Library, s: Store)
    ensures Offers(LargeCandidates(lib, s), CacheState.BlobTimes(s.blobs, LargeBlobMemory),
                   CacheState.RedisTimes(s.redis, LargeRedisMemory))
  {
    hide ReferencedDigests;
    forall k | k in s.redis && RedisValueBucket(s.redis[k]).0 == LargeRedisMemory
      ensures RedisCandidateOf(s, k) in LargeCandidates(lib, s)
      ensures s.redis[k].lastAccessed in CacheState.RedisTimes(s.redis, LargeRedisMemory)
    {}
    forall d | d in s.manifests && RefersToTier(lib, s, d, LargeMem)
      ensures exists r :: r in s.blobs && BlobBucket(s.blobs[r]).0 == LargeBlobMemory
    {
      var r := LargeBlobOf(lib, s, d);
    }
    BlobsHaveTimes(s, LargeBlobMemory);
  }

  lemma DiskOffers(lib: Library, s: Store)
    ensures Offers(DiskCandidates(lib, s), CacheState.BlobTimes(s.blobs, BlobDisk),
                   CacheState.RedisTimes(s.redis, RedisDisk))
  {
    hide ReferencedDigests;
    forall k | k in s.redis && RedisValueBucket(s.redis[k]).0 == RedisDisk
      ensures RedisCandidateOf(s, k) in DiskCandidates(lib, s)
      ensures s.redis[k].lastAccessed in CacheState.RedisTimes(s.redis, RedisDisk)
    {}
    forall d | d in s.manifests && RefersToTier(lib, s, d, Disk)
      ensures exists r :: r in s.blobs && BlobBucket(s.blobs[r]).0 == BlobDisk
    {
      var r :| r in ReferencedDigests(lib, s.manifests[d].content) && r in s.blobs && TierOf(s.blobs[r]) == Disk;
    }
    BlobsHaveTimes(s, BlobDisk);
  }

  lemma BlobsHaveTimes(s: Store, bucket: Bucket)
    ensures forall r :: r in s.blobs && BlobBucket(s.blobs[r]).0 == bucket ==>
      s.blobs[r].lastAccessed in CacheState.BlobTimes(s.blobs, bucket)
  {
    hide BlobBucket;
  }

  lemma PoolAgreesIff(cs: set<Candidate>, blobs: set<nat>, values: set<nat>, now: nat, t: nat, u: nat)
    requires PublishedOldest(multiset(cs), now, t) && OldestOf(blobs + values, now, u) && Offers(cs, blobs, values)
    ensures t == u <==> blobs + values == {} || (t in blobs + values && forall x :: x in blobs ==> t <= x)
  {
    hide PublishedOldest;
    PublishedIsLeast(cs, now, t);
    if blobs + values != {} && t in blobs + values && forall x :: x in blobs ==> t <= x {
      assert forall x :: x in blobs + values ==> t <= x;
    }
  }

  /** For the large and the disk pool the two are the same exactly if what the pass
      publishes is the touch time of a blob or value there and no blob is older; or the
      pool is empty. */
  lemma {:induction false} OtherGaugesAgreeIff(
      lib: Library, cfg: Config, s0: Store, events: seq<Event>, states: seq<Machine>, s1: Store,
      t: nat, u: nat, t': nat, u': nat)
    requires IsPass(lib, cfg, s0, events, states, s1) && WithinTargets(cfg, s0) && BeforeTheEnd(s0)
    requires PublishedOldest(states[|events|].large, s1.now, t) && PublishedOldest(states[|events|].disk, s1.now, t')
    requires CacheState.PublishedTouch(CacheState.LargeTimes(s0), s0.now, u)
    requires CacheState.PublishedTouch(CacheState.DiskTimes(s0), s0.now, u')
    ensures var blobs := CacheState.BlobTimes(s0.blobs, LargeBlobMemory);
      var pool := blobs + CacheState.RedisTimes(s0.redis, LargeRedisMemory);
      t == u <==> pool == {} || (t in pool && forall x :: x in blobs ==> t <= x)
    ensures var blobs := CacheState.BlobTimes(s0.blobs, BlobDisk);
      var pool := blobs + CacheState.RedisTimes(s0.redis, RedisDisk);
      t' == u' <==> pool == {} || (t' in pool && forall x :: x in blobs ==> t' <= x)
  {
    hide IsPass, WithinTargets, BeforeTheEnd, CacheState.PublishedTouch, PublishedOldest, OldestOf, Offers;
    hide LargeCandidates, DiskCandidates, CacheState.BlobTimes, CacheState.RedisTimes;
    NoPopsNoChange(lib, cfg, s0, events, states, s1);
    LargeOffers(lib, s0);
    DiskOffers(lib, s0);
    PoolTimes(s0, CacheState.LargeTimes(s0));
    TouchIsOldest(CacheState.LargeTimes(s0), s0.now, u);
    PoolAgreesIff(LargeCandidates(lib, s0), CacheState.BlobTimes(s0.blobs, LargeBlobMemory),
                  CacheState.RedisTimes(s0.redis, LargeRedisMemory), s0.now, t, u);
    PoolTimes(s0, CacheState.DiskTimes(s0));
    TouchIsOldest(CacheState.DiskTimes(s0), s0.now, u');
    PoolAgreesIff(DiskCandidates(lib, s0), CacheState.BlobTimes(s0.blobs, BlobDisk),
                  CacheState.RedisTimes(s0.redis, RedisDisk), s0.now, t', u');
  }

  // ---- They can differ

  /** Room for everything. */
  const WIDE: Config := Config(4000, Some(4000), 4000)

  lemma LoneIsWithin()
    ensures WithinTargets(WIDE, LONE) && BeforeTheEnd(LONE)
  {
    LoneUsage();
    hide Store.Recomputed;
  }

  lemma LoneTimes()
    ensures LargeCandidates(LIB, LONE) == {ManifestCandidate(7, MANIFEST)}
    ensures CacheState.BlobTimes(LONE.blobs, LargeBlobMemory) == {100}
    ensures CacheState.RedisTimes(LONE.redis, LargeRedisMemory) == {}
  {
    BodiesReferToBlob([1]);
    hide ReferencedDigests;
    assert TierOf(LONE.blobs[BLOB]) == LargeMem;
    assert RefersToTier(LIB, LONE, MANIFEST, LargeMem);
    assert CandidateOf(LONE, MANIFEST) == ManifestCandidate(7, MANIFEST);
    assert BlobBucket(LONE.blobs[BLOB]).0 == LargeBlobMemory && LONE.blobs[BLOB].lastAccessed == 100;
    assert LONE.manifests.Keys == {MANIFEST} && LONE.blobs.Keys == {BLOB};
  }

  /** Of a manifest last used at 7 and its large blob last used at 100, a load publishes
      100 and the next pass 7. */
  lemma {:induction false} TwoTimesForOneStore(events: seq<Event>, states: seq<Machine>, s1: Store, t: nat, u: nat)
    requires IsPass(LIB, WIDE, LONE, events, states, s1) && PublishedOldest(states[|events|].large, s1.now, t)
    requires CacheState.PublishedTouch(CacheState.LargeTimes(LONE), LONE.now, u)
    ensures t == 7 && u == 100
  {
    hide IsPass, LargeCandidates, CacheState.BlobTimes, CacheState.RedisTimes, PublishedOldest, WithinTargets;
    LoneIsWithin();
    LoneTimes();
    NoPopsNoChange(LIB, WIDE, LONE, events, states, s1);
    PublishedIsLeast(LargeCandidates(LIB, LONE), LONE.now, t);
    TouchIsOldest(CacheState.LargeTimes(LONE), LONE.now, u);
  }
}
