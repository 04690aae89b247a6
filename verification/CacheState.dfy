/** The shared cache state (src/state.rs) as an object whose methods update its
    maps and counters in place. `View` is the value it stands for. */
module CacheState {
  import opened Prelude
  import opened DigestText
  import opened UsageSums
  import opened References
  import opened Cache

  class State {
    const lib: Library
    const config: Config

    var manifests: map<Digest, Manifest>
    var blobs: map<Digest, Blob>
    var redisEntries: map<Bytes, RedisEntry>
    var tags: map<TagKey, Digest>
    var uploads: map<nat, Upload>
    var disk: map<nat, Bytes>
    /** Files named by spawned `remove_file` tasks that have not run yet. */
    var unlinks: set<nat>
    var nextId: nat
    var now: nat

    var manifestMemoryUsage: int
    var smallBlobMemoryUsage: int
    var largeBlobMemoryUsage: int
    var smallRedisMemoryUsage: int
    var largeRedisMemoryUsage: int
    var blobDiskUsage: int
    var redisDiskUsage: int

    /** Gauges for the oldest touch time of each pool; not part of `View`. */
    var oldestSmallMemoryTouchTime: nat
    var oldestLargeMemoryTouchTime: nat
    var oldestDiskTouchTime: nat

    ghost function Counters(): Usage
      reads this
    {
      Usage(manifestMemoryUsage, smallBlobMemoryUsage, largeBlobMemoryUsage, smallRedisMemoryUsage,
            largeRedisMemoryUsage, blobDiskUsage, redisDiskUsage)
    }

    ghost function View(): Store
      reads this
    {
      Store(manifests, blobs, redisEntries, tags, uploads, disk, unlinks, nextId, now, Counters())
    }

    /** Each gauge is the oldest touch time among the live items of its pool. */
    ghost predicate GaugesAreExact()
      reads this
    {
      && PublishedTouch(SmallTimes(View()), now, oldestSmallMemoryTouchTime)
      && PublishedTouch(LargeTimes(View()), now, oldestLargeMemoryTouchTime)
      && PublishedTouch(DiskTimes(View()), now, oldestDiskTouchTime)
    }

    constructor (lib: Library, config: Config, now: nat, disk: map<nat, Bytes>)
      ensures this.lib == lib && this.config == config
      ensures View() == Empty(now).(disk := disk)
    {
      this.lib := lib;
      this.config := config;
      this.now := now;
      this.disk := disk;
      manifests, blobs, redisEntries, tags, uploads := map[], map[], map[], map[], map[];
      unlinks, nextId := {}, 0;
      oldestSmallMemoryTouchTime, oldestLargeMemoryTouchTime, oldestDiskTouchTime := now, now, now;
      manifestMemoryUsage, smallBlobMemoryUsage, largeBlobMemoryUsage := 0, 0, 0;
      smallRedisMemoryUsage, largeRedisMemoryUsage, blobDiskUsage, redisDiskUsage := 0, 0, 0, 0;
    }

    /** `fetch_add` on one bucket. */
    method FetchAdd(bucket: Bucket, n: int)
      modifies this
      ensures View() == old(View()).Charge(In(bucket, n))
    {
      match bucket {
        case ManifestMemory => manifestMemoryUsage := manifestMemoryUsage + n;
        case SmallBlobMemory => smallBlobMemoryUsage := smallBlobMemoryUsage + n;
        case LargeBlobMemory => largeBlobMemoryUsage := largeBlobMemoryUsage + n;
        case SmallRedisMemory => smallRedisMemoryUsage := smallRedisMemoryUsage + n;
        case LargeRedisMemory => largeRedisMemoryUsage := largeRedisMemoryUsage + n;
        case BlobDisk => blobDiskUsage := blobDiskUsage + n;
        case RedisDisk => redisDiskUsage := redisDiskUsage + n;
      }
    }

    /** `write_blob_to_disk` (src/eviction.rs:55-64). */
    method WriteFile(id: nat, content: Bytes)
      modifies this`disk
      ensures View() == old(View()).WriteFile(id, content)
    {
      disk := disk[id := content];
    }

    /** `delete_disk_blob` (src/eviction.rs:66-75). A missing file is not an error. */
    method DeleteFile(id: nat)
      modifies this`disk
      ensures View() == old(View()).DeleteFile(id)
    {
      disk := disk - {id};
    }

    /** A spawned unlink task runs, at whatever time it gets to. */
    method RunUnlink(id: nat)
      modifies this`disk, this`unlinks
      ensures View() == old(View()).RunUnlink(id)
    {
      if id in unlinks {
        disk := disk - {id};
        unlinks := unlinks - {id};
      }
    }

    method InsertBlob(digest: Digest, blob: Blob)
      modifies this
      ensures View() == old(View()).InsertBlob(digest, blob)
    {
      var (newBucket, newBytes) := BlobBucket(blob);
      FetchAdd(newBucket, newBytes);
      var replaced := digest in blobs;
      if replaced {
        var old_ := blobs[digest];
        blobs := blobs[digest := blob];
        var (oldBucket, oldBytes) := BlobBucket(old_);
        FetchAdd(oldBucket, -(oldBytes as int));
      } else {
        blobs := blobs[digest := blob];
      }
    }

    /** Does not delete the file of an on-disk blob. */
    method RemoveBlob(digest: Digest) returns (removed: Option<Blob>)
      modifies this
      ensures View() == old(View()).RemoveBlob(digest)
      ensures removed == if digest in old(blobs) then Some(old(blobs)[digest]) else None
    {
      if digest !in blobs {
        return None;
      }
      var b := blobs[digest];
      blobs := blobs - {digest};
      var (bucket, bytes) := BlobBucket(b);
      FetchAdd(bucket, -(bytes as int));
      removed := Some(b);
    }

    method InsertManifest(digest: Digest, m: Manifest)
      modifies this
      ensures View() == old(View()).InsertManifest(digest, m)
    {
      var newLen := |m.content|;
      var oldLen := if digest in manifests then |manifests[digest].content| else 0;
      manifests := manifests[digest := m];
      FetchAdd(ManifestMemory, newLen - oldLen);
    }

    method RemoveManifest(digest: Digest) returns (removed: Option<Manifest>)
      modifies this
      ensures View() == old(View()).RemoveManifest(digest)
      ensures removed == if digest in old(manifests) then Some(old(manifests)[digest]) else None
    {
      if digest !in manifests {
        return None;
      }
      var m := manifests[digest];
      manifests := manifests - {digest};
      FetchAdd(ManifestMemory, -|m.content|);
      removed := Some(m);
    }

    /** Spawn the removal of the file of an entry that left the map. */
    method SpawnUnlink(e: RedisEntry)
      modifies this
      ensures View() == old(View()).(unlinks := if e.OnDisk? then old(unlinks) + {e.id} else old(unlinks))
    {
      if e.OnDisk? {
        unlinks := unlinks + {e.id};
      }
    }

    method InsertRedis(key: Bytes, value: Bytes) returns (entry: RedisEntry)
      modifies this
      ensures View() == old(View()).InsertRedis(key, value)
      ensures entry == RedisEntry.InMemory(old(nextId), value, now)
    {
      entry := RedisEntry.InMemory(nextId, value, now);
      nextId := nextId + 1;
      var (newBucket, newBytes) := RedisValueBucket(entry);
      FetchAdd(newBucket, newBytes);
      if key in redisEntries {
        var old_ := redisEntries[key];
        redisEntries := redisEntries[key := entry];
        var (oldBucket, oldBytes) := RedisValueBucket(old_);
        FetchAdd(oldBucket, -(oldBytes as int));
        SpawnUnlink(old_);
      } else {
        redisEntries := redisEntries[key := entry];
        FetchAdd(SmallRedisMemory, |key|);
      }
    }

    method RemoveRedis(key: Bytes) returns (existed: bool)
      modifies this
      ensures View() == old(View()).RemoveRedis(key)
      ensures existed <==> key in old(redisEntries)
    {
      if key !in redisEntries {
        return false;
      }
      var v := redisEntries[key];
      redisEntries := redisEntries - {key};
      var (bucket, bytes) := RedisValueBucket(v);
      FetchAdd(bucket, -(bytes as int));
      FetchAdd(SmallRedisMemory, -|key|);
      SpawnUnlink(v);
      existed := true;
    }

    method FlushRedis()
      modifies this
      ensures View() == old(View()).FlushRedis()
    {
      var delete := set k | k in redisEntries && redisEntries[k].OnDisk? :: redisEntries[k].id;
      redisEntries := map[];
      smallRedisMemoryUsage, largeRedisMemoryUsage, redisDiskUsage := 0, 0, 0;
      unlinks := unlinks + delete;
    }

    /** `recompute_usage`: walk the three maps, store all seven counters and publish
        the oldest touch time of each pool. */
    method RecomputeUsage()
      modifies this
      ensures View() == old(View()).(counters := old(View()).Recomputed())
      ensures GaugesAreExact()
    {
      hide Store.Recomputed, In, BlobUsage, RedisUsage, Total, ManifestCharges, BlobCharges, RedisCharges;
      hide LeastOf, GaugesAreExact, ManifestTimes, BlobTimes, RedisTimes;
      ghost var s := View();
      var manifestMem, small0 := SumManifests();
      var smallBlob, largeBlob, blobDisk, small1, large1, disk1 := SumBlobs(small0, ManifestTimes(manifests));
      var smallRedis, largeRedis, redisDisk, small2, large2, disk2 := SumRedis(small1, large1, disk1,
        ManifestTimes(manifests) + BlobTimes(blobs, SmallBlobMemory), BlobTimes(blobs, LargeBlobMemory),
        BlobTimes(blobs, BlobDisk));
      AssembleUsage(s, manifestMem, smallBlob, largeBlob, blobDisk, smallRedis, largeRedis, redisDisk);
      manifestMemoryUsage := manifestMem;
      smallBlobMemoryUsage := smallBlob;
      largeBlobMemoryUsage := largeBlob;
      smallRedisMemoryUsage := smallRedis;
      largeRedisMemoryUsage := largeRedis;
      blobDiskUsage := blobDisk;
      redisDiskUsage := redisDisk;
      PublishTouchTimes(small2, large2, disk2);
    }

    method PublishTouchTimes(small: nat, large: nat, disk: nat)
      requires LeastOf(SmallTimes(View()), small) && LeastOf(LargeTimes(View()), large)
      requires LeastOf(DiskTimes(View()), disk)
      modifies this`oldestSmallMemoryTouchTime, this`oldestLargeMemoryTouchTime, this`oldestDiskTouchTime
      ensures View() == old(View())
      ensures GaugesAreExact()
    {
      hide LeastOf, PublishedTouch, SmallTimes, LargeTimes, DiskTimes;
      FallbackPublishes(SmallTimes(View()), small, now);
      FallbackPublishes(LargeTimes(View()), large, now);
      FallbackPublishes(DiskTimes(View()), disk, now);
      oldestSmallMemoryTouchTime := Fallback(small, now);
      oldestLargeMemoryTouchTime := Fallback(large, now);
      oldestDiskTouchTime := Fallback(disk, now);
    }

    method SumManifests() returns (n: int, oldest: nat)
      ensures Total(ManifestCharges(manifests)) == In(ManifestMemory, n)
      ensures LeastOf(ManifestTimes(manifests), oldest)
    {
      hide LeastOf, ManifestTimes;
      n, oldest := 0, U64_MAX;
      var todo := manifests.Keys;
      ghost var seen := {};
      assert Restrict(manifests, seen) == map[];
      assert ManifestCharges(Restrict(manifests, seen)) == map[];
      NoManifestTimes(Restrict(manifests, seen));
      while todo != {}
        invariant todo !! seen && todo + seen == manifests.Keys
        invariant Total(ManifestCharges(Restrict(manifests, seen))) == In(ManifestMemory, n)
        invariant LeastOf(ManifestTimes(Restrict(manifests, seen)), oldest)
        decreases todo
      {
        var d :| d in todo;
        var m := manifests[d];
        n := n + |m.content|;
        assert Restrict(manifests, seen + {d}) == Restrict(manifests, seen)[d := m];
        ManifestTotalPut(Restrict(manifests, seen), d, m);
        ManifestTimesPut(Restrict(manifests, seen), d, m, oldest);
        oldest := Min(oldest, m.lastUsed);
        todo, seen := todo - {d}, seen + {d};
      }
      assert Restrict(manifests, seen) == manifests;
    }

    method SumBlobs(small0: nat, ghost before: set<nat>)
      returns (smallBlob: int, largeBlob: int, blobDisk: int, small: nat, large: nat, disk: nat)
      requires LeastOf(before, small0)
      ensures Total(BlobCharges(blobs)) == BlobUsage(smallBlob, largeBlob, blobDisk)
      ensures LeastBlobTimes(before, blobs, small, large, disk)
    {
      hide BlobCharge, BlobUsage, Usage.Plus, Usage.Minus, LeastOf, LeastBlobTimes, BlobTimes;
      smallBlob, largeBlob, blobDisk := 0, 0, 0;
      small, large, disk := small0, U64_MAX, U64_MAX;
      var todo := blobs.Keys;
      ghost var seen := {};
      assert Restrict(blobs, seen) == map[];
      assert BlobCharges(Restrict(blobs, seen)) == map[];
      assert BlobUsage(0, 0, 0) == ZERO by { UsageOfNothing(); }
      NoBlobTimes(before, Restrict(blobs, seen), small);
      while todo != {}
        invariant todo !! seen && todo + seen == blobs.Keys
        invariant Total(BlobCharges(Restrict(blobs, seen))) == BlobUsage(smallBlob, largeBlob, blobDisk)
        invariant LeastBlobTimes(before, Restrict(blobs, seen), small, large, disk)
        decreases todo
      {
        var d :| d in todo;
        var b := blobs[d];
        assert Restrict(blobs, seen + {d}) == Restrict(blobs, seen)[d := b];
        BlobTotalGrows(Restrict(blobs, seen), d, b);
        BlobUsageAdd(smallBlob, largeBlob, blobDisk, b);
        BlobTimesPut(before, Restrict(blobs, seen), d, b, small, large, disk);
        match b {
          case InMemory(_, content, _, lastAccessed) =>
            if |content| > MEMORY_TIER_THRESHOLD {
              largeBlob, large := largeBlob + |content|, Min(large, lastAccessed);
            } else {
              smallBlob, small := smallBlob + |content|, Min(small, lastAccessed);
            }
          case OnDisk(_, size, _, lastAccessed) =>
            blobDisk, disk := blobDisk + size, Min(disk, lastAccessed);
        }
        todo, seen := todo - {d}, seen + {d};
      }
      assert Restrict(blobs, seen) == blobs;
    }

    method SumRedis(small0: nat, large0: nat, disk0: nat,
        ghost smalls: set<nat>, ghost larges: set<nat>, ghost disks: set<nat>)
      returns (smallRedis: int, largeRedis: int, redisDisk: int, small: nat, large: nat, disk: nat)
      requires LeastOf(smalls, small0) && LeastOf(larges, large0) && LeastOf(disks, disk0)
      ensures Total(RedisCharges(redisEntries)) == RedisUsage(smallRedis, largeRedis, redisDisk)
      ensures LeastRedisTimes(smalls, larges, disks, redisEntries, small, large, disk)
    {
      hide RedisCharge, RedisUsage, Usage.Plus, Usage.Minus, LeastOf, LeastRedisTimes, RedisTimes;
      smallRedis, largeRedis, redisDisk := 0, 0, 0;
      small, large, disk := small0, large0, disk0;
      var todo := redisEntries.Keys;
      ghost var seen := {};
      assert Restrict(redisEntries, seen) == map[];
      assert RedisCharges(Restrict(redisEntries, seen)) == map[];
      assert RedisUsage(0, 0, 0) == ZERO by { UsageOfNothing(); }
      NoRedisTimes(smalls, larges, disks, Restrict(redisEntries, seen), small, large, disk);
      while todo != {}
        invariant todo !! seen && todo + seen == redisEntries.Keys
        invariant Total(RedisCharges(Restrict(redisEntries, seen))) == RedisUsage(smallRedis, largeRedis, redisDisk)
        invariant LeastRedisTimes(smalls, larges, disks, Restrict(redisEntries, seen), small, large, disk)
        decreases todo
      {
        var k :| k in todo;
        var e := redisEntries[k];
        assert Restrict(redisEntries, seen + {k}) == Restrict(redisEntries, seen)[k := e];
        RedisTotalPut(Restrict(redisEntries, seen), k, e);
        RedisUsageAdd(smallRedis, largeRedis, redisDisk, k, e);
        RedisTimesPut(smalls, larges, disks, Restrict(redisEntries, seen), k, e, small, large, disk);
        smallRedis := smallRedis + |k|;
        match e {
          case InMemory(_, value, lastAccessed) =>
            if |value| > MEMORY_TIER_THRESHOLD {
              largeRedis, large := largeRedis + |value|, Min(large, lastAccessed);
            } else {
              smallRedis, small := smallRedis + |value|, Min(small, lastAccessed);
            }
          case OnDisk(_, size, lastAccessed) =>
            redisDisk, disk := redisDisk + size, Min(disk, lastAccessed);
        }
        todo, seen := todo - {k}, seen + {k};
      }
      assert Restrict(redisEntries, seen) == redisEntries;
    }

    /** `next_id` is stored after a load. */
    method StoreNextId(id: nat)
      modifies this`nextId
      ensures View() == old(View()).(nextId := id)
      ensures old(GaugesAreExact()) ==> GaugesAreExact()
    {
      hide PublishedTouch, ManifestTimes, BlobTimes, RedisTimes;
      nextId := id;
    }

    /** `wipe_cache`: remove the blob directory and start cold. */
    method WipeCache()
      modifies this
      ensures View() == Empty(old(now)).(uploads := old(uploads), unlinks := old(unlinks))
      ensures GaugesAreExact()
    {
      hide Store.Recomputed, PublishedTouch;
      disk := map[];
      blobs, manifests, tags, redisEntries := map[], map[], map[], map[];
      EmptyIsZero(View());
      RecomputeUsage();
      nextId := 0;
    }
  }

  // ---- Touch times

  const U64_MAX: nat := 0xFFFF_FFFF_FFFF_FFFF

  function Min(a: nat, b: nat): nat {
    if a <= b then a else b
  }

  /** `t` is what a running minimum over `times` arrives at, from `U64_MAX` down. */
  predicate LeastOf(times: set<nat>, t: nat) {
    && t <= U64_MAX
    && (t == U64_MAX || t in times)
    && forall x :: x in times ==> t <= x
  }

  /** An untouched minimum stands for an empty pool, which publishes the clock. */
  function Fallback(t: nat, now: nat): nat {
    if t == U64_MAX then now else t
  }

  /** The touch time published for a pool whose items were last used at `times`: the
      oldest, or the clock when none is earlier than the end of time. */
  predicate PublishedTouch(times: set<nat>, now: nat, t: nat) {
    if exists x :: x in times && x < U64_MAX then
      t in times && forall x :: x in times ==> t <= x
    else
      t == now
  }

  ghost function ManifestTimes(ms: map<Digest, Manifest>): set<nat> {
    set d | d in ms :: ms[d].lastUsed
  }

  ghost function BlobTimes(bs: map<Digest, Blob>, bucket: Bucket): set<nat> {
    set d | d in bs && BlobBucket(bs[d]).0 == bucket :: bs[d].lastAccessed
  }

  ghost function RedisTimes(rs: map<Bytes, RedisEntry>, bucket: Bucket): set<nat> {
    set k | k in rs && RedisValueBucket(rs[k]).0 == bucket :: rs[k].lastAccessed
  }

  ghost function SmallTimes(s: Store): set<nat> {
    ManifestTimes(s.manifests) + BlobTimes(s.blobs, SmallBlobMemory) + RedisTimes(s.redis, SmallRedisMemory)
  }

  ghost function LargeTimes(s: Store): set<nat> {
    BlobTimes(s.blobs, LargeBlobMemory) + RedisTimes(s.redis, LargeRedisMemory)
  }

  ghost function DiskTimes(s: Store): set<nat> {
    BlobTimes(s.blobs, BlobDisk) + RedisTimes(s.redis, RedisDisk)
  }

  ghost predicate LeastBlobTimes(before: set<nat>, bs: map<Digest, Blob>, small: nat, large: nat, disk: nat) {
    && LeastOf(before + BlobTimes(bs, SmallBlobMemory), small)
    && LeastOf(BlobTimes(bs, LargeBlobMemory), large)
    && LeastOf(BlobTimes(bs, BlobDisk), disk)
  }

  ghost predicate LeastRedisTimes(smalls: set<nat>, larges: set<nat>, disks: set<nat>, rs: map<Bytes, RedisEntry>,
      small: nat, large: nat, disk: nat) {
    && LeastOf(smalls + RedisTimes(rs, SmallRedisMemory), small)
    && LeastOf(larges + RedisTimes(rs, LargeRedisMemory), large)
    && LeastOf(disks + RedisTimes(rs, RedisDisk), disk)
  }

  lemma FallbackPublishes(times: set<nat>, t: nat, now: nat)
    requires LeastOf(times, t)
    ensures PublishedTouch(times, now, Fallback(t, now))
  {}

  lemma LeastMore(times: set<nat>, t: nat, x: nat)
    requires LeastOf(times, t)
    ensures LeastOf(times + {x}, Min(t, x))
  {}

  lemma NoManifestTimes(ms: map<Digest, Manifest>)
    requires ms == map[]
    ensures LeastOf(ManifestTimes(ms), U64_MAX)
  {}

  lemma NoBlobTimes(before: set<nat>, bs: map<Digest, Blob>, small: nat)
    requires bs == map[] && LeastOf(before, small)
    ensures LeastBlobTimes(before, bs, small, U64_MAX, U64_MAX)
  {
    hide LeastOf;
    assert before + BlobTimes(bs, SmallBlobMemory) == before;
    LeastOfNothing();
    assert BlobTimes(bs, LargeBlobMemory) == BlobTimes(bs, BlobDisk) == {};
  }

  lemma LeastOfNothing()
    ensures LeastOf({}, U64_MAX)
  {}

  lemma NoRedisTimes(smalls: set<nat>, larges: set<nat>, disks: set<nat>, rs: map<Bytes, RedisEntry>,
      small: nat, large: nat, disk: nat)
    requires rs == map[] && LeastOf(smalls, small) && LeastOf(larges, large) && LeastOf(disks, disk)
    ensures LeastRedisTimes(smalls, larges, disks, rs, small, large, disk)
  {
    hide LeastOf;
    assert smalls + RedisTimes(rs, SmallRedisMemory) == smalls;
    assert larges + RedisTimes(rs, LargeRedisMemory) == larges;
    assert disks + RedisTimes(rs, RedisDisk) == disks;
  }

  lemma ManifestTimesPut(ms: map<Digest, Manifest>, d: Digest, m: Manifest, oldest: nat)
    requires d !in ms && LeastOf(ManifestTimes(ms), oldest)
    ensures LeastOf(ManifestTimes(ms[d := m]), Min(oldest, m.lastUsed))
  {
    hide LeastOf;
    LeastMore(ManifestTimes(ms), oldest, m.lastUsed);
    var put := ms[d := m];
    assert put[d] == m && forall e :: e in ms ==> put[e] == ms[e];
    assert ManifestTimes(put) == ManifestTimes(ms) + {m.lastUsed};
  }

  lemma BlobTimesGrow(bs: map<Digest, Blob>, d: Digest, b: Blob, bucket: Bucket)
    requires d !in bs
    ensures BlobTimes(bs[d := b], bucket) ==
      BlobTimes(bs, bucket) + if BlobBucket(b).0 == bucket then {b.lastAccessed} else {}
  {
    hide BlobBucket;
    var put := bs[d := b];
    assert put[d] == b && forall e :: e in bs ==> put[e] == bs[e];
  }

  lemma RedisTimesGrow(rs: map<Bytes, RedisEntry>, k: Bytes, e: RedisEntry, bucket: Bucket)
    requires k !in rs
    ensures RedisTimes(rs[k := e], bucket) ==
      RedisTimes(rs, bucket) + if RedisValueBucket(e).0 == bucket then {e.lastAccessed} else {}
  {
    hide RedisValueBucket;
    var put := rs[k := e];
    assert put[k] == e && forall j :: j in rs ==> put[j] == rs[j];
  }

  /** One more item lowers the minimum of its own pool. */
  lemma LeastGrown(before: set<nat>, times: set<nat>, times': set<nat>, t: nat, x: nat, here: bool)
    requires LeastOf(before + times, t) && times' == times + if here then {x} else {}
    ensures LeastOf(before + times', if here then Min(t, x) else t)
  {
    hide LeastOf;
    LeastMore(before + times, t, x);
    assert before + (times + {x}) == before + times + {x};
    assert times + {} == times;
  }

  lemma BlobTimesPut(before: set<nat>, bs: map<Digest, Blob>, d: Digest, b: Blob, small: nat, large: nat, disk: nat)
    requires d !in bs && LeastBlobTimes(before, bs, small, large, disk)
    ensures var bucket := BlobBucket(b).0;
      LeastBlobTimes(before, bs[d := b], if bucket == SmallBlobMemory then Min(small, b.lastAccessed) else small,
        if bucket == LargeBlobMemory then Min(large, b.lastAccessed) else large,
        if bucket == BlobDisk then Min(disk, b.lastAccessed) else disk)
  {
    hide LeastOf, BlobTimes, BlobBucket;
    var bs', x, bucket := bs[d := b], b.lastAccessed, BlobBucket(b).0;
    BlobTimesGrow(bs, d, b, SmallBlobMemory);
    BlobTimesGrow(bs, d, b, LargeBlobMemory);
    BlobTimesGrow(bs, d, b, BlobDisk);
    LeastGrown(before, BlobTimes(bs, SmallBlobMemory), BlobTimes(bs', SmallBlobMemory), small, x,
      bucket == SmallBlobMemory);
    assert {} + BlobTimes(bs, LargeBlobMemory) == BlobTimes(bs, LargeBlobMemory);
    assert {} + BlobTimes(bs', LargeBlobMemory) == BlobTimes(bs', LargeBlobMemory);
    LeastGrown({}, BlobTimes(bs, LargeBlobMemory), BlobTimes(bs', LargeBlobMemory), large, x,
      bucket == LargeBlobMemory);
    assert {} + BlobTimes(bs, BlobDisk) == BlobTimes(bs, BlobDisk);
    assert {} + BlobTimes(bs', BlobDisk) == BlobTimes(bs', BlobDisk);
    LeastGrown({}, BlobTimes(bs, BlobDisk), BlobTimes(bs', BlobDisk), disk, x, bucket == BlobDisk);
  }

  lemma RedisTimesPut(smalls: set<nat>, larges: set<nat>, disks: set<nat>, rs: map<Bytes, RedisEntry>,
      k: Bytes, e: RedisEntry, small: nat, large: nat, disk: nat)
    requires k !in rs && LeastRedisTimes(smalls, larges, disks, rs, small, large, disk)
    ensures var bucket := RedisValueBucket(e).0;
      LeastRedisTimes(smalls, larges, disks, rs[k := e],
        if bucket == SmallRedisMemory then Min(small, e.lastAccessed) else small,
        if bucket == LargeRedisMemory then Min(large, e.lastAccessed) else large,
        if bucket == RedisDisk then Min(disk, e.lastAccessed) else disk)
  {
    hide LeastOf, RedisTimes, RedisValueBucket;
    var rs', x, bucket := rs[k := e], e.lastAccessed, RedisValueBucket(e).0;
    RedisTimesGrow(rs, k, e, SmallRedisMemory);
    RedisTimesGrow(rs, k, e, LargeRedisMemory);
    RedisTimesGrow(rs, k, e, RedisDisk);
    LeastGrown(smalls, RedisTimes(rs, SmallRedisMemory), RedisTimes(rs', SmallRedisMemory), small, x,
      bucket == SmallRedisMemory);
    LeastGrown(larges, RedisTimes(rs, LargeRedisMemory), RedisTimes(rs', LargeRedisMemory), large, x,
      bucket == LargeRedisMemory);
    LeastGrown(disks, RedisTimes(rs, RedisDisk), RedisTimes(rs', RedisDisk), disk, x, bucket == RedisDisk);
  }

  lemma NoManifests(ms: map<Digest, Manifest>)
    requires ms == map[]
    ensures Total(ManifestCharges(ms)) == ZERO
  {
    hide Total, MapOf;
    TotalEmpty(ManifestCharges(ms));
  }

  lemma NoBlobs(bs: map<Digest, Blob>)
    requires bs == map[]
    ensures Total(BlobCharges(bs)) == ZERO
  {
    hide Total, MapOf;
    TotalEmpty(BlobCharges(bs));
  }

  lemma NoRedis(rs: map<Bytes, RedisEntry>)
    requires rs == map[]
    ensures Total(RedisCharges(rs)) == ZERO
  {
    hide Total, MapOf;
    TotalEmpty(RedisCharges(rs));
  }

  lemma EmptyIsZero(s: Store)
    requires s.manifests == map[] && s.blobs == map[] && s.redis == map[]
    ensures s.Recomputed() == ZERO
  {
    hide Total, ManifestCharges, BlobCharges, RedisCharges;
    NoManifests(s.manifests);
    NoBlobs(s.blobs);
    NoRedis(s.redis);
  }

  function BlobUsage(small: int, large: int, disk: int): Usage {
    ZERO.(smallBlobMemory := small, largeBlobMemory := large, blobDisk := disk)
  }

  function RedisUsage(small: int, large: int, disk: int): Usage {
    ZERO.(smallRedisMemory := small, largeRedisMemory := large, redisDisk := disk)
  }

  lemma UsageOfNothing()
    ensures BlobUsage(0, 0, 0) == ZERO && RedisUsage(0, 0, 0) == ZERO
  {}

  lemma AssembleUsage(s: Store, m: int, sb: int, lb: int, bd: int, sr: int, lr: int, rd: int)
    requires Total(ManifestCharges(s.manifests)) == In(ManifestMemory, m)
    requires Total(BlobCharges(s.blobs)) == BlobUsage(sb, lb, bd)
    requires Total(RedisCharges(s.redis)) == RedisUsage(sr, lr, rd)
    ensures s.Recomputed() == Usage(m, sb, lb, sr, lr, bd, rd)
  {
    hide Total, ManifestCharges, BlobCharges, RedisCharges;
  }

  lemma BlobUsageAdd(small: int, large: int, disk: int, b: Blob)
    ensures BlobUsage(small, large, disk).Plus(BlobCharge(b)) ==
      match b
      case InMemory(_, content, _, _) =>
        if |content| > MEMORY_TIER_THRESHOLD then BlobUsage(small, large + |content|, disk)
        else BlobUsage(small + |content|, large, disk)
      case OnDisk(_, size, _, _) => BlobUsage(small, large, disk + size)
  {}

  lemma RedisUsageAdd(small: int, large: int, disk: int, k: Bytes, e: RedisEntry)
    ensures RedisUsage(small, large, disk).Plus(RedisCharge(k, e)) ==
      match e
      case InMemory(_, value, _) =>
        if |value| > MEMORY_TIER_THRESHOLD then RedisUsage(small + |k|, large + |value|, disk)
        else RedisUsage(small + |k| + |value|, large, disk)
      case OnDisk(_, size, _) => RedisUsage(small + |k|, large, disk + size)
  {}

  lemma BlobTotalGrows(bs: map<Digest, Blob>, d: Digest, b: Blob)
    requires d !in bs
    ensures Total(BlobCharges(bs[d := b])) == Total(BlobCharges(bs)).Plus(BlobCharge(b))
  {
    hide BlobCharge;
    BlobTotalPut(bs, d, b);
  }

  lemma ManifestTotalPut(ms: map<Digest, Manifest>, d: Digest, m: Manifest)
    requires d !in ms
    ensures Total(ManifestCharges(ms[d := m])) == Total(ManifestCharges(ms)).Plus(ManifestCharge(m))
  {
    hide ManifestCharge;
    assert ManifestCharges(ms[d := m]) == ManifestCharges(ms)[d := ManifestCharge(m)];
    TotalPut(ManifestCharges(ms), d, ManifestCharge(m));
  }

  lemma RedisTotalPut(rs: map<Bytes, RedisEntry>, k: Bytes, e: RedisEntry)
    requires k !in rs
    ensures Total(RedisCharges(rs[k := e])) == Total(RedisCharges(rs)).Plus(RedisCharge(k, e))
  {
    hide RedisCharge;
    assert RedisCharges(rs[k := e]) == RedisCharges(rs)[k := RedisCharge(k, e)];
    TotalPut(RedisCharges(rs), k, RedisCharge(k, e));
  }
}
