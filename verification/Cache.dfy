/** The cache's data (src/state.rs) as one value, and the operations of its
    helpers as functions on that value. */
module Cache {
  import opened Prelude
  import opened DigestText
  import opened UsageSums

  /** Values of at most this many bytes are "small". */
  const MEMORY_TIER_THRESHOLD: nat := 1024

  /** The three budgets, in bytes. */
  datatype Config = Config(memoryLimit: nat, smallMemoryLimit: Option<nat>, diskLimit: nat) {
    function SmallLimit(): nat {
      match smallMemoryLimit
      case Some(n) => n
      case None => memoryLimit / 8
    }

    function SmallTarget(): nat { SmallLimit() - SmallLimit() / 4 }

    function MemoryTarget(): nat { memoryLimit - memoryLimit / 4 }

    function DiskTarget(): nat { diskLimit - diskLimit / 4 }

    predicate OverSmall(u: Usage) { u.Small() > SmallTarget() }

    predicate OverMemory(u: Usage) { u.TotalMemory() > MemoryTarget() }

    predicate OverDisk(u: Usage) { u.TotalDisk() > DiskTarget() }
  }

  datatype Manifest = Manifest(content: Bytes, mediaType: Text, lastUsed: nat, evicted: bool)

  datatype Blob =
    | OnDisk(id: nat, size: nat, mediaType: Text, lastAccessed: nat)
    | InMemory(id: nat, content: Bytes, mediaType: Text, lastAccessed: nat)

  datatype RedisEntry =
    | OnDisk(id: nat, size: nat, lastAccessed: nat)
    | InMemory(id: nat, value: Bytes, lastAccessed: nat)

  /** A resumable upload. The running SHA-256 is represented by the bytes it has absorbed. */
  datatype Upload = Upload(buf: Bytes, absorbed: Bytes)

  datatype TagKey = TagKey(repo: Text, reference: Text)

  /** The file of `id` is there with this content. */
  predicate HasFile(disk: map<nat, Bytes>, id: nat, content: Bytes) {
    id in disk && disk[id] == content
  }

  /** The file of `id` is as it was. */
  predicate SameFile(disk: map<nat, Bytes>, disk': map<nat, Bytes>, id: nat) {
    (id in disk' <==> id in disk) && (id in disk ==> disk'[id] == disk[id])
  }

  /** `blob_bucket`. */
  function BlobBucket(b: Blob): (Bucket, nat) {
    match b
    case InMemory(_, content, _, _) =>
      if |content| > MEMORY_TIER_THRESHOLD then (LargeBlobMemory, |content|) else (SmallBlobMemory, |content|)
    case OnDisk(_, size, _, _) => (BlobDisk, size)
  }

  /** `redis_value_bucket`. */
  function RedisValueBucket(e: RedisEntry): (Bucket, nat) {
    match e
    case InMemory(_, value, _) =>
      if |value| > MEMORY_TIER_THRESHOLD then (LargeRedisMemory, |value|) else (SmallRedisMemory, |value|)
    case OnDisk(_, size, _) => (RedisDisk, size)
  }

  function ManifestCharge(m: Manifest): Usage {
    In(ManifestMemory, |m.content|)
  }

  function BlobCharge(b: Blob): Usage {
    In(BlobBucket(b).0, BlobBucket(b).1)
  }

  function ValueCharge(e: RedisEntry): Usage {
    In(RedisValueBucket(e).0, RedisValueBucket(e).1)
  }

  /** A key stays in memory whatever tier its value is in. */
  function KeyCharge(k: Bytes): Usage {
    In(SmallRedisMemory, |k|)
  }

  function RedisCharge(k: Bytes, e: RedisEntry): Usage {
    KeyCharge(k).Plus(ValueCharge(e))
  }

  ghost function ManifestCharges(ms: map<Digest, Manifest>): (r: map<Digest, Usage>)
    ensures r.Keys == ms.Keys && forall d :: d in ms ==> r[d] == ManifestCharge(ms[d])
  {
    MapOf(ms.Keys, d requires d in ms => ManifestCharge(ms[d]))
  }

  ghost function BlobCharges(bs: map<Digest, Blob>): (r: map<Digest, Usage>)
    ensures r.Keys == bs.Keys && forall d :: d in bs ==> r[d] == BlobCharge(bs[d])
  {
    MapOf(bs.Keys, d requires d in bs => BlobCharge(bs[d]))
  }

  ghost function RedisCharges(rs: map<Bytes, RedisEntry>): (r: map<Bytes, Usage>)
    ensures r.Keys == rs.Keys && forall k :: k in rs ==> r[k] == RedisCharge(k, rs[k])
  {
    MapOf(rs.Keys, k requires k in rs => RedisCharge(k, rs[k]))
  }

  datatype Store = Store(
    manifests: map<Digest, Manifest>,
    blobs: map<Digest, Blob>,
    redis: map<Bytes, RedisEntry>,
    tags: map<TagKey, Digest>,
    uploads: map<nat, Upload>,
    /** Files under the data folder, by the id `CachePath` derives their path from. */
    disk: map<nat, Bytes>,
    /** Ids of files that a spawned task will remove at some later time. */
    unlinks: set<nat>,
    nextId: nat,
    now: nat,
    counters: Usage)
  {
    // ---- The helpers of `State`

    function Charge(u: Usage): Store {
      this.(counters := counters.Plus(u))
    }

    function InsertBlob(d: Digest, b: Blob): Store {
      this.(blobs := blobs[d := b],
            counters := counters.Plus(BlobCharge(b)).Minus(if d in blobs then BlobCharge(blobs[d]) else ZERO))
    }

    function RemoveBlob(d: Digest): Store {
      if d in blobs then
        this.(blobs := blobs - {d}, counters := counters.Minus(BlobCharge(blobs[d])))
      else
        this
    }

    function InsertManifest(d: Digest, m: Manifest): Store {
      this.(manifests := manifests[d := m],
            counters := counters.Plus(ManifestCharge(m))
                                .Minus(if d in manifests then ManifestCharge(manifests[d]) else ZERO))
    }

    function RemoveManifest(d: Digest): Store {
      if d in manifests then
        this.(manifests := manifests - {d}, counters := counters.Minus(ManifestCharge(manifests[d])))
      else
        this
    }

    function InsertRedis(k: Bytes, v: Bytes): Store {
      var e := RedisEntry.InMemory(nextId, v, now);
      this.(redis := redis[k := e],
            nextId := nextId + 1,
            unlinks := if k in redis && redis[k].OnDisk? then unlinks + {redis[k].id} else unlinks,
            counters := counters.Plus(ValueCharge(e))
                                .Plus(if k in redis then ZERO.Minus(ValueCharge(redis[k])) else KeyCharge(k)))
    }

    function RemoveRedis(k: Bytes): Store {
      if k in redis then
        this.(redis := redis - {k},
              unlinks := if redis[k].OnDisk? then unlinks + {redis[k].id} else unlinks,
              counters := counters.Minus(RedisCharge(k, redis[k])))
      else
        this
    }

    function FlushRedis(): Store {
      this.(redis := map[],
            unlinks := unlinks + set k | k in redis && redis[k].OnDisk? :: redis[k].id,
            counters := counters.(smallRedisMemory := 0, largeRedisMemory := 0, redisDisk := 0))
    }

    // ---- Files

    function WriteFile(id: nat, content: Bytes): Store {
      this.(disk := disk[id := content])
    }

    function DeleteFile(id: nat): Store {
      this.(disk := disk - {id})
    }

    /** A spawned `remove_file` task gets to run. */
    function RunUnlink(id: nat): Store {
      if id in unlinks then this.(disk := disk - {id}, unlinks := unlinks - {id}) else this
    }

    // ---- What the maps stand for

    /** The bytes a reader of blob `d` is served. */
    function BlobBytes(d: Digest): Bytes
      requires d in blobs
    {
      match blobs[d]
      case InMemory(_, content, _, _) => content
      case OnDisk(id, _, _, _) => if id in disk then disk[id] else []
    }

    /** The bytes a GET of `k` is answered with. */
    function RedisValue(k: Bytes): Bytes
      requires k in redis
    {
      match redis[k]
      case InMemory(_, value, _) => value
      case OnDisk(id, _, _) => if id in disk then disk[id] else []
    }

    /** The plain key-value map the two redis tiers stand for. */
    ghost function Visible(): (r: map<Bytes, Bytes>)
      ensures r.Keys == redis.Keys && forall k :: k in redis ==> r[k] == RedisValue(k)
    {
      MapOf(redis.Keys, k requires k in redis => RedisValue(k))
    }

    /** The slow sums over the maps, which `recompute_usage` stores: each bucket is
        filled from one map only. */
    ghost function Recomputed(): Usage {
      var m, b, r := Total(ManifestCharges(manifests)), Total(BlobCharges(blobs)), Total(RedisCharges(redis));
      Usage(m.manifestMemory, b.smallBlobMemory, b.largeBlobMemory, r.smallRedisMemory, r.largeRedisMemory,
            b.blobDisk, r.redisDisk)
    }

    /** How far the incremental counters are above the slow sum. */
    ghost function Drift(): Usage {
      counters.Minus(Recomputed())
    }

    /** The counters agree with the maps. */
    ghost predicate Exact() {
      counters == Recomputed()
    }

    /** Every tag points at a cached manifest. */
    ghost predicate NoDanglingTags() {
      forall t :: t in tags ==> tags[t] in manifests
    }

    // ---- Disk ownership

    ghost predicate DistinctIds() {
      && (forall d, e :: d in blobs && e in blobs && d != e ==> blobs[d].id != blobs[e].id)
      && (forall k, l :: k in redis && l in redis && k != l ==> redis[k].id != redis[l].id)
      && (forall d, k :: d in blobs && k in redis ==> blobs[d].id != redis[k].id)
    }

    ghost predicate IdsBelowNext() {
      && (forall d :: d in blobs ==> blobs[d].id < nextId)
      && (forall k :: k in redis ==> redis[k].id < nextId)
      && (forall id :: id in unlinks ==> id < nextId)
    }

    /** Every on-disk entry's file is there with exactly its recorded size. */
    ghost predicate FilesPresent() {
      && (forall d :: d in blobs && blobs[d].OnDisk? ==>
            blobs[d].id in disk && |disk[blobs[d].id]| == blobs[d].size)
      && (forall k :: k in redis && redis[k].OnDisk? ==>
            redis[k].id in disk && |disk[redis[k].id]| == redis[k].size)
    }

    /** No pending unlink names the file of a live entry. */
    ghost predicate UnlinksAreDead() {
      && (forall d :: d in blobs ==> blobs[d].id !in unlinks)
      && (forall k :: k in redis ==> redis[k].id !in unlinks)
    }

    ghost predicate Owned() {
      DistinctIds() && IdsBelowNext() && FilesPresent() && UnlinksAreDead()
    }
  }

  function Empty(now: nat): Store {
    Store(map[], map[], map[], map[], map[], map[], {}, 0, now, ZERO)
  }

  // ---- What a charge is

  /** Every item is charged the bytes it holds, in one bucket: a manifest its content; a blob
      the bytes that are served for it, on disk if they are in its file, and else as large
      from 1025 bytes on. */
  lemma {:induction false} ChargedBytes(s: Store)
    requires s.FilesPresent()
    ensures forall d :: d in s.manifests ==>
      ManifestCharge(s.manifests[d]) == Usage(|s.manifests[d].content|, 0, 0, 0, 0, 0, 0)
    ensures forall d :: d in s.blobs ==>
      var n := |s.BlobBytes(d)|;
      BlobCharge(s.blobs[d]) ==
        if s.blobs[d].OnDisk? then Usage(0, 0, 0, 0, 0, n, 0)
        else if n > 1024 then Usage(0, 0, n, 0, 0, 0, 0)
        else Usage(0, n, 0, 0, 0, 0, 0)
  {}

  /** A redis value likewise; its key is charged to small memory whatever tier the value is in. */
  lemma {:induction false} ChargedRedisBytes(s: Store)
    requires s.FilesPresent()
    ensures forall k :: k in s.redis ==>
      var n := |s.RedisValue(k)|;
      RedisCharge(k, s.redis[k]) ==
        if s.redis[k].OnDisk? then Usage(0, 0, 0, |k|, 0, 0, n)
        else if n > 1024 then Usage(0, 0, 0, |k|, n, 0, 0)
        else Usage(0, 0, 0, |k| + n, 0, 0, 0)
  {}

  // ---- Which map fills which buckets

  predicate OnlyRedis(u: Usage) {
    u == ZERO.(smallRedisMemory := u.smallRedisMemory, largeRedisMemory := u.largeRedisMemory, redisDisk := u.redisDisk)
  }

  predicate OnlyBlobs(u: Usage) {
    u == ZERO.(smallBlobMemory := u.smallBlobMemory, largeBlobMemory := u.largeBlobMemory, blobDisk := u.blobDisk)
  }

  lemma RedisTotalIsRedis(s: Store)
    ensures OnlyRedis(Total(RedisCharges(s.redis))) && ZERO.AtMost(Total(RedisCharges(s.redis)))
  {
    hide MapOf;
    forall k | k in s.redis ensures OnlyRedis(RedisCharge(k, s.redis[k])) && ZERO.AtMost(RedisCharge(k, s.redis[k])) {}
    hide RedisCharge;
    TotalKeeps(RedisCharges(s.redis), u => OnlyRedis(u) && ZERO.AtMost(u));
  }

  lemma BlobTotalIsBlobs(charges: map<Digest, Usage>)
    requires forall d :: d in charges ==> OnlyBlobs(charges[d]) && ZERO.AtMost(charges[d])
    ensures OnlyBlobs(Total(charges)) && ZERO.AtMost(Total(charges))
  {
    TotalKeeps(charges, u => OnlyBlobs(u) && ZERO.AtMost(u));
  }

  predicate OnlyManifests(u: Usage) {
    u == In(ManifestMemory, u.manifestMemory)
  }

  lemma ManifestTotalIsManifests(s: Store)
    ensures OnlyManifests(Total(ManifestCharges(s.manifests))) && ZERO.AtMost(Total(ManifestCharges(s.manifests)))
  {
    TotalKeeps(ManifestCharges(s.manifests), u => OnlyManifests(u) && ZERO.AtMost(u));
  }

  /** Each map is charged to its own buckets only, and never negatively. */
  lemma BucketsAreSeparate(s: Store)
    ensures OnlyRedis(Total(RedisCharges(s.redis))) && ZERO.AtMost(Total(RedisCharges(s.redis)))
    ensures OnlyBlobs(Total(BlobCharges(s.blobs))) && ZERO.AtMost(Total(BlobCharges(s.blobs)))
    ensures OnlyManifests(Total(ManifestCharges(s.manifests))) && ZERO.AtMost(Total(ManifestCharges(s.manifests)))
  {
    RedisTotalIsRedis(s);
    BlobTotalIsBlobs(BlobCharges(s.blobs));
    ManifestTotalIsManifests(s);
  }

  /** The sums of the three walks simply add up: no charge is lost. */
  lemma RecomputedAddsUp(s: Store)
    ensures AddsUp(s.Recomputed(), Total(ManifestCharges(s.manifests)), Total(BlobCharges(s.blobs)),
                   Total(RedisCharges(s.redis)))
  {
    BucketsAreSeparate(s);
    hide Total, ManifestCharges, BlobCharges, RedisCharges;
  }

  // ---- Sequential accounting: what each helper does to the drift

  lemma BlobTotalPut(bs: map<Digest, Blob>, d: Digest, b: Blob)
    ensures Total(BlobCharges(bs[d := b])) ==
      Total(BlobCharges(bs)).Minus(if d in bs then BlobCharge(bs[d]) else ZERO).Plus(BlobCharge(b))
  {
    hide BlobCharge;
    assert BlobCharges(bs[d := b]) == BlobCharges(bs)[d := BlobCharge(b)];
    TotalPut(BlobCharges(bs), d, BlobCharge(b));
  }

  /** Inserting or replacing a blob, in any tier, leaves the drift alone. */
  lemma {:induction false} InsertBlobKeepsDrift(s: Store, d: Digest, b: Blob)
    ensures s.InsertBlob(d, b).Drift() == s.Drift()
  {
    hide Store.Recomputed, AddsUp;
    hide BlobCharge;
    RecomputedAddsUp(s);
    RecomputedAddsUp(s.InsertBlob(d, b));
    AddsUpIsSum();
    BlobTotalPut(s.blobs, d, b);
    ReplaceInSum(s.counters, Total(ManifestCharges(s.manifests)), Total(BlobCharges(s.blobs)),
                 Total(RedisCharges(s.redis)), if d in s.blobs then BlobCharge(s.blobs[d]) else ZERO, BlobCharge(b));
  }

  lemma {:induction false} RemoveBlobKeepsDrift(s: Store, d: Digest)
    ensures s.RemoveBlob(d).Drift() == s.Drift()
  {
    hide Store.Recomputed, AddsUp;
    hide BlobCharge, MapOf, Usage.Plus, Usage.Minus;
    RecomputedAddsUp(s);
    RecomputedAddsUp(s.RemoveBlob(d));
    AddsUpIsSum();
    if d in s.blobs {
      assert BlobCharges(s.blobs - {d}) == BlobCharges(s.blobs) - {d};
      TotalDrop(BlobCharges(s.blobs), d);
      TakeFromBoth(s.counters, Total(ManifestCharges(s.manifests)), Total(BlobCharges(s.blobs)),
        Total(RedisCharges(s.redis)), BlobCharge(s.blobs[d]));
    }
  }

  lemma ChargeDifference(counter: Usage, m: Manifest, old_: Usage, n: nat)
    requires old_ == In(ManifestMemory, n)
    ensures counter.Plus(In(ManifestMemory, |m.content| - n)) == counter.Plus(ManifestCharge(m)).Minus(old_)
  {}

  lemma InsertManifestCounters(s: Store, d: Digest, m: Manifest)
    ensures s.InsertManifest(d, m).counters ==
      s.counters.Plus(ManifestCharge(m)).Minus(if d in s.manifests then ManifestCharge(s.manifests[d]) else ZERO)
  {
    hide Usage.Plus, Usage.Minus;
    if d in s.manifests {
      ChargeDifference(s.counters, m, ManifestCharge(s.manifests[d]), |s.manifests[d].content|);
    } else {
      ChargeDifference(s.counters, m, ZERO, 0);
    }
  }

  lemma {:induction false} InsertManifestKeepsDrift(s: Store, d: Digest, m: Manifest)
    ensures s.InsertManifest(d, m).Drift() == s.Drift()
  {
    hide ManifestCharge, MapOf, Store.Recomputed, AddsUp, Usage.Plus, Usage.Minus, In;
    RecomputedAddsUp(s);
    RecomputedAddsUp(s.InsertManifest(d, m));
    AddsUpIsSum();
    InsertManifestCounters(s, d, m);
    assert ManifestCharges(s.manifests[d := m]) == ManifestCharges(s.manifests)[d := ManifestCharge(m)];
    TotalPut(ManifestCharges(s.manifests), d, ManifestCharge(m));
    ReplaceInSum(s.counters, Total(BlobCharges(s.blobs)), Total(ManifestCharges(s.manifests)),
                 Total(RedisCharges(s.redis)), if d in s.manifests then ManifestCharge(s.manifests[d]) else ZERO,
                 ManifestCharge(m));
  }

  lemma {:induction false} RemoveManifestKeepsDrift(s: Store, d: Digest)
    ensures s.RemoveManifest(d).Drift() == s.Drift()
  {
    hide Store.Recomputed, AddsUp;
    hide ManifestCharge, MapOf, Usage.Plus, Usage.Minus;
    RecomputedAddsUp(s);
    RecomputedAddsUp(s.RemoveManifest(d));
    AddsUpIsSum();
    if d in s.manifests {
      assert ManifestCharges(s.manifests - {d}) == ManifestCharges(s.manifests) - {d};
      TotalDrop(ManifestCharges(s.manifests), d);
      TakeFromBoth(s.counters, Total(BlobCharges(s.blobs)), Total(ManifestCharges(s.manifests)),
        Total(RedisCharges(s.redis)), ManifestCharge(s.manifests[d]));
    }
  }

  lemma KeyChargedOnce(counter: Usage, key: Usage, value: Usage, old_: Usage)
    ensures counter.Plus(value).Plus(key) == counter.Plus(key.Plus(value)).Minus(ZERO)
    ensures counter.Plus(value).Plus(ZERO.Minus(old_)) == counter.Plus(key.Plus(value)).Minus(key.Plus(old_))
  {}

  lemma EntryCharged(counter: Usage, rs: map<Bytes, RedisEntry>, k: Bytes, e: RedisEntry)
    ensures counter.Plus(ValueCharge(e)).Plus(if k in rs then ZERO.Minus(ValueCharge(rs[k])) else KeyCharge(k)) ==
      counter.Plus(RedisCharge(k, e)).Minus(if k in rs then RedisCharge(k, rs[k]) else ZERO)
  {
    hide ValueCharge, KeyCharge, Usage.Plus, Usage.Minus;
    KeyChargedOnce(counter, KeyCharge(k), ValueCharge(e), if k in rs then ValueCharge(rs[k]) else ZERO);
  }

  /** The key is charged once, when it enters the map, and not again on replacement. */
  lemma {:induction false} InsertRedisKeepsDrift(s: Store, k: Bytes, v: Bytes)
    ensures s.InsertRedis(k, v).Drift() == s.Drift()
  {
    hide RedisCharge, ValueCharge, KeyCharge, MapOf, Store.Recomputed, AddsUp, Usage.Plus, Usage.Minus;
    var e := RedisEntry.InMemory(s.nextId, v, s.now);
    RecomputedAddsUp(s);
    RecomputedAddsUp(s.InsertRedis(k, v));
    AddsUpIsSum();
    EntryCharged(s.counters, s.redis, k, e);
    assert RedisCharges(s.redis[k := e]) == RedisCharges(s.redis)[k := RedisCharge(k, e)];
    TotalPut(RedisCharges(s.redis), k, RedisCharge(k, e));
    ReplaceInSum(s.counters, Total(ManifestCharges(s.manifests)), Total(RedisCharges(s.redis)),
                 Total(BlobCharges(s.blobs)), if k in s.redis then RedisCharge(k, s.redis[k]) else ZERO,
                 RedisCharge(k, e));
  }

  lemma {:induction false} RemoveRedisKeepsDrift(s: Store, k: Bytes)
    ensures s.RemoveRedis(k).Drift() == s.Drift()
  {
    hide Store.Recomputed, AddsUp;
    hide RedisCharge, MapOf, Usage.Plus, Usage.Minus;
    RecomputedAddsUp(s);
    RecomputedAddsUp(s.RemoveRedis(k));
    AddsUpIsSum();
    if k in s.redis {
      assert RedisCharges(s.redis - {k}) == RedisCharges(s.redis) - {k};
      TotalDrop(RedisCharges(s.redis), k);
      TakeFromBoth(s.counters, Total(ManifestCharges(s.manifests)), Total(RedisCharges(s.redis)),
                   Total(BlobCharges(s.blobs)), RedisCharge(k, s.redis[k]));
    }
  }

  /** A flush clears whatever drift the redis buckets had and keeps the rest. */
  lemma {:induction false} FlushRedisClearsRedisDrift(s: Store)
    ensures s.FlushRedis().Drift() == s.Drift().(smallRedisMemory := 0, largeRedisMemory := 0, redisDisk := 0)
  {
    hide Total, ManifestCharges, BlobCharges, RedisCharges;
    TotalEmpty(RedisCharges(s.FlushRedis().redis));
  }

  // ---- Paths

  /** `{:016x}` for a value that fits its width: `width` lower-case hex digits. */
  function PaddedHex(n: nat, width: nat): (t: Text)
    ensures |t| == width
  {
    if width == 0 then [] else PaddedHex(n / 16, width - 1) + [HexDigit(n % 16)]
  }

  function HexNumber(t: Text): int
    decreases |t|
  {
    if t == [] then 0
    else 16 * HexNumber(t[..|t| - 1]) + (match HexValue(t[|t| - 1]) case Some(v) => v case None => 0)
  }

  function Pow16(e: nat): nat {
    if e == 0 then 1 else 16 * Pow16(e - 1)
  }

  lemma {:induction false} PaddedHexRoundTrip(n: nat, width: nat)
    requires n < Pow16(width)
    ensures HexNumber(PaddedHex(n, width)) == n
  {
    if width > 0 {
      PaddedHexRoundTrip(n / 16, width - 1);
      HexRoundTrip(n % 16);
      var t := PaddedHex(n, width);
      assert t[..|t| - 1] == PaddedHex(n / 16, width - 1);
    }
  }

  /** `cache_path`: the components below the data folder. */
  function CachePath(id: nat): seq<Text> {
    var hex := PaddedHex(id, 16);
    [Ascii("blobs"), hex[14..], hex]
  }

  /** The file of `id` is named by its 16 hexadecimal digits, in a folder named by the last two. */
  lemma {:induction false} CachePathForm(id: nat)
    requires id < 0x1_0000_0000_0000_0000
    ensures var path := CachePath(id);
      && |path| == 3 && path[0] == Ascii("blobs") && |path[2]| == 16 && path[1] == path[2][14..]
      && HexNumber(path[2]) == id
  {
    assert Pow16(4) == 0x1_0000 && Pow16(8) == 0x1_0000_0000;
    assert Pow16(12) == 0x1_0000_0000_0000 && Pow16(16) == 0x1_0000_0000_0000_0000;
    PaddedHexRoundTrip(id, 16);
  }

  /** Two 64-bit ids never share a file, so a disk keyed by id loses nothing. */
  lemma {:induction false} CachePathInjective(i: nat, j: nat)
    requires i < 0x1_0000_0000_0000_0000 && j < 0x1_0000_0000_0000_0000
    requires CachePath(i) == CachePath(j)
    ensures i == j
  {
    assert Pow16(4) == 0x1_0000 && Pow16(8) == 0x1_0000_0000;
    assert Pow16(12) == 0x1_0000_0000_0000 && Pow16(16) == 0x1_0000_0000_0000_0000;
    assert CachePath(i)[2] == CachePath(j)[2];
    PaddedHexRoundTrip(i, 16);
    PaddedHexRoundTrip(j, 16);
  }
}
