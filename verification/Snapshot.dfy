/** Persistent snapshots (src/snapshot.rs): what a shutdown writes and what a
    startup makes of it. CBOR is taken as the identity. */
module Snapshot {
  import opened Prelude
  import opened DigestText
  import opened UsageSums
  import opened Cache
  import opened EvictionMachine
  import opened EvictionStore

  const SNAPSHOT_VERSION: nat := 2

  /** Entries of at most this many bytes go into the snapshot itself. */
  const SNAPSHOT_INLINE_THRESHOLD: nat := 1024

  datatype TagEntry = TagEntry(repo: Text, reference: Text, digest: Text)

  datatype ManifestEntry = ManifestEntry(digest: Text, mediaType: Text, lastUsed: nat, content: Bytes, evicted: bool)

  datatype BlobEntry = BlobEntry(
    digest: Text, mediaType: Text, size: nat, lastAccessed: nat, id: nat, content: Option<Bytes>)

  datatype RedisEntryEntry = RedisEntryEntry(key: Bytes, id: nat, value: Option<Bytes>, lastAccessed: nat, size: nat)

  datatype Snapshot = Snapshot(
    version: nat,
    tags: seq<TagEntry>,
    manifests: seq<ManifestEntry>,
    blobs: seq<BlobEntry>,
    redisEntries: seq<RedisEntryEntry>,
    nextId: nat)

  // ---- What is written for one item

  function SaveManifest(d: Digest, m: Manifest): ManifestEntry {
    ManifestEntry(Print(d), m.mediaType, m.lastUsed, m.content, m.evicted)
  }

  function SaveTag(t: TagKey, d: Digest): TagEntry {
    TagEntry(t.repo, t.reference, Print(d))
  }

  function SaveBlob(d: Digest, b: Blob): BlobEntry {
    match b
    case OnDisk(id, size, mediaType, lastAccessed) => BlobEntry(Print(d), mediaType, size, lastAccessed, id, None)
    case InMemory(id, content, mediaType, lastAccessed) =>
      BlobEntry(Print(d), mediaType, |content|, lastAccessed, id,
                if |content| <= SNAPSHOT_INLINE_THRESHOLD then Some(content) else None)
  }

  function SaveRedis(k: Bytes, e: RedisEntry): RedisEntryEntry {
    match e
    case OnDisk(id, size, lastAccessed) => RedisEntryEntry(k, id, None, lastAccessed, size)
    case InMemory(id, value, lastAccessed) =>
      RedisEntryEntry(k, id, if |value| <= SNAPSHOT_INLINE_THRESHOLD then Some(value) else None, lastAccessed, |value|)
  }

  predicate BlobNeedsFile(b: Blob) {
    b.InMemory? && |b.content| > SNAPSHOT_INLINE_THRESHOLD
  }

  predicate RedisNeedsFile(e: RedisEntry) {
    e.InMemory? && |e.value| > SNAPSHOT_INLINE_THRESHOLD
  }

  // ---- Listings: the entries of a map in some order

  ghost predicate IsEntryOf<K(!new), V, E>(m: map<K, V>, e: E, save: (K, V) -> E) {
    exists k :: k in m && e == save(k, m[k])
  }

  ghost predicate Listing<K(!new), V, E(!new)>(m: map<K, V>, es: seq<E>, save: (K, V) -> E) {
    && (forall e :: e in es ==> IsEntryOf(m, e, save))
    && (forall k :: k in m ==> save(k, m[k]) in es)
    && |es| == |m|
  }

  ghost predicate BlobNeeds(bs: map<Digest, Blob>, w: set<Digest>, id: nat) {
    exists d :: d in w && d in bs && BlobNeedsFile(bs[d]) && bs[d].id == id
  }

  ghost predicate RedisNeeds(rs: map<Bytes, RedisEntry>, w: set<Bytes>, id: nat) {
    exists k :: k in w && k in rs && RedisNeedsFile(rs[k]) && rs[k].id == id
  }

  /** From `disk0` to `disk`, the large in-memory blobs among `w` were written
      to their files and nothing else happened. */
  ghost predicate BlobsWritten(bs: map<Digest, Blob>, w: set<Digest>, disk0: map<nat, Bytes>, disk: map<nat, Bytes>) {
    && (forall d :: d in w && d in bs && BlobNeedsFile(bs[d]) ==> HasFile(disk, bs[d].id, bs[d].content))
    && (forall id :: !BlobNeeds(bs, w, id) ==> SameFile(disk0, disk, id))
  }

  ghost predicate RedisWritten(
      rs: map<Bytes, RedisEntry>, w: set<Bytes>, disk0: map<nat, Bytes>, disk: map<nat, Bytes>) {
    && (forall k :: k in w && k in rs && RedisNeedsFile(rs[k]) ==> HasFile(disk, rs[k].id, rs[k].value))
    && (forall id :: !RedisNeeds(rs, w, id) ==> SameFile(disk0, disk, id))
  }

  /** The disk after a save: large in-memory bytes in their files, the rest as before. */
  ghost predicate SavedDisk(s: Store, disk: map<nat, Bytes>) {
    && (forall d :: d in s.blobs && BlobNeedsFile(s.blobs[d]) ==> HasFile(disk, s.blobs[d].id, s.blobs[d].content))
    && (forall k :: k in s.redis && RedisNeedsFile(s.redis[k]) ==> HasFile(disk, s.redis[k].id, s.redis[k].value))
    && (forall id :: !BlobNeeds(s.blobs, s.blobs.Keys, id) && !RedisNeeds(s.redis, s.redis.Keys, id) ==>
          SameFile(s.disk, disk, id))
  }

  /** `snap` and `disk` are what saving `s` leaves. */
  ghost predicate IsSave(s: Store, snap: Snapshot, disk: map<nat, Bytes>) {
    && snap.version == SNAPSHOT_VERSION && snap.nextId == s.nextId
    && Listing(s.tags, snap.tags, SaveTag) && Listing(s.manifests, snap.manifests, SaveManifest)
    && Listing(s.blobs, snap.blobs, SaveBlob) && Listing(s.redis, snap.redisEntries, SaveRedis)
    && SavedDisk(s, disk)
  }

  // ---- What a load makes of the entries

  function LoadManifest(e: ManifestEntry): Option<(Digest, Manifest)> {
    match Parse(e.digest)
    case None => None
    case Some(d) => Some((d, Manifest(e.content, e.mediaType, e.lastUsed, e.evicted)))
  }

  function LoadTag(e: TagEntry): Option<(TagKey, Digest)> {
    match Parse(e.digest)
    case None => None
    case Some(d) => Some((TagKey(e.repo, e.reference), d))
  }

  /** The backing file is there with the recorded size. */
  predicate FileMatches(disk: map<nat, Bytes>, e: BlobEntry) {
    e.id in disk && |disk[e.id]| == e.size
  }

  function LoadBlob(disk: map<nat, Bytes>, e: BlobEntry): Option<(Digest, Blob)> {
    match Parse(e.digest)
    case None => None
    case Some(d) =>
      if e.content.Some? then Some((d, Blob.InMemory(e.id, e.content.value, e.mediaType, e.lastAccessed)))
      else if FileMatches(disk, e) then Some((d, Blob.OnDisk(e.id, e.size, e.mediaType, e.lastAccessed)))
      else None
  }

  /** The loader of blob entries on a given disk. */
  function BlobLoader(disk: map<nat, Bytes>): BlobEntry -> Option<(Digest, Blob)> {
    e => LoadBlob(disk, e)
  }

  function LoadRedis(e: RedisEntryEntry): Option<(Bytes, RedisEntry)> {
    Some((e.key, if e.value.Some? then RedisEntry.InMemory(e.id, e.value.value, e.lastAccessed)
                 else RedisEntry.OnDisk(e.id, e.size, e.lastAccessed)))
  }

  /** Insert what each entry loads to, skipping the entries that do not load. */
  function Collect<K, V, E>(es: seq<E>, load: E -> Option<(K, V)>): map<K, V> {
    if es == [] then
      map[]
    else
      var before := Collect(es[..|es| - 1], load);
      match load(es[|es| - 1])
      case None => before
      case Some(item) => before[item.0 := item.1]
  }

  /** How many blob entries a load drops because their file is missing or has another size. */
  function PrunedBlobs(es: seq<BlobEntry>, disk: map<nat, Bytes>): nat {
    if es == [] then
      0
    else
      var e := es[|es| - 1];
      PrunedBlobs(es[..|es| - 1], disk) +
      (if Parse(e.digest).Some? && e.content.None? && !FileMatches(disk, e) then 1 else 0)
  }

  ghost function Loaded(snap: Snapshot, disk: map<nat, Bytes>, now: nat): Store {
    var s := Empty(now).(disk := disk, nextId := snap.nextId, manifests := Collect(snap.manifests, LoadManifest),
                         blobs := Collect(snap.blobs, BlobLoader(disk)), tags := Collect(snap.tags, LoadTag),
                         redis := Collect(snap.redisEntries, LoadRedis));
    s.(counters := s.Recomputed())
  }

  /** What a startup finds where the snapshot should be. */
  datatype SnapshotFile = Missing | Corrupt | Decoded(snap: Snapshot)

  /** A snapshot of this version. */
  predicate Loadable(file: SnapshotFile) {
    file.Decoded? && file.snap.version == SNAPSHOT_VERSION
  }

  /** `load_or_wipe`: anything but a snapshot of this version starts cold. */
  ghost function Startup(file: SnapshotFile, disk: map<nat, Bytes>, now: nat): Store {
    if Loadable(file) then Loaded(file.snap, disk, now) else Empty(now)
  }

  // ---- The item a save and load leave behind

  function RestoreBlob(b: Blob): Blob {
    if BlobNeedsFile(b) then ToDisk(b) else b
  }

  function RestoreRedis(e: RedisEntry): RedisEntry {
    if RedisNeedsFile(e) then RedisEntry.OnDisk(e.id, |e.value|, e.lastAccessed) else e
  }

  ghost function Restored<K, V>(m: map<K, V>, restore: V -> V): (r: map<K, V>)
    ensures r.Keys == m.Keys && forall k :: k in m ==> r[k] == restore(m[k])
  {
    MapOf(m.Keys, k requires k in m => restore(m[k]))
  }

  /** The store after a clean restart: everything is there, large values are on
      disk, uploads and pending unlinks are gone, the counters are recomputed. */
  ghost function Restarted(s: Store, disk: map<nat, Bytes>, now: nat): Store {
    var s1 := Empty(now).(disk := disk, nextId := s.nextId, manifests := s.manifests, tags := s.tags,
                          blobs := Restored(s.blobs, RestoreBlob), redis := Restored(s.redis, RestoreRedis));
    s1.(counters := s1.Recomputed())
  }

  // ---- Loading a listing gives the map back

  lemma {:induction false} CollectSound<K(!new), V, E(!new)>(
      m: map<K, V>, es: seq<E>, save: (K, V) -> E, load: E -> Option<(K, V)>, restore: V -> V)
    requires forall e :: e in es ==> IsEntryOf(m, e, save)
    requires forall k :: k in m ==> load(save(k, m[k])) == Some((k, restore(m[k])))
    ensures forall k :: k in Collect(es, load) ==> k in m && Collect(es, load)[k] == restore(m[k])
    ensures forall k :: k in m && save(k, m[k]) in es ==> k in Collect(es, load)
    decreases |es|
  {
    if es != [] {
      var n := |es| - 1;
      CollectSound(m, es[..n], save, load, restore);
      assert IsEntryOf(m, es[n], save);
      forall k | k in m && save(k, m[k]) in es ensures k in Collect(es, load) {
        assert save(k, m[k]) == es[n] || save(k, m[k]) in es[..n];
      }
    }
  }

  /** Whatever the order of the entries, and although loading may replace values. */
  lemma CollectListing<K(!new), V, E(!new)>(
      m: map<K, V>, es: seq<E>, save: (K, V) -> E, load: E -> Option<(K, V)>, restore: V -> V)
    requires Listing(m, es, save)
    requires forall k :: k in m ==> load(save(k, m[k])) == Some((k, restore(m[k])))
    ensures Collect(es, load) == Restored(m, restore)
  {
    CollectSound(m, es, save, load, restore);
    hide Collect;
  }

  lemma UnchangedManifests(ms: map<Digest, Manifest>, es: seq<ManifestEntry>)
    requires Listing(ms, es, SaveManifest)
    ensures Collect(es, LoadManifest) == ms
  {
    hide Collect, Print, Parse, Listing, MapOf;
    forall d | d in ms ensures LoadManifest(SaveManifest(d, ms[d])) == Some((d, ms[d])) {
      ParsePrint(d);
    }
    var same: Manifest -> Manifest := m => m;
    CollectListing(ms, es, SaveManifest, LoadManifest, same);
    assert Restored(ms, same) == ms;
  }

  lemma UnchangedTags(ts: map<TagKey, Digest>, es: seq<TagEntry>)
    requires Listing(ts, es, SaveTag)
    ensures Collect(es, LoadTag) == ts
  {
    hide Collect, Print, Parse, Listing, MapOf;
    forall t | t in ts ensures LoadTag(SaveTag(t, ts[t])) == Some((t, ts[t])) {
      ParsePrint(ts[t]);
    }
    var same: Digest -> Digest := d => d;
    CollectListing(ts, es, SaveTag, LoadTag, same);
    assert Restored(ts, same) == ts;
  }

  /** The file behind a saved blob entry is there with its size. */
  ghost predicate BlobFilesReady(bs: map<Digest, Blob>, disk: map<nat, Bytes>) {
    forall d :: d in bs && SaveBlob(d, bs[d]).content.None? ==> FileMatches(disk, SaveBlob(d, bs[d]))
  }

  lemma RestoredBlobs(bs: map<Digest, Blob>, es: seq<BlobEntry>, disk: map<nat, Bytes>)
    requires Listing(bs, es, SaveBlob) && BlobFilesReady(bs, disk)
    ensures Collect(es, BlobLoader(disk)) == Restored(bs, RestoreBlob)
  {
    hide Collect, Print, Parse, Listing, MapOf;
    forall d | d in bs ensures BlobLoader(disk)(SaveBlob(d, bs[d])) == Some((d, RestoreBlob(bs[d]))) {
      ParsePrint(d);
    }
    CollectListing(bs, es, SaveBlob, BlobLoader(disk), RestoreBlob);
  }

  lemma {:induction false} NothingPruned(bs: map<Digest, Blob>, es: seq<BlobEntry>, disk: map<nat, Bytes>)
    requires (forall e :: e in es ==> IsEntryOf(bs, e, SaveBlob)) && BlobFilesReady(bs, disk)
    ensures PrunedBlobs(es, disk) == 0
  {
    if es != [] {
      NothingPruned(bs, es[..|es| - 1], disk);
      assert IsEntryOf(bs, es[|es| - 1], SaveBlob);
    }
  }

  lemma NothingListedIsPruned(bs: map<Digest, Blob>, es: seq<BlobEntry>, disk: map<nat, Bytes>)
    requires Listing(bs, es, SaveBlob) && BlobFilesReady(bs, disk)
    ensures PrunedBlobs(es, disk) == 0
  {
    hide IsEntryOf, BlobFilesReady, PrunedBlobs;
    NothingPruned(bs, es, disk);
  }

  lemma RestoredRedis(rs: map<Bytes, RedisEntry>, es: seq<RedisEntryEntry>)
    requires Listing(rs, es, SaveRedis)
    ensures Collect(es, LoadRedis) == Restored(rs, RestoreRedis)
  {
    hide Collect, Listing, MapOf;
    CollectListing(rs, es, SaveRedis, LoadRedis, RestoreRedis);
  }

  lemma FilesReady(s: Store, disk: map<nat, Bytes>)
    requires s.Owned() && SavedDisk(s, disk)
    ensures BlobFilesReady(s.blobs, disk)
  {
    forall d | d in s.blobs && SaveBlob(d, s.blobs[d]).content.None?
      ensures FileMatches(disk, SaveBlob(d, s.blobs[d]))
    {
      if s.blobs[d].OnDisk? {
        assert SameFile(s.disk, disk, s.blobs[d].id);
      } else {
        assert HasFile(disk, s.blobs[d].id, s.blobs[d].content);
      }
    }
  }

  /** Load of save: no entry is pruned and everything is back. */
  lemma {:induction false} LoadOfSave(s: Store, snap: Snapshot, disk: map<nat, Bytes>, now: nat)
    requires s.Owned() && IsSave(s, snap, disk)
    ensures Startup(Decoded(snap), disk, now) == Restarted(s, disk, now)
    ensures PrunedBlobs(snap.blobs, disk) == 0
  {
    hide Store.Owned, SavedDisk, Listing, Store.Recomputed, BlobFilesReady, Collect, BlobLoader, PrunedBlobs, Restored;
    FilesReady(s, disk);
    NothingListedIsPruned(s.blobs, snap.blobs, disk);
    UnchangedManifests(s.manifests, snap.manifests);
    UnchangedTags(s.tags, snap.tags);
    RestoredBlobs(s.blobs, snap.blobs, disk);
    RestoredRedis(s.redis, snap.redisEntries);
  }

  // ---- What a restart keeps

  lemma RestartInheritsIds(s: Store, disk: map<nat, Bytes>, now: nat)
    ensures InheritsIds(s, Restarted(s, disk, now)) && Restarted(s, disk, now).unlinks == {}
  {
    hide Store.Recomputed, MapOf;
  }

  lemma RestartFile(s: Store, disk: map<nat, Bytes>, d: Digest)
    requires s.Owned() && SavedDisk(s, disk) && d in s.blobs
    ensures var s' := s.(disk := disk, blobs := s.blobs[d := RestoreBlob(s.blobs[d])]);
      && s'.BlobBytes(d) == s.BlobBytes(d)
      && (s'.blobs[d].OnDisk? ==> s'.blobs[d].id in disk && |disk[s'.blobs[d].id]| == s'.blobs[d].size)
  {
    if s.blobs[d].OnDisk? {
      assert SameFile(s.disk, disk, s.blobs[d].id);
    } else if BlobNeedsFile(s.blobs[d]) {
      assert HasFile(disk, s.blobs[d].id, s.blobs[d].content);
    }
  }

  lemma RestartValue(s: Store, disk: map<nat, Bytes>, k: Bytes)
    requires s.Owned() && SavedDisk(s, disk) && k in s.redis
    ensures var s' := s.(disk := disk, redis := s.redis[k := RestoreRedis(s.redis[k])]);
      && s'.RedisValue(k) == s.RedisValue(k)
      && (s'.redis[k].OnDisk? ==> s'.redis[k].id in disk && |disk[s'.redis[k].id]| == s'.redis[k].size)
  {
    if s.redis[k].OnDisk? {
      assert SameFile(s.disk, disk, s.redis[k].id);
    } else if RedisNeedsFile(s.redis[k]) {
      assert HasFile(disk, s.redis[k].id, s.redis[k].value);
    }
  }

  /** After a clean restart every blob and every redis key is served the same bytes. */
  lemma {:induction false} RestartServesSameBytes(s: Store, disk: map<nat, Bytes>, now: nat)
    requires s.Owned() && SavedDisk(s, disk)
    ensures var s' := Restarted(s, disk, now);
      && s'.blobs.Keys == s.blobs.Keys && s'.Visible() == s.Visible()
      && (forall d :: d in s.blobs ==> s'.BlobBytes(d) == s.BlobBytes(d))
      && s'.FilesPresent()
  {
    hide SavedDisk, Store.Owned, Store.Recomputed, MapOf, RestoreBlob, RestoreRedis;
    var s' := Restarted(s, disk, now);
    forall d | d in s.blobs
      ensures s'.BlobBytes(d) == s.BlobBytes(d)
      ensures s'.blobs[d].OnDisk? ==> s'.blobs[d].id in disk && |disk[s'.blobs[d].id]| == s'.blobs[d].size
    {
      RestartFile(s, disk, d);
    }
    forall k | k in s.redis
      ensures s'.RedisValue(k) == s.RedisValue(k)
      ensures s'.redis[k].OnDisk? ==> s'.redis[k].id in disk && |disk[s'.redis[k].id]| == s'.redis[k].size
    {
      RestartValue(s, disk, k);
    }
    assert s'.disk == disk;
    hide Restarted, Store.BlobBytes, Store.RedisValue;
  }

  lemma {:induction false} RestartKeepsOwnership(s: Store, disk: map<nat, Bytes>, now: nat)
    requires s.Owned() && SavedDisk(s, disk)
    ensures Restarted(s, disk, now).Owned()
  {
    var s' := Restarted(s, disk, now);
    RestartServesSameBytes(s, disk, now);
    RestartInheritsIds(s, disk, now);
    hide Restarted, SavedDisk, InheritsIds, Store.FilesPresent, Store.DistinctIds, Store.IdsBelowNext;
    hide Store.UnlinksAreDead;
    OwnershipInherited(s, s');
  }

  // ---- Conservation

  /** `v` is `u` with the large-memory bytes in the disk buckets. */
  predicate Shifted(u: Usage, v: Usage) {
    && v.manifestMemory == u.manifestMemory
    && v.smallBlobMemory == u.smallBlobMemory && v.smallRedisMemory == u.smallRedisMemory
    && v.largeBlobMemory == 0 && v.largeRedisMemory == 0
    && v.blobDisk == u.blobDisk + u.largeBlobMemory
    && v.redisDisk == u.redisDisk + u.largeRedisMemory
  }

  lemma ShiftedPlus(u: Usage, v: Usage, u': Usage, v': Usage)
    requires Shifted(u, u') && Shifted(v, v')
    ensures Shifted(u.Plus(v), u'.Plus(v'))
  {}

  lemma NothingShifted()
    ensures Shifted(ZERO, ZERO)
  {}

  lemma {:induction false} TotalShifted<K>(m: map<K, Usage>, m': map<K, Usage>)
    requires m'.Keys == m.Keys && forall k :: k in m ==> Shifted(m[k], m'[k])
    ensures Shifted(Total(m), Total(m'))
    decreases |m|
  {
    hide Total, Usage.Plus, Shifted;
    if m == map[] {
      assert m' == map[];
      TotalEmpty(m);
      TotalEmpty(m');
      NothingShifted();
    } else {
      var k :| k in m;
      TotalTake(m, k);
      TotalTake(m', k);
      TotalShifted(m - {k}, m' - {k});
      ShiftedPlus(m[k], Total(m - {k}), m'[k], Total(m' - {k}));
    }
  }

  /** The two thresholds of 1024 agree, so what a save writes out is what the
      counters call large. */
  lemma {:induction false} ThresholdsAgree(b: Blob, k: Bytes, e: RedisEntry)
    ensures Shifted(BlobCharge(b), BlobCharge(RestoreBlob(b)))
    ensures Shifted(RedisCharge(k, e), RedisCharge(k, RestoreRedis(e)))
  {}

  lemma BlobsShifted(bs: map<Digest, Blob>)
    ensures Shifted(Total(BlobCharges(bs)), Total(BlobCharges(Restored(bs, RestoreBlob))))
  {
    hide BlobCharge, RedisCharge, RestoreBlob, RestoreRedis, Shifted, MapOf, Total;
    forall d | d in bs ensures Shifted(BlobCharge(bs[d]), BlobCharge(RestoreBlob(bs[d]))) {
      ThresholdsAgree(bs[d], [], RedisEntry.OnDisk(0, 0, 0));
    }
    TotalShifted(BlobCharges(bs), BlobCharges(Restored(bs, RestoreBlob)));
  }

  lemma RedisShifted(rs: map<Bytes, RedisEntry>)
    ensures Shifted(Total(RedisCharges(rs)), Total(RedisCharges(Restored(rs, RestoreRedis))))
  {
    hide BlobCharge, RedisCharge, RestoreBlob, RestoreRedis, Shifted, MapOf, Total;
    forall k | k in rs ensures Shifted(RedisCharge(k, rs[k]), RedisCharge(k, RestoreRedis(rs[k]))) {
      ThresholdsAgree(Blob.OnDisk(0, 0, [], 0), k, rs[k]);
    }
    TotalShifted(RedisCharges(rs), RedisCharges(Restored(rs, RestoreRedis)));
  }

  /** A restart conserves every byte: the large-memory sums move to disk, the small
      ones keep their value, and the counters are exact. */
  lemma {:induction false} RestartConserves(s: Store, disk: map<nat, Bytes>, now: nat)
    ensures Shifted(s.Recomputed(), Restarted(s, disk, now).Recomputed())
    ensures Restarted(s, disk, now).Exact()
  {
    hide Total, ManifestCharges, BlobCharges, RedisCharges, Restored;
    BlobsShifted(s.blobs);
    RedisShifted(s.redis);
  }
}
