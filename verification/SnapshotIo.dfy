/** The loops of `save` and `load_or_wipe` (src/snapshot.rs) over the shared
    state, each proved to do what module `Snapshot` says a save or load does. */
module SnapshotIo {
  import opened Prelude
  import opened DigestText
  import opened UsageSums
  import opened Cache
  import opened CacheState
  import opened EvictionMachine
  import opened Snapshot
  import opened SnapshotPruning

  /** The entries of the keys visited so far. */
  ghost predicate Listed<K(!new), V, E(!new)>(m: map<K, V>, seen: set<K>, es: seq<E>, save: (K, V) -> E) {
    && (forall e :: e in es ==> IsEntryOf(m, e, save))
    && (forall k :: k in seen && k in m ==> save(k, m[k]) in es)
    && |es| == |seen|
  }

  lemma ListedGrows<K(!new), V, E(!new)>(m: map<K, V>, seen: set<K>, es: seq<E>, save: (K, V) -> E, k: K)
    requires Listed(m, seen, es, save) && k in m && k !in seen
    ensures Listed(m, seen + {k}, es + [save(k, m[k])], save)
  {
    var es' := es + [save(k, m[k])];
    forall e | e in es' ensures IsEntryOf(m, e, save) {
      assert e in es || e == save(k, m[k]);
    }
    assert es'[|es|] == save(k, m[k]);
  }

  lemma ListedAll<K(!new), V, E(!new)>(m: map<K, V>, seen: set<K>, es: seq<E>, save: (K, V) -> E)
    requires Listed(m, seen, es, save) && seen == m.Keys
    ensures Listing(m, es, save)
  {}

  method SaveManifests(state: State) returns (es: seq<ManifestEntry>)
    ensures Listing(state.manifests, es, SaveManifest)
  {
    hide Listed, Listing, Print;
    es := [];
    var todo := state.manifests.Keys;
    ghost var seen := {};
    assert Listed(state.manifests, seen, es, SaveManifest) by { NothingListed(state.manifests, es, SaveManifest); }
    while todo != {}
      invariant todo !! seen && todo + seen == state.manifests.Keys
      invariant Listed(state.manifests, seen, es, SaveManifest)
      decreases todo
    {
      var d :| d in todo;
      var m := state.manifests[d];
      var text := Display(d);
      ListedGrows(state.manifests, seen, es, SaveManifest, d);
      es := es + [ManifestEntry(text, m.mediaType, m.lastUsed, m.content, m.evicted)];
      todo, seen := todo - {d}, seen + {d};
    }
    ListedAll(state.manifests, seen, es, SaveManifest);
  }

  method SaveTags(state: State) returns (es: seq<TagEntry>)
    ensures Listing(state.tags, es, SaveTag)
  {
    hide Listed, Listing, Print;
    es := [];
    var todo := state.tags.Keys;
    ghost var seen := {};
    assert Listed(state.tags, seen, es, SaveTag) by { NothingListed(state.tags, es, SaveTag); }
    while todo != {}
      invariant todo !! seen && todo + seen == state.tags.Keys
      invariant Listed(state.tags, seen, es, SaveTag)
      decreases todo
    {
      var t :| t in todo;
      var text := Display(state.tags[t]);
      ListedGrows(state.tags, seen, es, SaveTag, t);
      es := es + [TagEntry(t.repo, t.reference, text)];
      todo, seen := todo - {t}, seen + {t};
    }
    ListedAll(state.tags, seen, es, SaveTag);
  }

  /** Walk the blobs; a large in-memory one goes to its file. */
  method SaveBlobs(state: State) returns (es: seq<BlobEntry>)
    requires state.View().DistinctIds()
    modifies state`disk
    ensures Listing(state.blobs, es, SaveBlob)
    ensures BlobsWritten(state.blobs, state.blobs.Keys, old(state.disk), state.disk)
  {
    hide Listed, Listing, Print, BlobsWritten, Store.DistinctIds;
    es := [];
    var todo := state.blobs.Keys;
    ghost var seen := {};
    assert Listed(state.blobs, seen, es, SaveBlob) by { NothingListed(state.blobs, es, SaveBlob); }
    assert BlobsWritten(state.blobs, seen, old(state.disk), state.disk) by {
      NoBlobWritten(state.blobs, state.disk);
    }
    ghost var s := old(state.View());
    while todo != {}
      invariant todo !! seen && todo + seen == state.blobs.Keys
      invariant Listed(state.blobs, seen, es, SaveBlob)
      invariant BlobsWritten(state.blobs, seen, old(state.disk), state.disk)
      decreases todo
    {
      var d :| d in todo;
      var b := state.blobs[d];
      ghost var before := state.disk;
      var text := Display(d);
      ListedGrows(state.blobs, seen, es, SaveBlob, d);
      match b {
        case OnDisk(id, size, mediaType, lastAccessed) =>
          es := es + [BlobEntry(text, mediaType, size, lastAccessed, id, None)];
        case InMemory(id, content, mediaType, lastAccessed) =>
          if |content| <= SNAPSHOT_INLINE_THRESHOLD {
            es := es + [BlobEntry(text, mediaType, |content|, lastAccessed, id, Some(content))];
          } else {
            state.WriteFile(id, content);
            es := es + [BlobEntry(text, mediaType, |content|, lastAccessed, id, None)];
          }
      }
      OneBlobWritten(s, seen, old(state.disk), before, d);
      todo, seen := todo - {d}, seen + {d};
    }
    ListedAll(state.blobs, seen, es, SaveBlob);
  }

  /** Walk the redis entries; a large in-memory value goes to its file. */
  method SaveRedisEntries(state: State) returns (es: seq<RedisEntryEntry>)
    requires state.View().DistinctIds()
    modifies state`disk
    ensures Listing(state.redisEntries, es, SaveRedis)
    ensures RedisWritten(state.redisEntries, state.redisEntries.Keys, old(state.disk), state.disk)
  {
    hide Listed, Listing, RedisWritten, Store.DistinctIds;
    es := [];
    var todo := state.redisEntries.Keys;
    ghost var seen := {};
    assert Listed(state.redisEntries, seen, es, SaveRedis) by { NothingListed(state.redisEntries, es, SaveRedis); }
    assert RedisWritten(state.redisEntries, seen, old(state.disk), state.disk) by {
      NoRedisWritten(state.redisEntries, state.disk);
    }
    ghost var s := old(state.View());
    while todo != {}
      invariant todo !! seen && todo + seen == state.redisEntries.Keys
      invariant Listed(state.redisEntries, seen, es, SaveRedis)
      invariant RedisWritten(state.redisEntries, seen, old(state.disk), state.disk)
      decreases todo
    {
      var k :| k in todo;
      var e := state.redisEntries[k];
      ghost var before := state.disk;
      ListedGrows(state.redisEntries, seen, es, SaveRedis, k);
      match e {
        case InMemory(id, value, lastAccessed) =>
          if |value| <= SNAPSHOT_INLINE_THRESHOLD {
            es := es + [RedisEntryEntry(k, id, Some(value), lastAccessed, |value|)];
          } else {
            state.WriteFile(id, value);
            es := es + [RedisEntryEntry(k, id, None, lastAccessed, |value|)];
          }
        case OnDisk(id, size, lastAccessed) =>
          es := es + [RedisEntryEntry(k, id, None, lastAccessed, size)];
      }
      OneRedisWritten(s, seen, old(state.disk), before, k);
      todo, seen := todo - {k}, seen + {k};
    }
    ListedAll(state.redisEntries, seen, es, SaveRedis);
  }

  /** The data folder, as far as snapshots are concerned: the file that is there. */
  class Folder {
    var snapshot: SnapshotFile

    constructor ()
      ensures snapshot == Missing
    {
      snapshot := Missing;
    }
  }

  /** `save`: the file appears under its name only once it is complete. */
  method Save(state: State, folder: Folder)
    requires state.View().DistinctIds()
    modifies state`disk, folder
    ensures state.View() == old(state.View()).(disk := state.disk)
    ensures folder.snapshot.Decoded? && IsSave(old(state.View()), folder.snapshot.snap, state.disk)
  {
    hide Listing, BlobsWritten, RedisWritten, SavedDisk, Store.DistinctIds;
    ghost var s := state.View();
    var blobs := SaveBlobs(state);
    ghost var between := state.disk;
    var manifests := SaveManifests(state);
    var tags := SaveTags(state);
    DistinctIgnoresDisk(s, between);
    var redisEntries := SaveRedisEntries(state);
    BothWritten(s, between, state.disk);
    folder.snapshot := Decoded(Snapshot(SNAPSHOT_VERSION, tags, manifests, blobs, redisEntries, state.nextId));
  }

  // ---- Load

  method LoadManifests(state: State, es: seq<ManifestEntry>)
    requires state.manifests == map[]
    modifies state`manifests
    ensures state.manifests == Collect(es, LoadManifest)
  {
    hide Parse;
    for i := 0 to |es|
      invariant state.manifests == Collect(es[..i], LoadManifest)
    {
      var m := es[i];
      var d := FromStr(m.digest);
      assert es[..i + 1][..i] == es[..i];
      if d.Some? {
        state.manifests := state.manifests[d.value := Manifest(m.content, m.mediaType, m.lastUsed, m.evicted)];
      }
    }
    assert es[..|es|] == es;
  }

  method LoadTags(state: State, es: seq<TagEntry>)
    requires state.tags == map[]
    modifies state`tags
    ensures state.tags == Collect(es, LoadTag)
  {
    hide Parse;
    for i := 0 to |es|
      invariant state.tags == Collect(es[..i], LoadTag)
    {
      var t := es[i];
      var d := FromStr(t.digest);
      assert es[..i + 1][..i] == es[..i];
      if d.Some? {
        state.tags := state.tags[TagKey(t.repo, t.reference) := d.value];
      }
    }
    assert es[..|es|] == es;
  }

  method LoadBlobs(state: State, es: seq<BlobEntry>) returns (pruned: nat)
    requires state.blobs == map[]
    modifies state`blobs
    ensures state.blobs == Collect(es, BlobLoader(state.disk))
    ensures pruned == PrunedBlobs(es, state.disk)
  {
    hide Parse;
    pruned := 0;
    for i := 0 to |es|
      invariant state.blobs == Collect(es[..i], BlobLoader(state.disk))
      invariant pruned == PrunedBlobs(es[..i], state.disk)
    {
      var b := es[i];
      assert es[..i + 1][..i] == es[..i];
      var d := FromStr(b.digest);
      if d.None? {
        continue;
      }
      if b.content.Some? {
        state.blobs := state.blobs[d.value := Blob.InMemory(b.id, b.content.value, b.mediaType, b.lastAccessed)];
        continue;
      }
      if b.id in state.disk && |state.disk[b.id]| == b.size {
        state.blobs := state.blobs[d.value := Blob.OnDisk(b.id, b.size, b.mediaType, b.lastAccessed)];
      } else {
        pruned := pruned + 1;
      }
    }
    assert es[..|es|] == es;
  }

  method LoadRedisEntries(state: State, es: seq<RedisEntryEntry>)
    requires state.redisEntries == map[]
    modifies state`redisEntries
    ensures state.redisEntries == Collect(es, LoadRedis)
  {
    for i := 0 to |es|
      invariant state.redisEntries == Collect(es[..i], LoadRedis)
    {
      var r := es[i];
      assert es[..i + 1][..i] == es[..i];
      if r.value.Some? {
        state.redisEntries := state.redisEntries[r.key := RedisEntry.InMemory(r.id, r.value.value, r.lastAccessed)];
      } else {
        state.redisEntries := state.redisEntries[r.key := RedisEntry.OnDisk(r.id, r.size, r.lastAccessed)];
      }
    }
    assert es[..|es|] == es;
  }

  /** `load`, once the file has been read and decoded to a snapshot of this version. */
  method Load(state: State, snap: Snapshot) returns (pruned: nat)
    requires state.View() == Empty(state.now).(disk := state.disk)
    modifies state
    ensures state.View() == Loaded(snap, old(state.disk), old(state.now))
    ensures pruned == PrunedBlobs(snap.blobs, old(state.disk))
    ensures state.GaugesAreExact()
  {
    hide Store.Recomputed, State.GaugesAreExact, Loaded, Collect, PrunedBlobs, BlobLoader;
    LoadManifests(state, snap.manifests);
    pruned := LoadBlobs(state, snap.blobs);
    LoadTags(state, snap.tags);
    LoadRedisEntries(state, snap.redisEntries);
    LoadedIs(state.View(), snap);
    state.RecomputeUsage();
    state.StoreNextId(snap.nextId);
  }

  /** `load_or_wipe` on the state a process starts with. Whatever the file was, it is
      gone afterwards: a snapshot is loaded at most once. */
  method LoadOrWipe(state: State, folder: Folder) returns (pruned: nat)
    requires state.View() == Empty(state.now).(disk := state.disk)
    modifies state, folder
    ensures state.View() == Startup(old(folder.snapshot), old(state.disk), old(state.now))
    ensures folder.snapshot == Missing
    ensures forall d :: d in state.blobs && state.blobs[d].OnDisk? ==>
      state.blobs[d].id in state.disk && |state.disk[state.blobs[d].id]| == state.blobs[d].size
    ensures var file := old(folder.snapshot);
      pruned ==
        if !(file.Decoded? && file.snap.version == 2) then 0
        else
          var es, disk := file.snap.blobs, old(state.disk);
          |set i | 0 <= i < |es| && Parse(es[i].digest).Some? && es[i].content.None?
                   && !(es[i].id in disk && |disk[es[i].id]| == es[i].size)|
    ensures state.GaugesAreExact()
  {
    hide Loaded, PrunedBlobs, PublishedTouch, Startup, Parse;
    var file := folder.snapshot;
    StartupFilesMatch(file, state.disk, state.now);
    StartsFrom(file, state.disk, state.now);
    if file.Decoded? {
      PrunedAreCounted(file.snap.blobs, state.disk);
    }
    if file.Decoded? {
      if file.snap.version == SNAPSHOT_VERSION {
        pruned := Load(state, file.snap);
        folder.snapshot := Missing;
        return;
      }
    }
    state.WipeCache();
    pruned := 0;
    if !file.Missing? {
      folder.snapshot := Missing;
    }
  }

  lemma StartsFrom(file: SnapshotFile, disk: map<nat, Bytes>, now: nat)
    ensures Startup(file, disk, now) ==
      if file.Decoded? && file.snap.version == 2 then Loaded(file.snap, disk, now) else Empty(now)
  {
    hide Loaded;
  }

  lemma LoadedIs(s: Store, snap: Snapshot)
    requires s == Empty(s.now).(
      disk := s.disk, manifests := Collect(snap.manifests, LoadManifest),
      blobs := Collect(snap.blobs, BlobLoader(s.disk)), tags := Collect(snap.tags, LoadTag),
      redis := Collect(snap.redisEntries, LoadRedis))
    ensures s.(counters := s.Recomputed(), nextId := snap.nextId) == Loaded(snap, s.disk, s.now)
  {
    hide Collect;
    assert s.(nextId := snap.nextId).Recomputed() == s.Recomputed();
  }

  // ---- Lemmas for the save loops

  lemma NothingListed<K(!new), V, E(!new)>(m: map<K, V>, es: seq<E>, save: (K, V) -> E)
    requires es == []
    ensures Listed(m, {}, es, save)
  {}

  lemma NoBlobWritten(bs: map<Digest, Blob>, disk: map<nat, Bytes>)
    ensures BlobsWritten(bs, {}, disk, disk)
  {}

  lemma NoRedisWritten(rs: map<Bytes, RedisEntry>, disk: map<nat, Bytes>)
    ensures RedisWritten(rs, {}, disk, disk)
  {}

  /** Writing one more file leaves the files of the other entries alone, because ids are distinct. */
  lemma OneBlobWritten(s: Store, seen: set<Digest>, disk0: map<nat, Bytes>, disk: map<nat, Bytes>, d: Digest)
    requires s.DistinctIds() && d in s.blobs && d !in seen && seen <= s.blobs.Keys
    requires BlobsWritten(s.blobs, seen, disk0, disk)
    ensures var b := s.blobs[d];
      BlobsWritten(s.blobs, seen + {d}, disk0, if BlobNeedsFile(b) then disk[b.id := b.content] else disk)
  {
    var b := s.blobs[d];
    forall id | !BlobNeeds(s.blobs, seen + {d}, id)
      ensures !BlobNeeds(s.blobs, seen, id) && (BlobNeedsFile(b) ==> id != b.id)
    {
      assert d in seen + {d};
    }
  }

  lemma OneRedisWritten(s: Store, seen: set<Bytes>, disk0: map<nat, Bytes>, disk: map<nat, Bytes>, k: Bytes)
    requires s.DistinctIds() && k in s.redis && k !in seen && seen <= s.redis.Keys
    requires RedisWritten(s.redis, seen, disk0, disk)
    ensures var e := s.redis[k];
      RedisWritten(s.redis, seen + {k}, disk0, if RedisNeedsFile(e) then disk[e.id := e.value] else disk)
  {
    var e := s.redis[k];
    forall id | !RedisNeeds(s.redis, seen + {k}, id)
      ensures !RedisNeeds(s.redis, seen, id) && (RedisNeedsFile(e) ==> id != e.id)
    {
      assert k in seen + {k};
    }
  }

  lemma DistinctIgnoresDisk(s: Store, disk: map<nat, Bytes>)
    requires s.DistinctIds()
    ensures s.(disk := disk).DistinctIds()
  {}

  lemma BothWritten(s: Store, between: map<nat, Bytes>, disk: map<nat, Bytes>)
    requires s.DistinctIds()
    requires BlobsWritten(s.blobs, s.blobs.Keys, s.disk, between)
    requires RedisWritten(s.redis, s.redis.Keys, between, disk)
    ensures SavedDisk(s, disk)
  {
    forall d | d in s.blobs && BlobNeedsFile(s.blobs[d]) ensures HasFile(disk, s.blobs[d].id, s.blobs[d].content) {
      assert !RedisNeeds(s.redis, s.redis.Keys, s.blobs[d].id);
      assert SameFile(between, disk, s.blobs[d].id);
    }
    forall id | !BlobNeeds(s.blobs, s.blobs.Keys, id) && !RedisNeeds(s.redis, s.redis.Keys, id)
      ensures SameFile(s.disk, disk, id)
    {
      assert SameFile(s.disk, between, id) && SameFile(between, disk, id);
    }
  }
}
