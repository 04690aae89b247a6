/** Everything that can happen to the cache of a running process, one operation at
    a time, and what each keeps; and what a save and a startup keep. */
module RunSteps {
  import opened Prelude
  import opened DigestText
  import opened UsageSums
  import opened References
  import opened Cache
  import opened CacheState
  import opened EvictionStore
  import opened RedisServer
  import opened Uploads
  import EvictionMachine
  import EvictionTheorems
  import EvictionUsage
  import Snapshot

  datatype Op =
    | Command(request: Request)
    | Post(digest: Option<Text>, body: Bytes, uuid: nat)
    | Patch(upload: Option<nat>, chunk: Bytes)
    | Put(upload: Option<nat>, digest: Option<Text>, chunk: Bytes)
    | Cancel(upload: Option<nat>)
    | FillBlob(d: Digest, mediaType: Text, chunks: seq<Bytes>, failed: bool)
    | Push(name: Text, reference: Text, mediaType: Text, body: Bytes)
    | Pull(local: bool, name: Text, reference: Text, up: Upstream)
    | ReadBlob(d: Digest, head: bool)
    | Tick(now: nat)
    | Unlink(id: nat)
    | Evict(events: seq<EvictionMachine.Event>, states: seq<EvictionMachine.Machine>)

  /** The outcome of an event the handlers determine. */
  function Serve(lib: Library, s: Store, op: Op): Store
    requires !op.Evict?
  {
    match op
    case Command(r) => Apply(s, r).0
    case Post(digest, body, uuid) => PostUpload(lib, s, digest, body, uuid).0
    case Patch(upload, chunk) => PatchUpload(s, upload, chunk).0
    case Put(upload, digest, chunk) => PutUpload(lib, s, upload, digest, chunk).0
    case Cancel(upload) => DeleteUpload(s, upload).0
    case FillBlob(d, mediaType, chunks, failed) => Fill(lib, s, d, mediaType, chunks, failed)
    case Push(name, reference, mediaType, body) => PutManifest(lib, s, name, reference, mediaType, body)
    case Pull(local, name, reference, up) => GetManifest(s, local, name, reference, up).0
    case ReadBlob(d, head) => GetCachedBlob(s, d, head).0
    case Tick(now) => s.(now := now)
    case Unlink(id) => s.RunUnlink(id)
  }

  /** `s'` is what `op` can leave of `s`. */
  ghost predicate CanStep(lib: Library, cfg: Config, s: Store, op: Op, s': Store) {
    match op
    case Evict(events, states) => EvictionMachine.IsPass(lib, cfg, s, events, states, s')
    case _ => s' == Serve(lib, s, op)
  }

  // ---- Commands leave the registry alone

  predicate SameRegistry(s: Store, s': Store) {
    && s'.manifests == s.manifests && s'.blobs == s.blobs && s'.tags == s.tags && s'.uploads == s.uploads
    && s'.disk == s.disk && s'.now == s.now
  }

  lemma {:induction false} DeleteLeavesRegistry(s: Store, keys: seq<Bytes>)
    ensures SameRegistry(s, DeleteKeys(s, keys).0)
    decreases |keys|
  {
    hide RedisCharge;
    if keys != [] {
      DeleteLeavesRegistry(s, keys[..|keys| - 1]);
    }
  }

  lemma InsertLeavesRegistry(s: Store, k: Bytes, v: Bytes)
    ensures SameRegistry(s, s.InsertRedis(k, v)) && SameRegistry(s, s.RemoveRedis(k)) && SameRegistry(s, s.FlushRedis())
  {
    hide ValueCharge, KeyCharge, RedisCharge, Usage.Plus, Usage.Minus;
  }

  lemma GetLeavesRegistry(s: Store, k: Bytes)
    ensures SameRegistry(s, GetEntry(s, k).0)
  {
    hide Store.InsertRedis, Store.RemoveRedis;
    if k in s.redis && s.redis[k].OnDisk? {
      InsertLeavesRegistry(s, k, s.RedisValue(k));
    }
  }

  lemma CommandLeavesRegistry(s: Store, r: Request)
    ensures SameRegistry(s, Apply(s, r).0)
  {
    hide Store.InsertRedis, Store.FlushRedis, DeleteKeys, CountIn, GetEntry, SameRegistry;
    assert SameRegistry(s, s) by { SameAsItself(s); }
    match r {
      case Get(k) => GetLeavesRegistry(s, k);
      case Set(k, v) => InsertLeavesRegistry(s, k, v);
      case Delete(keys) => DeleteLeavesRegistry(s, keys);
      case Flush => InsertLeavesRegistry(s, [], []);
      case _ =>
    }
  }

  lemma SameAsItself(s: Store)
    ensures SameRegistry(s, s)
  {}

  // ---- Ownership, content addressing, uploads

  ghost predicate Sound(lib: Library, s: Store) {
    s.Owned() && ContentAddressed(lib, s) && UploadsAgree(s)
  }

  /** None of it depends on manifests, tags, the clock or the counters. */
  lemma SoundFrame(lib: Library, s: Store, s': Store)
    requires Sound(lib, s) && SameHoldings(s, s')
    ensures Sound(lib, s')
  {
    assert s'.FilesPresent();
    OwnershipInherited(s, s');
    hide Store.Owned;
    assert forall d :: d in s.blobs ==> s'.BlobBytes(d) == s.BlobBytes(d);
  }

  lemma CommandKeepsSound(lib: Library, s: Store, r: Request)
    requires Sound(lib, s)
    ensures Sound(lib, Apply(s, r).0)
  {
    hide Store.Owned, Apply, Store.Visible, PlainApply;
    ApplyRefinesPlain(s, r);
    CommandLeavesRegistry(s, r);
    var s' := Apply(s, r).0;
    assert forall d :: d in s.blobs ==> s'.BlobBytes(d) == s.BlobBytes(d);
  }

  lemma UnlinkKeepsOwnership(s: Store, id: nat)
    requires s.Owned()
    ensures s.RunUnlink(id).Owned()
  {
    var s' := s.RunUnlink(id);
    assert s'.FilesPresent();
    OwnershipInherited(s, s');
  }

  lemma UnlinkKeepsBytes(s: Store, id: nat)
    requires s.UnlinksAreDead()
    ensures forall d :: d in s.blobs ==> s.RunUnlink(id).BlobBytes(d) == s.BlobBytes(d)
    ensures forall k :: k in s.redis ==> s.RunUnlink(id).RedisValue(k) == s.RedisValue(k)
  {}

  lemma UnlinkKeepsVisible(s: Store, id: nat)
    requires s.UnlinksAreDead()
    ensures s.RunUnlink(id).Visible() == s.Visible()
  {
    hide MapOf, Store.RedisValue;
    UnlinkKeepsBytes(s, id);
  }

  /** A late unlink takes nothing away that anyone can still be served. */
  lemma {:induction false} UnlinkKeepsSound(lib: Library, s: Store, id: nat)
    requires Sound(lib, s)
    ensures Sound(lib, s.RunUnlink(id)) && s.RunUnlink(id).Visible() == s.Visible()
  {
    hide Store.Visible, Store.Owned, Store.BlobBytes;
    UnlinkKeepsOwnership(s, id);
    OwnedUnlinks(s);
    UnlinkKeepsVisible(s, id);
    UnlinkKeepsBytes(s, id);
  }

  lemma OwnedUnlinks(s: Store)
    requires s.Owned()
    ensures s.UnlinksAreDead() && s.FilesPresent()
  {}

  lemma EvictKeepsSound(lib: Library, cfg: Config, s: Store, op: Op, s': Store)
    requires Sound(lib, s) && op.Evict? && CanStep(lib, cfg, s, op, s')
    ensures Sound(lib, s')
  {
    hide Store.Owned, EvictionMachine.IsPass, ManifestsEvolved, RedisEvolved, TagsFollow, UnlinksExplained;
    hide Store.BlobBytes;
    EvictionTheorems.PassEvolves(lib, cfg, s, op.events, op.states, s');
  }

  /** A save writes files for values that are in memory and touches no other file. */
  lemma SaveKeepsBytes(s: Store, disk: map<nat, Bytes>)
    requires s.Owned() && Snapshot.SavedDisk(s, disk)
    ensures var s' := s.(disk := disk);
      && s'.FilesPresent()
      && (forall d :: d in s.blobs ==> s'.BlobBytes(d) == s.BlobBytes(d))
      && (forall k :: k in s.redis ==> s'.RedisValue(k) == s.RedisValue(k))
  {
    forall d | d in s.blobs && s.blobs[d].OnDisk? ensures SameFile(s.disk, disk, s.blobs[d].id) {
      assert !Snapshot.BlobNeeds(s.blobs, s.blobs.Keys, s.blobs[d].id);
    }
    forall k | k in s.redis && s.redis[k].OnDisk? ensures SameFile(s.disk, disk, s.redis[k].id) {
      assert !Snapshot.BlobNeeds(s.blobs, s.blobs.Keys, s.redis[k].id);
    }
  }

  lemma SavedAgain(s: Store, disk: map<nat, Bytes>)
    requires Snapshot.SavedDisk(s, disk)
    ensures Snapshot.SavedDisk(s.(disk := disk), disk)
  {}

  lemma SaveKeepsSound(lib: Library, s: Store, disk: map<nat, Bytes>)
    requires Sound(lib, s) && Snapshot.SavedDisk(s, disk)
    ensures Sound(lib, s.(disk := disk)) && s.(disk := disk).Visible() == s.Visible()
  {
    hide MapOf, Snapshot.SavedDisk, Store.FilesPresent, Store.DistinctIds, Store.BlobBytes, Store.RedisValue;
    SaveKeepsBytes(s, disk);
    OwnershipInherited(s, s.(disk := disk));
  }

  /** An unlink that runs after the save takes no file the snapshot speaks of. */
  lemma UnlinkKeepsSave(s: Store, snap: Snapshot.Snapshot, id: nat)
    requires s.Owned() && Snapshot.IsSave(s, snap, s.disk)
    ensures Snapshot.IsSave(s.RunUnlink(id), snap, s.RunUnlink(id).disk)
  {
    hide Snapshot.Listing;
    UnlinkKeepsSavedDisk(s, id);
    hide Snapshot.SavedDisk, Store.Owned;
  }

  lemma UnlinkKeepsSavedDisk(s: Store, id: nat)
    requires s.Owned() && Snapshot.SavedDisk(s, s.disk)
    ensures Snapshot.SavedDisk(s.RunUnlink(id), s.RunUnlink(id).disk)
  {
    hide Store.DistinctIds, Store.IdsBelowNext, Store.FilesPresent;
  }

  /** A startup from the snapshot of `s` serves what `s` served, under the same tags. */
  lemma RestartKeepsSound(lib: Library, s: Store, snap: Snapshot.Snapshot, now: nat)
    requires Sound(lib, s) && Snapshot.IsSave(s, snap, s.disk)
    ensures var s' := Snapshot.Startup(Snapshot.Decoded(snap), s.disk, now);
      && Sound(lib, s') && s'.Visible() == s.Visible()
      && s'.manifests == s.manifests && s'.tags == s.tags && s'.blobs.Keys == s.blobs.Keys && s'.Exact()
  {
    hide Store.Owned, Snapshot.SavedDisk, Snapshot.Startup, Snapshot.Restarted, Store.BlobBytes, Store.Visible;
    hide Store.Exact;
    hide Snapshot.Listing;
    Snapshot.LoadOfSave(s, snap, s.disk, now);
    Snapshot.RestartServesSameBytes(s, s.disk, now);
    Snapshot.RestartKeepsOwnership(s, s.disk, now);
    RestartedFields(s, s.disk, now);
  }

  lemma RestartedFields(s: Store, disk: map<nat, Bytes>, now: nat)
    ensures var s' := Snapshot.Restarted(s, disk, now);
      s'.manifests == s.manifests && s'.tags == s.tags && s'.uploads == map[] && s'.Exact()
  {
    Snapshot.RestartConserves(s, disk, now);
    hide Snapshot.Restored, Store.Recomputed, Store.Exact;
  }

  predicate SameHoldings(s: Store, s': Store) {
    && s'.blobs == s.blobs && s'.redis == s.redis && s'.disk == s.disk && s'.unlinks == s.unlinks
    && s'.nextId == s.nextId && s'.uploads == s.uploads
  }

  lemma InsertManifestFrame(s: Store, d: Digest, m: Manifest)
    ensures s.InsertManifest(d, m) == s.(manifests := s.manifests[d := m], counters := s.InsertManifest(d, m).counters)
  {
    hide ManifestCharge;
  }

  lemma PushFrame(lib: Library, s: Store, name: Text, reference: Text, mediaType: Text, body: Bytes)
    ensures SameHoldings(s, PutManifest(lib, s, name, reference, mediaType, body))
  {
    hide Store.InsertManifest, Parse, Print;
    InsertManifestFrame(s, lib.sha256(body), Manifest(body, mediaType, s.now, false));
  }

  lemma PullFrame(s: Store, local: bool, name: Text, reference: Text, up: Upstream)
    ensures var s' := GetManifest(s, local, name, reference, up).0;
      SameHoldings(s, s') && s'.tags == s.tags && s.manifests.Keys <= s'.manifests.Keys
  {
    hide Store.InsertManifest, Parse;
    var d := Resolve(s, local, name, reference, up.digest);
    if d.Some? && up.body.Some? {
      InsertManifestFrame(s, d.value, Manifest(up.body.value, up.mediaType, s.now, false));
    }
  }

  lemma ManifestOpsFrame(lib: Library, s: Store, op: Op)
    requires op.Push? || op.Pull? || op.Tick?
    ensures SameHoldings(s, Serve(lib, s, op))
  {
    hide PutManifest, GetManifest;
    match op {
      case Push(name, reference, mediaType, body) => PushFrame(lib, s, name, reference, mediaType, body);
      case Pull(local, name, reference, up) => PullFrame(s, local, name, reference, up);
      case Tick(_) =>
    }
  }

  lemma EmptyIsSound(lib: Library, now: nat)
    ensures Sound(lib, Empty(now))
  {
    assert Empty(now).Owned();
  }

  lemma UploadsKeepSound(lib: Library, s: Store, op: Op)
    requires Sound(lib, s) && (op.Post? || op.Patch? || op.Put? || op.Cancel? || op.FillBlob? || op.ReadBlob?)
    ensures Sound(lib, Serve(lib, s, op))
  {
    hide Store.Owned, ContentAddressed, PostUpload, PatchUpload, PutUpload, Fill, TouchBlob, Store.BlobBytes;
    match op {
      case Post(digest, body, uuid) => PostKeeps(lib, s, digest, body, uuid);
      case Patch(upload, chunk) => PatchKeeps(lib, s, upload, chunk);
      case Put(upload, digest, chunk) => PutKeeps(lib, s, upload, digest, chunk);
      case Cancel(upload) => UploadsDoNotMatter(lib, s, DeleteUpload(s, upload).0.uploads);
      case FillBlob(d, mediaType, chunks, failed) => FillKeeps(lib, s, d, mediaType, chunks, failed);
      case ReadBlob(d, _) =>
        if d in s.blobs {
          TouchBlobKeeps(lib, s, d);
          assert TouchBlob(s, d).uploads == s.uploads by { TouchFrame(s, d); }
        }
    }
  }

  lemma TouchFrame(s: Store, d: Digest)
    requires d in s.blobs
    ensures TouchBlob(s, d) == s.(blobs := TouchBlob(s, d).blobs)
  {}

  lemma {:induction false} StepKeepsSound(lib: Library, cfg: Config, s: Store, op: Op, s': Store)
    requires Sound(lib, s) && CanStep(lib, cfg, s, op, s')
    ensures Sound(lib, s')
  {
    hide Sound;
    match op {
      case Evict(_, _) => EvictKeepsSound(lib, cfg, s, op, s');
      case _ =>
        hide EvictionMachine.IsPass;
        ServeKeepsSound(lib, s, op);
    }
  }

  lemma ServeKeepsSound(lib: Library, s: Store, op: Op)
    requires Sound(lib, s) && !op.Evict?
    ensures Sound(lib, Serve(lib, s, op))
  {
    hide Sound;
    if op.Command? {
      CommandKeepsSound(lib, s, op.request);
    } else if op.Push? || op.Pull? || op.Tick? {
      hide Serve;
      ManifestOpsFrame(lib, s, op);
      SoundFrame(lib, s, Serve(lib, s, op));
    } else if op.Unlink? {
      UnlinkKeepsSound(lib, s, op.id);
    } else {
      hide Serve;
      UploadsKeepSound(lib, s, op);
    }
  }

  // ---- Tags

  ghost predicate TagsSound(s: Store) {
    s.NoDanglingTags() && DigestTagsHonest(s)
  }

  lemma TagsFrame(s: Store, s': Store)
    requires TagsSound(s) && s'.tags == s.tags && s.manifests.Keys <= s'.manifests.Keys
    ensures TagsSound(s')
  {
    hide Parse;
  }

  lemma StoreBlobFrame(s: Store, d: Digest, content: Bytes, mediaType: Text)
    ensures var s' := StoreBlob(s, d, content, mediaType);
      && s'.manifests == s.manifests && s'.tags == s.tags && s'.redis == s.redis && s'.disk == s.disk
      && s'.blobs == s.blobs[d := Blob.InMemory(s.nextId, content, mediaType, s.now)]
  {
    hide BlobCharge;
  }

  /** Only blobs are added and uploads change. */
  predicate OnlyAddsBlobs(s: Store, s': Store) {
    && s'.tags == s.tags && s'.manifests == s.manifests && s'.redis == s.redis && s'.disk == s.disk
    && s.blobs.Keys <= s'.blobs.Keys
  }

  lemma StoreBlobAdds(s: Store, d: Digest, content: Bytes, mediaType: Text)
    ensures OnlyAddsBlobs(s, StoreBlob(s, d, content, mediaType))
  {
    StoreBlobFrame(s, d, content, mediaType);
    hide StoreBlob;
  }

  lemma PutAdds(lib: Library, s: Store, upload: Option<nat>, digest: Option<Text>, chunk: Bytes)
    ensures OnlyAddsBlobs(s, PutUpload(lib, s, upload, digest, chunk).0)
  {
    hide StoreBlob, Parse;
    if upload.Some? && upload.value in s.uploads {
      var u := Extend(s.uploads[upload.value], chunk);
      StoreBlobAdds(s.(uploads := s.uploads - {upload.value}),
                    lib.sha256(s.uploads[upload.value].absorbed + chunk), u.buf, OCTET_STREAM);
    }
  }

  lemma UploadsLeaveTags(lib: Library, s: Store, op: Op)
    requires op.Post? || op.Patch? || op.Put? || op.Cancel? || op.FillBlob? || op.ReadBlob?
    ensures OnlyAddsBlobs(s, Serve(lib, s, op))
  {
    hide StoreBlob, PutUpload, Parse;
    match op {
      case Post(_, body, _) => StoreBlobAdds(s, lib.sha256(body), body, OCTET_STREAM);
      case Put(upload, digest, chunk) => PutAdds(lib, s, upload, digest, chunk);
      case FillBlob(d, mediaType, chunks, _) => StoreBlobAdds(s, d, Concat(chunks), mediaType);
      case _ =>
    }
  }

  lemma OthersLeaveTags(lib: Library, s: Store, op: Op)
    requires !op.Evict? && !op.Push?
    ensures Serve(lib, s, op).tags == s.tags && s.manifests.Keys <= Serve(lib, s, op).manifests.Keys
  {
    match op {
      case Command(r) => hide Apply; CommandLeavesRegistry(s, r);
      case Pull(local, name, reference, up) => hide GetManifest; PullFrame(s, local, name, reference, up);
      case Tick(_) =>
      case Unlink(_) =>
      case _ => hide Serve; UploadsLeaveTags(lib, s, op);
    }
  }

  lemma EvictKeepsTags(lib: Library, cfg: Config, s: Store, op: Op, s': Store)
    requires s.Owned() && TagsSound(s) && op.Evict? && CanStep(lib, cfg, s, op, s')
    ensures TagsSound(s')
  {
    hide Store.Owned, EvictionMachine.IsPass, ManifestsEvolved, RedisEvolved, BlobsEvolved, UnlinksExplained, Parse;
    EvictionTheorems.PassEvolves(lib, cfg, s, op.events, op.states, s');
  }

  lemma {:induction false} StepKeepsTags(lib: Library, cfg: Config, s: Store, op: Op, s': Store)
    requires Sound(lib, s) && TagsSound(s) && CanStep(lib, cfg, s, op, s')
    ensures TagsSound(s')
  {
    hide Sound, TagsSound;
    match op {
      case Evict(_, _) =>
        assert s.Owned() by { SoundIsOwned(lib, s); }
        EvictKeepsTags(lib, cfg, s, op, s');
      case Push(name, reference, mediaType, body) => PushKeepsTags(lib, s, name, reference, mediaType, body);
      case _ =>
        hide Serve, EvictionMachine.IsPass;
        OthersLeaveTags(lib, s, op);
        TagsFrame(s, s');
    }
  }

  lemma SoundIsOwned(lib: Library, s: Store)
    requires Sound(lib, s)
    ensures s.Owned()
  {}

  lemma PushKeepsTags(lib: Library, s: Store, name: Text, reference: Text, mediaType: Text, body: Bytes)
    requires TagsSound(s)
    ensures TagsSound(PutManifest(lib, s, name, reference, mediaType, body))
  {
    hide PutManifest, DigestTagsHonest, Store.NoDanglingTags;
    PutManifestKeepsTags(lib, s, name, reference, mediaType, body);
  }

  lemma NoTags(s: Store)
    requires s.tags == map[]
    ensures TagsSound(s)
  {}

  // ---- Accounting

  /** The counters never fall short of the maps; three of them are always exact. */
  predicate Excess(u: Usage) {
    ZERO.AtMost(u) && u.manifestMemory == 0 && u.largeRedisMemory == 0 && u.redisDisk == 0
  }

  lemma SumsFrame(s: Store, s': Store)
    requires s'.counters == s.counters && s'.redis == s.redis
    requires ManifestCharges(s'.manifests) == ManifestCharges(s.manifests)
    requires BlobCharges(s'.blobs) == BlobCharges(s.blobs)
    ensures s'.Drift() == s.Drift()
  {
    hide Total, ManifestCharges, BlobCharges, RedisCharges, Usage.Plus, Usage.Minus;
  }

  lemma StoreBlobKeepsDrift(s: Store, d: Digest, content: Bytes, mediaType: Text)
    ensures StoreBlob(s, d, content, mediaType).Drift() == s.Drift()
  {
    hide Store.InsertBlob, ManifestCharges, BlobCharges, Store.Recomputed;
    var s1 := s.(nextId := s.nextId + 1);
    InsertBlobKeepsDrift(s1, d, Blob.InMemory(s.nextId, content, mediaType, s.now));
    SumsFrame(s, s1);
  }

  lemma TouchBlobKeepsDrift(s: Store, d: Digest)
    requires d in s.blobs
    ensures TouchBlob(s, d).Drift() == s.Drift()
  {
    hide MapOf, Store.Drift;
    assert BlobCharges(TouchBlob(s, d).blobs) == BlobCharges(s.blobs);
    SumsFrame(s, TouchBlob(s, d));
  }

  lemma TouchManifestKeepsDrift(s: Store, d: Digest)
    requires d in s.manifests
    ensures TouchManifest(s, d).Drift() == s.Drift()
  {
    hide MapOf, Store.Drift;
    assert ManifestCharges(TouchManifest(s, d).manifests) == ManifestCharges(s.manifests);
    SumsFrame(s, TouchManifest(s, d));
  }

  lemma TouchEntryKeepsDrift(s: Store, k: Bytes)
    requires k in s.redis && s.redis[k].InMemory?
    ensures GetEntry(s, k).0.Drift() == s.Drift()
  {
    hide MapOf, Total, Usage.Plus, Usage.Minus;
    assert RedisCharges(GetEntry(s, k).0.redis) == RedisCharges(s.redis);
  }

  lemma GetKeepsDrift(s: Store, k: Bytes)
    ensures GetEntry(s, k).0.Drift() == s.Drift()
  {
    hide Store.Drift, Store.InsertRedis, Store.RemoveRedis;
    if k in s.redis {
      if s.redis[k].InMemory? {
        TouchEntryKeepsDrift(s, k);
      } else if s.redis[k].id in s.disk {
        InsertRedisKeepsDrift(s, k, s.disk[s.redis[k].id]);
      } else {
        RemoveRedisKeepsDrift(s, k);
      }
    }
  }

  lemma {:induction false} DeleteKeepsDrift(s: Store, keys: seq<Bytes>)
    ensures DeleteKeys(s, keys).0.Drift() == s.Drift()
    decreases |keys|
  {
    hide Store.Drift, Store.RemoveRedis;
    if keys != [] {
      DeleteKeepsDrift(s, keys[..|keys| - 1]);
      RemoveRedisKeepsDrift(DeleteKeys(s, keys[..|keys| - 1]).0, keys[|keys| - 1]);
    }
  }

  function WithoutRedis(u: Usage): Usage {
    u.(smallRedisMemory := 0, largeRedisMemory := 0, redisDisk := 0)
  }

  /** Of all the operations the handlers determine, only a flush changes the drift,
      and only towards zero. */
  lemma CommandDrift(s: Store, r: Request)
    ensures Apply(s, r).0.Drift() == if r.Flush? then WithoutRedis(s.Drift()) else s.Drift()
  {
    hide Store.Drift, GetEntry, DeleteKeys, Store.InsertRedis, Store.FlushRedis, CountIn;
    match r {
      case Get(k) => GetKeepsDrift(s, k);
      case Set(k, v) => InsertRedisKeepsDrift(s, k, v);
      case Delete(keys) => DeleteKeepsDrift(s, keys);
      case Flush => FlushRedisClearsRedisDrift(s);
      case _ =>
    }
  }

  lemma OtherFields(s: Store, s': Store)
    requires s'.manifests == s.manifests && s'.blobs == s.blobs && s'.redis == s.redis && s'.counters == s.counters
    ensures s'.Drift() == s.Drift()
  {
    hide ManifestCharges, BlobCharges, Store.Drift;
    SumsFrame(s, s');
  }

  lemma UploadDrift(lib: Library, s: Store, op: Op)
    requires op.Post? || op.Patch? || op.Put? || op.Cancel? || op.FillBlob?
    ensures Serve(lib, s, op).Drift() == s.Drift()
  {
    hide Store.Drift, StoreBlob, Parse;
    match op {
      case Post(digest, body, uuid) =>
        OtherFields(s, s.(uploads := PostUpload(lib, s, None, body, uuid).0.uploads));
        StoreBlobKeepsDrift(s, lib.sha256(body), body, OCTET_STREAM);
      case Patch(upload, chunk) => OtherFields(s, PatchUpload(s, upload, chunk).0);
      case Put(upload, digest, chunk) =>
        if upload.Some? && upload.value in s.uploads {
          var u := Extend(s.uploads[upload.value], chunk);
          var s1 := s.(uploads := s.uploads - {upload.value});
          OtherFields(s, s1);
          OtherFields(s, s.(uploads := s.uploads[upload.value := u]));
          StoreBlobKeepsDrift(s1, lib.sha256(s.uploads[upload.value].absorbed + chunk), u.buf, OCTET_STREAM);
        }
      case Cancel(upload) => OtherFields(s, DeleteUpload(s, upload).0);
      case FillBlob(d, mediaType, chunks, _) => StoreBlobKeepsDrift(s, d, Concat(chunks), mediaType);
    }
  }

  lemma PushDrift(lib: Library, s: Store, name: Text, reference: Text, mediaType: Text, body: Bytes)
    ensures PutManifest(lib, s, name, reference, mediaType, body).Drift() == s.Drift()
  {
    hide Store.Drift, Parse, Print, ManifestCharge;
    var s1 := s.InsertManifest(lib.sha256(body), Manifest(body, mediaType, s.now, false));
    InsertManifestKeepsDrift(s, lib.sha256(body), Manifest(body, mediaType, s.now, false));
    OtherFields(s1, PutManifest(lib, s, name, reference, mediaType, body));
  }

  lemma PullDrift(s: Store, local: bool, name: Text, reference: Text, up: Upstream)
    ensures GetManifest(s, local, name, reference, up).0.Drift() == s.Drift()
  {
    hide Store.Drift, Store.InsertManifest, TouchManifest, Parse;
    var d := Resolve(s, local, name, reference, up.digest);
    if d.Some? {
      if d.value in s.manifests {
        TouchManifestKeepsDrift(s, d.value);
      } else if up.body.Some? {
        InsertManifestKeepsDrift(s, d.value, Manifest(up.body.value, up.mediaType, s.now, false));
      }
    }
  }

  lemma ServeDrift(lib: Library, s: Store, op: Op)
    requires !op.Evict?
    ensures Serve(lib, s, op).Drift() ==
      if op.Command? && op.request.Flush? then WithoutRedis(s.Drift()) else s.Drift()
  {
    hide Store.Drift;
    match op {
      case Command(r) => hide Apply; CommandDrift(s, r);
      case Push(name, reference, mediaType, body) =>
        hide PutManifest;
        PushDrift(lib, s, name, reference, mediaType, body);
      case Pull(local, name, reference, up) => hide GetManifest; PullDrift(s, local, name, reference, up);
      case ReadBlob(d, _) => hide TouchBlob; if d in s.blobs { TouchBlobKeepsDrift(s, d); }
      case Tick(now) => OtherFields(s, s.(now := now));
      case Unlink(id) => OtherFields(s, s.RunUnlink(id));
      case _ => hide Serve; UploadDrift(lib, s, op);
    }
  }

  lemma EmptyDrift(now: nat)
    ensures Empty(now).Exact() && Empty(now).Drift() == ZERO
  {
    EmptyIsZero(Empty(now));
  }

  lemma NoShortfall(counters: Usage, sums: Usage)
    ensures counters == sums ==> counters.Minus(sums) == ZERO
    ensures sums.AtMost(counters) ==> ZERO.AtMost(counters.Minus(sums))
  {}

  lemma EvictExcess(lib: Library, cfg: Config, s: Store, op: Op, s': Store)
    requires s.Owned() && Excess(s.Drift()) && op.Evict? && CanStep(lib, cfg, s, op, s')
    ensures Excess(s'.Drift())
  {
    hide Store.Owned, EvictionMachine.IsPass, Store.Recomputed, Usage.AtMost;
    EvictionUsage.PublishedUsage(lib, cfg, s, op.events, op.states, s');
    NoShortfall(s'.counters, s'.Recomputed());
  }

  lemma {:induction false} StepKeepsExcess(lib: Library, cfg: Config, s: Store, op: Op, s': Store)
    requires Sound(lib, s) && Excess(s.Drift()) && CanStep(lib, cfg, s, op, s')
    ensures Excess(s'.Drift())
  {
    hide Sound, Store.Drift;
    match op {
      case Evict(_, _) =>
        SoundIsOwned(lib, s);
        EvictExcess(lib, cfg, s, op, s');
      case _ =>
        hide Serve, EvictionMachine.IsPass;
        ServeDrift(lib, s, op);
    }
  }

  lemma ExactIsNoDrift(s: Store)
    ensures s.Exact() <==> s.Drift() == ZERO
  {
    hide Store.Recomputed;
  }

  /** Without an eviction pass, exact counters stay exact. */
  lemma StepKeepsExact(lib: Library, cfg: Config, s: Store, op: Op, s': Store)
    requires Sound(lib, s) && s.Exact() && !op.Evict? && CanStep(lib, cfg, s, op, s')
    ensures s'.Exact()
  {
    hide Sound, Store.Drift, Store.Exact;
    ExactIsNoDrift(s);
    ExactIsNoDrift(s');
    hide Serve;
    ServeDrift(lib, s, op);
  }
}
