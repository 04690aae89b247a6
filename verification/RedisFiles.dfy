/** No file of a redis value is forgotten: it belongs to an entry, or a task that will
    remove it is under way (src/state.rs:305-373). */
module RedisFiles {
  import opened Prelude
  import opened DigestText
  import opened UsageSums
  import opened References
  import opened Cache
  import opened EvictionMachine
  import opened EvictionStore
  import opened EvictionInvariant
  import opened EvictionHeaps
  import opened RedisServer
  import opened Uploads
  import opened RunSteps
  import RedisPromotion

  /** `id` is taken, no blob has it, and its file, if there is one, belongs to a redis value
      on disk or is about to be removed. */
  ghost predicate Tracked(s: Store, id: nat) {
    && id < s.nextId && (forall d :: d in s.blobs ==> s.blobs[d].id != id)
    && (id in s.disk ==> id in s.unlinks || exists k :: HoldsFile(s, k, id))
  }

  predicate HoldsFile(s: Store, k: Bytes, id: nat) {
    k in s.redis && s.redis[k].OnDisk? && s.redis[k].id == id
  }

  ghost predicate KeepsTrack(s: Store, s': Store, id: nat) {
    Tracked(s, id) ==> Tracked(s', id)
  }

  /** What it takes for `id` to stay tracked. */
  ghost predicate Follows(s: Store, s': Store, id: nat) {
    && s.nextId <= s'.nextId
    && (forall d :: d in s'.blobs ==>
          (d in s.blobs && s'.blobs[d].id == s.blobs[d].id) || s'.blobs[d].id >= s.nextId)
    && (id in s'.disk ==> id in s.disk || exists k :: HoldsFile(s', k, id))
    && (id in s.unlinks ==> id in s'.unlinks || id !in s'.disk)
    && (forall k :: HoldsFile(s, k, id) ==> HoldsFile(s', k, id) || id in s'.unlinks)
  }

  lemma FollowsKeepsTrack(s: Store, s': Store, id: nat)
    requires Follows(s, s', id)
    ensures KeepsTrack(s, s', id)
  {
    hide HoldsFile;
  }

  lemma KeepsTrackTwice(s: Store, s1: Store, s2: Store, id: nat)
    requires KeepsTrack(s, s1, id) && KeepsTrack(s1, s2, id)
    ensures KeepsTrack(s, s2, id)
  {
    hide Tracked;
  }

  lemma KeepsItsTrack(s: Store, id: nat)
    ensures KeepsTrack(s, s, id)
  {
    hide Tracked;
  }

  lemma RemoveKeepsTrack(s: Store, k: Bytes, id: nat)
    ensures KeepsTrack(s, s.RemoveRedis(k), id)
  {
    hide RedisCharge, KeepsTrack;
    assert Follows(s, s.RemoveRedis(k), id);
    FollowsKeepsTrack(s, s.RemoveRedis(k), id);
  }

  lemma InsertKeepsTrack(s: Store, k: Bytes, v: Bytes, id: nat)
    ensures KeepsTrack(s, s.InsertRedis(k, v), id)
  {
    hide ValueCharge, KeyCharge, KeepsTrack;
    assert Follows(s, s.InsertRedis(k, v), id);
    FollowsKeepsTrack(s, s.InsertRedis(k, v), id);
  }

  lemma TouchKeepsTrack(s: Store, k: Bytes, id: nat)
    requires k in s.redis && s.redis[k].InMemory?
    ensures KeepsTrack(s, GetEntry(s, k).0, id)
  {
    hide KeepsTrack;
    assert Follows(s, GetEntry(s, k).0, id);
    FollowsKeepsTrack(s, GetEntry(s, k).0, id);
  }

  lemma GetKeepsTrack(s: Store, k: Bytes, id: nat)
    ensures KeepsTrack(s, GetEntry(s, k).0, id)
  {
    hide Store.InsertRedis, Store.RemoveRedis, KeepsTrack;
    if k !in s.redis {
      KeepsItsTrack(s, id);
    } else if s.redis[k].InMemory? {
      TouchKeepsTrack(s, k, id);
    } else {
      InsertKeepsTrack(s, k, s.RedisValue(k), id);
      RemoveKeepsTrack(s, k, id);
    }
  }

  lemma {:induction false} DeleteKeepsTrack(s: Store, keys: seq<Bytes>, id: nat)
    ensures KeepsTrack(s, DeleteKeys(s, keys).0, id)
    decreases |keys|
  {
    hide KeepsTrack, Store.RemoveRedis;
    if keys == [] {
      KeepsItsTrack(s, id);
    } else {
      var n := |keys| - 1;
      var before := DeleteKeys(s, keys[..n]).0;
      DeleteKeepsTrack(s, keys[..n], id);
      RemoveKeepsTrack(before, keys[n], id);
      KeepsTrackTwice(s, before, before.RemoveRedis(keys[n]), id);
    }
  }

  lemma FlushKeepsTrack(s: Store, id: nat)
    ensures KeepsTrack(s, s.FlushRedis(), id)
  {
    hide KeepsTrack;
    assert Follows(s, s.FlushRedis(), id);
    FollowsKeepsTrack(s, s.FlushRedis(), id);
  }

  lemma CommandKeepsTrack(s: Store, r: Request, id: nat)
    ensures KeepsTrack(s, Apply(s, r).0, id)
  {
    hide KeepsTrack, GetEntry, DeleteKeys, CountIn, Store.InsertRedis, Store.FlushRedis;
    KeepsItsTrack(s, id);
    match r {
      case Get(k) => GetKeepsTrack(s, k, id);
      case Set(k, v) => InsertKeepsTrack(s, k, v, id);
      case Delete(keys) => DeleteKeepsTrack(s, keys, id);
      case Flush => FlushKeepsTrack(s, id);
      case _ =>
    }
  }

  lemma StoreBlobKeepsTrack(s: Store, d: Digest, content: Bytes, mediaType: Text, id: nat)
    ensures KeepsTrack(s, StoreBlob(s, d, content, mediaType), id)
  {
    hide BlobCharge, KeepsTrack;
    assert Follows(s, StoreBlob(s, d, content, mediaType), id);
    FollowsKeepsTrack(s, StoreBlob(s, d, content, mediaType), id);
  }

  /** Nothing that ids and files depend on is different. */
  lemma FrameKeepsTrack(s: Store, s': Store, id: nat)
    requires s'.blobs == s.blobs && s'.redis == s.redis && s'.disk == s.disk && s'.nextId == s.nextId
    requires s'.unlinks == s.unlinks
    ensures KeepsTrack(s, s', id)
  {
    hide KeepsTrack;
    FollowsKeepsTrack(s, s', id);
  }

  lemma UploadKeepsTrack(lib: Library, s: Store, op: Op, id: nat)
    requires op.Post? || op.Patch? || op.Put? || op.Cancel? || op.FillBlob?
    ensures KeepsTrack(s, Serve(lib, s, op), id)
  {
    hide KeepsTrack, StoreBlob, Parse;
    KeepsItsTrack(s, id);
    match op {
      case Post(digest, body, uuid) =>
        StoreBlobKeepsTrack(s, lib.sha256(body), body, OCTET_STREAM, id);
        FrameKeepsTrack(s, s.(uploads := s.uploads[uuid := Upload([], [])]), id);
      case Patch(upload, chunk) => FrameKeepsTrack(s, PatchUpload(s, upload, chunk).0, id);
      case Put(upload, digest, chunk) => PutKeepsTrack(lib, s, upload, digest, chunk, id);
      case Cancel(upload) => FrameKeepsTrack(s, DeleteUpload(s, upload).0, id);
      case FillBlob(d, mediaType, chunks, _) => StoreBlobKeepsTrack(s, d, Concat(chunks), mediaType, id);
    }
  }

  lemma PutKeepsTrack(lib: Library, s: Store, upload: Option<nat>, digest: Option<Text>, chunk: Bytes, id: nat)
    ensures KeepsTrack(s, PutUpload(lib, s, upload, digest, chunk).0, id)
  {
    hide KeepsTrack, StoreBlob, Parse;
    KeepsItsTrack(s, id);
    if upload.Some? && upload.value in s.uploads {
      var u := Extend(s.uploads[upload.value], chunk);
      var got := lib.sha256(s.uploads[upload.value].absorbed + chunk);
      var s1 := s.(uploads := s.uploads - {upload.value});
      FrameKeepsTrack(s, s1, id);
      FrameKeepsTrack(s, s.(uploads := s.uploads[upload.value := u]), id);
      StoreBlobKeepsTrack(s1, got, u.buf, OCTET_STREAM, id);
      KeepsTrackTwice(s, s1, StoreBlob(s1, got, u.buf, OCTET_STREAM), id);
    }
  }

  lemma ReadBlobKeepsTrack(s: Store, d: Digest, head: bool, id: nat)
    ensures KeepsTrack(s, GetCachedBlob(s, d, head).0, id)
  {
    hide KeepsTrack;
    assert Follows(s, GetCachedBlob(s, d, head).0, id);
    FollowsKeepsTrack(s, GetCachedBlob(s, d, head).0, id);
  }

  lemma UnlinkKeepsTrack(s: Store, gone: nat, id: nat)
    ensures KeepsTrack(s, s.RunUnlink(gone), id)
  {
    hide KeepsTrack;
    FollowsKeepsTrack(s, s.RunUnlink(gone), id);
  }

  // ---- Eviction passes

  lemma DropManifestKeepsTrack(lib: Library, m: Machine, d: Digest, id: nat)
    ensures KeepsTrack(m.s, DropManifest(lib, m, d).s, id)
  {
    hide DroppedBk, ToDelete, BlobTotal, ManifestCharge, KeepsTrack;
    assert Follows(m.s, DropManifest(lib, m, d).s, id);
    FollowsKeepsTrack(m.s, DropManifest(lib, m, d).s, id);
  }

  lemma DropRedisKeepsTrack(m: Machine, k: Bytes, u: Usage, id: nat)
    ensures KeepsTrack(m.s, DropRedis(m, k, u).s, id)
  {
    hide Store.RemoveRedis, KeepsTrack;
    RemoveKeepsTrack(m.s, k, id);
    KeepsItsTrack(m.s, id);
  }

  lemma SpillBlobsKeepsTrack(s: Store, w: set<Digest>, id: nat)
    requires s.DistinctIds() && AllLargeInMemory(s, w)
    ensures KeepsTrack(s, SpillBlobs(s, w), id)
  {
    hide BlobTotal, MoveCounters, Store.DistinctIds, MapOf;
    var s' := SpillBlobs(s, w);
    assert forall d :: d in s'.blobs ==> d in s.blobs && s'.blobs[d].id == s.blobs[d].id;
    if Tracked(s, id) {
      assert id !in SpillFiles(s, w);
      FollowsKeepsTrack(s, s', id);
    }
  }

  lemma SpillManifestKeepsTrack(lib: Library, m: Machine, c: Candidate, id: nat)
    requires c.ManifestCandidate? && m.s.DistinctIds() && LargeTierMatches(m)
    ensures KeepsTrack(m.s, SpillManifest(lib, m, c).s, id)
  {
    hide KeepsTrack, SpilledBk, ToSpill, BlobTotal, Moved, SpillBlobs, LargeTierMatches, Store.DistinctIds;
    hide IsLargeInMemory;
    KeepsItsTrack(m.s, id);
    if c.digest in m.s.manifests {
      var man := m.s.manifests[c.digest];
      var refs := ReferencedDigests(lib, man.content);
      var w := ToSpill(m.s, SpilledBk(m.bk, man.evicted, refs), refs);
      var s1 := FlagManifest(m.s, c.digest);
      FrameKeepsTrack(m.s, s1, id);
      ToSpillIsLarge(m, man.evicted, refs);
      FlaggedIsDistinct(m.s, c.digest);
      SpillBlobsKeepsTrack(s1, w, id);
      KeepsTrackTwice(m.s, s1, SpillBlobs(s1, w), id);
    }
  }

  lemma FlaggedIsDistinct(s: Store, d: Digest)
    requires d in s.manifests && s.DistinctIds()
    ensures FlagManifest(s, d).DistinctIds()
  {}

  lemma SpillRedisKeepsTrack(m: Machine, c: Candidate, id: nat)
    requires c.RedisCandidate?
    ensures KeepsTrack(m.s, SpillRedisCandidate(m, c).s, id)
  {
    hide SaturatingSub, KeepsTrack;
    var s' := SpillRedisCandidate(m, c).s;
    assert c.key in m.s.redis && m.s.redis[c.key].InMemory? ==> HoldsFile(s', c.key, m.s.redis[c.key].id);
    FollowsKeepsTrack(m.s, s', id);
  }

  lemma PopKeepsTrack(lib: Library, m: Machine, ev: Event, id: nat)
    requires m.s.DistinctIds() && LargeTierMatches(m)
    ensures KeepsTrack(m.s, Step(lib, m, ev).s, id)
  {
    hide KeepsTrack, DropManifest, DropRedis, SpillManifest, SpillRedisCandidate, In, LargeTierMatches;
    hide Store.DistinctIds;
    match ev {
      case PopSmall(c) =>
        var m1 := m.(small := m.small - multiset{c});
        match c {
          case ManifestCandidate(_, d) => DropManifestKeepsTrack(lib, m1, d, id);
          case RedisCandidate(_, k, size) => DropRedisKeepsTrack(m1, k, In(SmallRedisMemory, size), id);
        }
      case PopLarge(c) =>
        var m1 := m.(large := m.large - multiset{c});
        TierMatchIgnoresHeaps(m, m1);
        match c {
          case ManifestCandidate(_, _) => SpillManifestKeepsTrack(lib, m1, c, id);
          case RedisCandidate(_, _, _) => SpillRedisKeepsTrack(m1, c, id);
        }
      case PopDisk(c) =>
        var m1 := m.(disk := m.disk - multiset{c});
        match c {
          case ManifestCandidate(_, d) => DropManifestKeepsTrack(lib, m1, d, id);
          case RedisCandidate(_, k, size) => DropRedisKeepsTrack(m1, k, In(RedisDisk, size), id);
        }
    }
  }

  lemma {:induction false} TraceKeepsTrack(
      lib: Library, cfg: Config, s0: Store, events: seq<Event>, states: seq<Machine>, n: nat, id: nat)
    requires IsTrace(lib, cfg, s0, events, states) && n <= |events|
    ensures KeepsTrack(s0, states[n].s, id)
  {
    hide KeepsTrack, Step, Enabled, LargeTierMatches, Store.DistinctIds, InitialBk, Store.Recomputed;
    hide SmallCandidates, LargeCandidates, DiskCandidates;
    if n == 0 {
      KeepsItsTrack(s0, id);
    } else {
      TraceKeepsTrack(lib, cfg, s0, events, states, n - 1, id);
      TraceAt(lib, cfg, s0, events, states, n - 1);
      PopKeepsTrack(lib, states[n - 1], events[n - 1], id);
      KeepsTrackTwice(s0, states[n - 1].s, states[n].s, id);
    }
  }

  lemma FinishKeepsTrack(m: Machine, id: nat)
    ensures KeepsTrack(m.s, Finish(m), id)
  {
    hide ToSweep, BlobTotal, KeepsTrack;
    assert Follows(m.s, Finish(m), id);
    FollowsKeepsTrack(m.s, Finish(m), id);
  }

  lemma PassKeepsTrack(
      lib: Library, cfg: Config, s0: Store, events: seq<Event>, states: seq<Machine>, s1: Store, id: nat)
    requires IsPass(lib, cfg, s0, events, states, s1)
    ensures KeepsTrack(s0, s1, id)
  {
    hide KeepsTrack, TraceStep, Initial, Done, Finish;
    TraceKeepsTrack(lib, cfg, s0, events, states, |events|, id);
    FinishKeepsTrack(states[|events|], id);
    KeepsTrackTwice(s0, states[|events|].s, s1, id);
  }

  /** Whatever happens to a tracked id, it stays tracked. */
  lemma {:induction false} StepKeepsTrack(lib: Library, cfg: Config, s: Store, op: Op, s': Store, id: nat)
    requires CanStep(lib, cfg, s, op, s')
    ensures KeepsTrack(s, s', id)
  {
    hide KeepsTrack, IsPass, Apply, PutManifest, GetManifest, GetCachedBlob, Store.RunUnlink;
    match op {
      case Evict(events, states) => PassKeepsTrack(lib, cfg, s, events, states, s', id);
      case Command(r) => CommandKeepsTrack(s, r, id);
      case ReadBlob(d, head) => ReadBlobKeepsTrack(s, d, head, id);
      case Unlink(gone) => UnlinkKeepsTrack(s, gone, id);
      case Tick(_) => FrameKeepsTrack(s, s', id);
      case Push(_, _, _, _) => ManifestOpsFrame(lib, s, op); FrameKeepsTrack(s, s', id);
      case Pull(_, _, _, _) => ManifestOpsFrame(lib, s, op); FrameKeepsTrack(s, s', id);
      case _ => UploadKeepsTrack(lib, s, op, id);
    }
  }

  lemma OnDiskIsTracked(s: Store, k: Bytes)
    requires s.Owned() && k in s.redis && s.redis[k].OnDisk?
    ensures Tracked(s, s.redis[k].id)
  {
    assert HoldsFile(s, k, s.redis[k].id);
  }

  /** Through any sequence of operations of a serving process, eviction passes included: the
      file a redis value once had is gone, or still that of a value, or a task that will
      remove it is under way. */
  lemma {:induction false} NoFileIsForgotten(
      lib: Library, cfg: Config, ops: seq<Op>, stores: seq<Store>, k: Bytes, i: nat)
    requires RedisPromotion.Meanwhile(lib, cfg, ops, stores) && i <= |ops| && stores[0].Owned()
    requires k in stores[0].redis && stores[0].redis[k].OnDisk?
    ensures Tracked(stores[i], stores[0].redis[k].id)
  {
    hide CanStep, Store.Owned, Tracked;
    if i == 0 {
      OnDiskIsTracked(stores[0], k);
    } else {
      NoFileIsForgotten(lib, cfg, ops, stores, k, i - 1);
      RedisPromotion.MeanwhileAt(lib, cfg, ops, stores, i - 1);
      StepKeepsTrack(lib, cfg, stores[i - 1], ops[i - 1], stores[i], stores[0].redis[k].id);
    }
  }
}
