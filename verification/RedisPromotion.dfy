/** A GET of an on-disk redis value waits for its file and only then puts the value
    back into memory (src/redis.rs:164-188). What may happen while it waits, and
    exactly when it then overwrites or undoes what another operation has done. */
module RedisPromotion {
  import opened Prelude
  import opened DigestText
  import opened UsageSums
  import opened References
  import opened Cache
  import opened EvictionMachine
  import opened EvictionStore
  import opened EvictionInvariant
  import opened EvictionHeaps
  import opened RedisServer
  import opened Uploads
  import opened RunSteps

  // ---- The file of an on-disk entry is never rewritten

  /** No blob and no value in memory has the id `id`, nor will a new one. */
  ghost predicate OffMemory(s: Store, id: nat) {
    && id < s.nextId
    && (forall d :: d in s.blobs ==> s.blobs[d].id != id)
    && (forall k :: k in s.redis && s.redis[k].id == id ==> s.redis[k].OnDisk?)
  }

  /** The file of `id` is as it was or gone. */
  ghost predicate SameOrGone(s: Store, s': Store, id: nat) {
    id in s'.disk ==> id in s.disk && s'.disk[id] == s.disk[id]
  }

  ghost predicate KeepsFile(s: Store, s': Store, id: nat) {
    OffMemory(s, id) ==> OffMemory(s', id) && SameOrGone(s, s', id)
  }

  lemma KeepsFileTwice(s: Store, s1: Store, s2: Store, id: nat)
    requires KeepsFile(s, s1, id) && KeepsFile(s1, s2, id)
    ensures KeepsFile(s, s2, id)
  {
    hide OffMemory;
  }

  lemma KeepsItsFile(s: Store, id: nat)
    ensures KeepsFile(s, s, id)
  {
    hide OffMemory;
  }

  lemma RemoveKeepsFile(s: Store, k: Bytes, id: nat)
    ensures KeepsFile(s, s.RemoveRedis(k), id)
  {
    hide RedisCharge;
  }

  lemma InsertKeepsFile(s: Store, k: Bytes, v: Bytes, id: nat)
    ensures KeepsFile(s, s.InsertRedis(k, v), id)
  {
    hide ValueCharge, KeyCharge;
  }

  lemma TouchKeepsFile(s: Store, k: Bytes, id: nat)
    requires k in s.redis && s.redis[k].InMemory?
    ensures KeepsFile(s, GetEntry(s, k).0, id)
  {}

  lemma GetKeepsFile(s: Store, k: Bytes, id: nat)
    ensures KeepsFile(s, GetEntry(s, k).0, id)
  {
    hide Store.InsertRedis, Store.RemoveRedis, KeepsFile;
    if k !in s.redis {
      KeepsItsFile(s, id);
    } else if s.redis[k].InMemory? {
      TouchKeepsFile(s, k, id);
    } else {
      InsertKeepsFile(s, k, s.RedisValue(k), id);
      RemoveKeepsFile(s, k, id);
    }
  }

  lemma {:induction false} DeleteKeepsFile(s: Store, keys: seq<Bytes>, id: nat)
    ensures KeepsFile(s, DeleteKeys(s, keys).0, id)
    decreases |keys|
  {
    hide KeepsFile, Store.RemoveRedis;
    if keys == [] {
      KeepsItsFile(s, id);
    } else {
      var n := |keys| - 1;
      var before := DeleteKeys(s, keys[..n]).0;
      DeleteKeepsFile(s, keys[..n], id);
      RemoveKeepsFile(before, keys[n], id);
      KeepsFileTwice(s, before, before.RemoveRedis(keys[n]), id);
    }
  }

  lemma FlushKeepsFile(s: Store, id: nat)
    ensures KeepsFile(s, s.FlushRedis(), id)
  {}

  lemma CommandKeepsFile(s: Store, r: Request, id: nat)
    ensures KeepsFile(s, Apply(s, r).0, id)
  {
    hide KeepsFile, GetEntry, DeleteKeys, CountIn, Store.InsertRedis, Store.FlushRedis;
    KeepsItsFile(s, id);
    match r {
      case Get(k) => GetKeepsFile(s, k, id);
      case Set(k, v) => InsertKeepsFile(s, k, v, id);
      case Delete(keys) => DeleteKeepsFile(s, keys, id);
      case Flush => FlushKeepsFile(s, id);
      case _ =>
    }
  }

  lemma StoreBlobKeepsFile(s: Store, d: Digest, content: Bytes, mediaType: Text, id: nat)
    ensures KeepsFile(s, StoreBlob(s, d, content, mediaType), id)
  {
    hide BlobCharge;
  }

  /** Nothing that ids and files depend on is different. */
  lemma FrameKeepsFile(s: Store, s': Store, id: nat)
    requires s'.blobs == s.blobs && s'.redis == s.redis && s'.disk == s.disk && s'.nextId == s.nextId
    ensures KeepsFile(s, s', id)
  {}

  lemma UploadKeepsFile(lib: Library, s: Store, op: Op, id: nat)
    requires op.Post? || op.Patch? || op.Put? || op.Cancel? || op.FillBlob?
    ensures KeepsFile(s, Serve(lib, s, op), id)
  {
    hide KeepsFile, StoreBlob, Parse;
    KeepsItsFile(s, id);
    match op {
      case Post(digest, body, uuid) =>
        StoreBlobKeepsFile(s, lib.sha256(body), body, OCTET_STREAM, id);
        FrameKeepsFile(s, s.(uploads := s.uploads[uuid := Upload([], [])]), id);
      case Patch(upload, chunk) => FrameKeepsFile(s, PatchUpload(s, upload, chunk).0, id);
      case Put(upload, digest, chunk) => PutKeepsFile(lib, s, upload, digest, chunk, id);
      case Cancel(upload) => FrameKeepsFile(s, DeleteUpload(s, upload).0, id);
      case FillBlob(d, mediaType, chunks, _) => StoreBlobKeepsFile(s, d, Concat(chunks), mediaType, id);
    }
  }

  lemma PutKeepsFile(lib: Library, s: Store, upload: Option<nat>, digest: Option<Text>, chunk: Bytes, id: nat)
    ensures KeepsFile(s, PutUpload(lib, s, upload, digest, chunk).0, id)
  {
    hide KeepsFile, StoreBlob, Parse;
    KeepsItsFile(s, id);
    if upload.Some? && upload.value in s.uploads {
      var u := Extend(s.uploads[upload.value], chunk);
      var got := lib.sha256(s.uploads[upload.value].absorbed + chunk);
      var s1 := s.(uploads := s.uploads - {upload.value});
      FrameKeepsFile(s, s1, id);
      FrameKeepsFile(s, s.(uploads := s.uploads[upload.value := u]), id);
      StoreBlobKeepsFile(s1, got, u.buf, OCTET_STREAM, id);
      KeepsFileTwice(s, s1, StoreBlob(s1, got, u.buf, OCTET_STREAM), id);
    }
  }

  lemma ReadBlobKeepsFile(s: Store, d: Digest, head: bool, id: nat)
    ensures KeepsFile(s, GetCachedBlob(s, d, head).0, id)
  {}

  lemma UnlinkKeepsFile(s: Store, gone: nat, id: nat)
    ensures KeepsFile(s, s.RunUnlink(gone), id)
  {}

  // ---- Not even by an eviction pass

  lemma DropManifestKeepsFile(lib: Library, m: Machine, d: Digest, id: nat)
    ensures KeepsFile(m.s, DropManifest(lib, m, d).s, id)
  {
    hide DroppedBk, ToDelete, BlobTotal, ManifestCharge;
  }

  lemma DropRedisKeepsFile(m: Machine, k: Bytes, u: Usage, id: nat)
    ensures KeepsFile(m.s, DropRedis(m, k, u).s, id)
  {
    hide Store.RemoveRedis, KeepsFile;
    RemoveKeepsFile(m.s, k, id);
    KeepsItsFile(m.s, id);
  }

  lemma SpillBlobsKeepsFile(s: Store, w: set<Digest>, id: nat)
    requires s.DistinctIds() && AllLargeInMemory(s, w)
    ensures KeepsFile(s, SpillBlobs(s, w), id)
  {
    hide BlobTotal, MoveCounters, Store.DistinctIds, MapOf;
    var s' := SpillBlobs(s, w);
    assert forall d :: d in s'.blobs ==> d in s.blobs && s'.blobs[d].id == s.blobs[d].id;
    if OffMemory(s, id) {
      assert id !in SpillFiles(s, w);
    }
  }

  lemma SpillManifestKeepsFile(lib: Library, m: Machine, c: Candidate, id: nat)
    requires c.ManifestCandidate? && m.s.DistinctIds() && LargeTierMatches(m)
    ensures KeepsFile(m.s, SpillManifest(lib, m, c).s, id)
  {
    hide KeepsFile, SpilledBk, ToSpill, BlobTotal, Moved, SpillBlobs, LargeTierMatches, Store.DistinctIds;
    hide IsLargeInMemory;
    KeepsItsFile(m.s, id);
    if c.digest in m.s.manifests {
      var man := m.s.manifests[c.digest];
      var refs := ReferencedDigests(lib, man.content);
      var w := ToSpill(m.s, SpilledBk(m.bk, man.evicted, refs), refs);
      var s1 := FlagManifest(m.s, c.digest);
      FrameKeepsFile(m.s, s1, id);
      ToSpillIsLarge(m, man.evicted, refs);
      FlaggedIsDistinct(m.s, c.digest);
      SpillBlobsKeepsFile(s1, w, id);
      KeepsFileTwice(m.s, s1, SpillBlobs(s1, w), id);
    }
  }

  lemma FlaggedIsDistinct(s: Store, d: Digest)
    requires d in s.manifests && s.DistinctIds()
    ensures FlagManifest(s, d).DistinctIds()
  {}

  lemma SpillRedisKeepsFile(m: Machine, c: Candidate, id: nat)
    requires c.RedisCandidate?
    ensures KeepsFile(m.s, SpillRedisCandidate(m, c).s, id)
  {
    hide SaturatingSub;
  }

  lemma PopKeepsFile(lib: Library, m: Machine, ev: Event, id: nat)
    requires m.s.DistinctIds() && LargeTierMatches(m)
    ensures KeepsFile(m.s, Step(lib, m, ev).s, id)
  {
    hide KeepsFile, DropManifest, DropRedis, SpillManifest, SpillRedisCandidate, In, LargeTierMatches;
    hide Store.DistinctIds;
    match ev {
      case PopSmall(c) =>
        var m1 := m.(small := m.small - multiset{c});
        match c {
          case ManifestCandidate(_, d) => DropManifestKeepsFile(lib, m1, d, id);
          case RedisCandidate(_, k, size) => DropRedisKeepsFile(m1, k, In(SmallRedisMemory, size), id);
        }
      case PopLarge(c) =>
        var m1 := m.(large := m.large - multiset{c});
        TierMatchIgnoresHeaps(m, m1);
        match c {
          case ManifestCandidate(_, _) => SpillManifestKeepsFile(lib, m1, c, id);
          case RedisCandidate(_, _, _) => SpillRedisKeepsFile(m1, c, id);
        }
      case PopDisk(c) =>
        var m1 := m.(disk := m.disk - multiset{c});
        match c {
          case ManifestCandidate(_, d) => DropManifestKeepsFile(lib, m1, d, id);
          case RedisCandidate(_, k, size) => DropRedisKeepsFile(m1, k, In(RedisDisk, size), id);
        }
    }
  }

  lemma {:induction false} TraceKeepsFile(
      lib: Library, cfg: Config, s0: Store, events: seq<Event>, states: seq<Machine>, n: nat, id: nat)
    requires IsTrace(lib, cfg, s0, events, states) && n <= |events|
    ensures KeepsFile(s0, states[n].s, id)
  {
    hide KeepsFile, Step, Enabled, LargeTierMatches, Store.DistinctIds, InitialBk, Store.Recomputed;
    hide SmallCandidates, LargeCandidates, DiskCandidates;
    if n == 0 {
      KeepsItsFile(s0, id);
    } else {
      TraceKeepsFile(lib, cfg, s0, events, states, n - 1, id);
      TraceAt(lib, cfg, s0, events, states, n - 1);
      PopKeepsFile(lib, states[n - 1], events[n - 1], id);
      KeepsFileTwice(s0, states[n - 1].s, states[n].s, id);
    }
  }

  lemma FinishKeepsFile(m: Machine, id: nat)
    ensures KeepsFile(m.s, Finish(m), id)
  {
    hide ToSweep, BlobTotal;
  }

  lemma PassKeepsFile(
      lib: Library, cfg: Config, s0: Store, events: seq<Event>, states: seq<Machine>, s1: Store, id: nat)
    requires IsPass(lib, cfg, s0, events, states, s1)
    ensures KeepsFile(s0, s1, id)
  {
    hide KeepsFile, TraceStep, Initial, Done, Finish;
    TraceKeepsFile(lib, cfg, s0, events, states, |events|, id);
    FinishKeepsFile(states[|events|], id);
    KeepsFileTwice(s0, states[|events|].s, s1, id);
  }

  /** Whatever happens, the file of an on-disk entry keeps its bytes until it is removed. */
  lemma {:induction false} StepKeepsFile(lib: Library, cfg: Config, s: Store, op: Op, s': Store, id: nat)
    requires CanStep(lib, cfg, s, op, s')
    ensures KeepsFile(s, s', id)
  {
    hide KeepsFile, IsPass, Apply, PutManifest, GetManifest, GetCachedBlob, Store.RunUnlink;
    match op {
      case Evict(events, states) => PassKeepsFile(lib, cfg, s, events, states, s', id);
      case Command(r) => CommandKeepsFile(s, r, id);
      case ReadBlob(d, head) => ReadBlobKeepsFile(s, d, head, id);
      case Unlink(gone) => UnlinkKeepsFile(s, gone, id);
      case Tick(_) => FrameKeepsFile(s, s', id);
      case Push(_, _, _, _) => ManifestOpsFrame(lib, s, op); FrameKeepsFile(s, s', id);
      case Pull(_, _, _, _) => ManifestOpsFrame(lib, s, op); FrameKeepsFile(s, s', id);
      case _ => UploadKeepsFile(lib, s, op, id);
    }
  }

  // ---- A GET that waits

  /** What other connections, handlers and passes do while a GET waits. */
  ghost predicate Meanwhile(lib: Library, cfg: Config, ops: seq<Op>, stores: seq<Store>) {
    && |stores| == |ops| + 1
    && forall i :: 0 <= i < |ops| ==> CanStep(lib, cfg, stores[i], ops[i], stores[i + 1])
  }

  lemma MeanwhileAt(lib: Library, cfg: Config, ops: seq<Op>, stores: seq<Store>, i: nat)
    requires Meanwhile(lib, cfg, ops, stores) && i < |ops|
    ensures CanStep(lib, cfg, stores[i], ops[i], stores[i + 1])
  {
    hide CanStep;
  }

  lemma {:induction false} MeanwhileKeeps(
      lib: Library, cfg: Config, ops: seq<Op>, stores: seq<Store>, i: nat, id: nat)
    requires Meanwhile(lib, cfg, ops, stores) && i <= |ops| && Sound(lib, stores[0])
    ensures Sound(lib, stores[i]) && KeepsFile(stores[0], stores[i], id)
  {
    hide CanStep, Sound, KeepsFile;
    if i == 0 {
      KeepsItsFile(stores[0], id);
    } else {
      MeanwhileKeeps(lib, cfg, ops, stores, i - 1, id);
      MeanwhileAt(lib, cfg, ops, stores, i - 1);
      StepKeepsSound(lib, cfg, stores[i - 1], ops[i - 1], stores[i]);
      StepKeepsFile(lib, cfg, stores[i - 1], ops[i - 1], stores[i], id);
      KeepsFileTwice(stores[0], stores[i - 1], stores[i], id);
    }
  }

  lemma OnDiskIsOffMemory(s: Store, k: Bytes)
    requires s.Owned() && k in s.redis && s.redis[k].OnDisk?
    ensures var id := s.redis[k].id;
      OffMemory(s, id) && ReadFile(s, id) == Some(s.Visible()[k])
  {}

  lemma LiveFileIsThere(s: Store, k: Bytes, id: nat)
    requires s.Owned() && OffMemory(s, id) && k in s.redis && s.redis[k].id == id
    ensures ReadFile(s, id).Some?
  {}

  /** Whenever the read happens it returns the value the key had when the GET began, or
      an error; and an error only if the key's entry is no longer the one it was. */
  lemma {:induction false} ReadIsOldOrGone(
      lib: Library, cfg: Config, ops: seq<Op>, stores: seq<Store>, k: Bytes, i: nat)
    requires Meanwhile(lib, cfg, ops, stores) && i <= |ops| && Sound(lib, stores[0])
    requires k in stores[0].redis && stores[0].redis[k].OnDisk?
    ensures var id := stores[0].redis[k].id;
      match ReadFile(stores[i], id)
      case Some(v) => v == stores[0].Visible()[k]
      case None => k !in stores[i].redis || stores[i].redis[k].id != id
  {
    hide CanStep, Meanwhile, Store.Visible, ContentAddressed, UploadsAgree, OffMemory, Store.Owned;
    MeanwhileLength(lib, cfg, ops, stores);
    var id := stores[0].redis[k].id;
    OnDiskIsOffMemory(stores[0], k);
    MeanwhileKeeps(lib, cfg, ops, stores, i, id);
    if k in stores[i].redis && stores[i].redis[k].id == id {
      LiveFileIsThere(stores[i], k, id);
    }
  }

  lemma MeanwhileLength(lib: Library, cfg: Config, ops: seq<Op>, stores: seq<Store>)
    requires Meanwhile(lib, cfg, ops, stores)
    ensures |stores| == |ops| + 1
  {}

  /** What the end of a GET does to the visible map: it sets or removes its own key. */
  lemma FinishActs(s: Store, k: Bytes, read: Option<Bytes>)
    requires s.Owned()
    ensures FinishGet(s, k, read).0.Owned()
    ensures FinishGet(s, k, read).0.Visible() ==
      match read case Some(v) => s.Visible()[k := v] case None => s.Visible() - {k}
  {
    hide Store.Owned, Store.InsertRedis, Store.RemoveRedis, Store.Visible;
    match read {
      case Some(v) =>
        InsertRedisKeepsOwnership(s, k, v);
        InsertRedisVisible(s, k, v);
      case None =>
        RemoveRedisKeepsOwnership(s, k);
        RemoveRedisVisible(s, k);
    }
  }

  lemma PutChangesIff(m: map<Bytes, Bytes>, k: Bytes, v: Bytes)
    ensures m[k := v] - {k} == m - {k}
    ensures m[k := v] == m <==> k in m && m[k] == v
  {
    assert m[k := v][k] == v;
  }

  lemma TakeChangesIff(m: map<Bytes, Bytes>, k: Bytes)
    ensures m - {k} - {k} == m - {k}
    ensures m - {k} == m <==> k !in m
  {
    assert k !in m - {k};
  }

  /** A GET that read its file in `stores[i]` and ends in `stores[n]` answers the value
      from its start, or nil, and leaves every other key alone. It overwrites or undoes
      what others have done to its own key exactly if, by the end, the key's visible
      value is not what the GET read. */
  lemma {:induction false} GetLosesUpdateIff(
      lib: Library, cfg: Config, ops: seq<Op>, stores: seq<Store>, k: Bytes, i: nat, n: nat)
    requires Meanwhile(lib, cfg, ops, stores) && i <= n <= |ops| && Sound(lib, stores[0])
    requires k in stores[0].redis && stores[0].redis[k].OnDisk?
    ensures var before, now := stores[0].Visible()[k], stores[n].Visible();
      var read := ReadFile(stores[i], stores[0].redis[k].id);
      var done := FinishGet(stores[n], k, read);
      && done.0.Owned() && done.0.Visible() - {k} == now - {k}
      && done.1 == (if read.Some? then Payload(before) else Nil)
      && (done.0.Visible() == now <==> if read.Some? then k in now && now[k] == before else k !in now)
  {
    hide CanStep, Meanwhile, Store.Visible, Store.Owned, ContentAddressed, UploadsAgree, KeepsFile;
    hide Store.InsertRedis, Store.RemoveRedis;
    MeanwhileLength(lib, cfg, ops, stores);
    var id := stores[0].redis[k].id;
    var read := ReadFile(stores[i], id);
    ReadIsOldOrGone(lib, cfg, ops, stores, k, i);
    MeanwhileKeeps(lib, cfg, ops, stores, n, id);
    FinishActs(stores[n], k, read);
    PutChangesIff(stores[n].Visible(), k, stores[0].Visible()[k]);
    TakeChangesIff(stores[n].Visible(), k);
  }

  /** If the key still has its entry when the GET ends, the GET is as good as atomic. */
  lemma {:induction false} UndisturbedGetLosesNothing(
      lib: Library, cfg: Config, ops: seq<Op>, stores: seq<Store>, k: Bytes, i: nat, n: nat)
    requires Meanwhile(lib, cfg, ops, stores) && i <= n <= |ops| && Sound(lib, stores[0])
    requires k in stores[0].redis && stores[0].redis[k].OnDisk?
    requires k in stores[n].redis && stores[n].redis[k].id == stores[0].redis[k].id
    ensures var done := FinishGet(stores[n], k, ReadFile(stores[i], stores[0].redis[k].id));
      done.0.Visible() == stores[n].Visible() && done.1 == Payload(stores[0].Visible()[k])
  {
    hide CanStep, Meanwhile, Store.Visible, Store.Owned, ContentAddressed, UploadsAgree, OffMemory, FinishGet;
    MeanwhileLength(lib, cfg, ops, stores);
    var id := stores[0].redis[k].id;
    OnDiskIsOffMemory(stores[0], k);
    MeanwhileKeeps(lib, cfg, ops, stores, i, id);
    MeanwhileKeeps(lib, cfg, ops, stores, n, id);
    LiveFileIsThere(stores[n], k, id);
    ReadIsOldOrGone(lib, cfg, ops, stores, k, n);
    StillThere(lib, cfg, ops, stores, i, n, id);
    GetLosesUpdateIff(lib, cfg, ops, stores, k, i, n);
    OnDiskValue(stores[n], k, id);
  }

  lemma OnDiskValue(s: Store, k: Bytes, id: nat)
    requires s.Owned() && OffMemory(s, id) && k in s.redis && s.redis[k].id == id
    ensures ReadFile(s, id) == Some(s.Visible()[k])
  {}

  /** A file that is there later was there before. */
  lemma {:induction false} StillThere(
      lib: Library, cfg: Config, ops: seq<Op>, stores: seq<Store>, i: nat, n: nat, id: nat)
    requires Meanwhile(lib, cfg, ops, stores) && i <= n <= |ops| && OffMemory(stores[i], id)
    ensures OffMemory(stores[n], id) && SameOrGone(stores[i], stores[n], id)
    decreases n
  {
    hide CanStep, OffMemory;
    if i < n {
      StillThere(lib, cfg, ops, stores, i, n - 1, id);
      MeanwhileAt(lib, cfg, ops, stores, n - 1);
      StepKeepsFile(lib, cfg, stores[n - 1], ops[n - 1], stores[n], id);
    }
  }

  // ---- Updates that are lost

  /** A SET by another connection after the read is overwritten with the old value. */
  lemma {:induction false} SetIsOverwritten(lib: Library, cfg: Config, s: Store, k: Bytes, v: Bytes)
    requires Sound(lib, s) && k in s.redis && s.redis[k].OnDisk? && v != s.Visible()[k]
    ensures var s' := Apply(s, Set(k, v)).0;
      && Meanwhile(lib, cfg, [Command(Set(k, v))], [s, s']) && s'.Visible()[k] == v
      && FinishGet(s', k, ReadFile(s, s.redis[k].id)).0.Visible() == s'.Visible()[k := s.Visible()[k]]
  {
    hide Store.InsertRedis, Store.Visible, Store.Owned, ContentAddressed, UploadsAgree;
    InsertRedisKeepsOwnership(s, k, v);
    InsertRedisVisible(s, k, v);
    OnDiskIsOffMemory(s, k);
    FinishActs(s.InsertRedis(k, v), k, ReadFile(s, s.redis[k].id));
  }

  /** Two GETs of one on-disk key: the first puts the value back into memory and has the
      file removed; the second then fails to read it and removes the key, although
      nobody has deleted or evicted it. */
  lemma {:induction false} SecondGetForgetsTheKey(lib: Library, cfg: Config, s: Store, k: Bytes)
    requires Sound(lib, s) && k in s.redis && s.redis[k].OnDisk?
    ensures var id := s.redis[k].id;
      var s1 := Apply(s, Get(k)).0;
      var s2 := s1.RunUnlink(id);
      var done := FinishGet(s2, k, ReadFile(s2, id));
      && Meanwhile(lib, cfg, [Command(Get(k)), Unlink(id)], [s, s1, s2])
      && s2.Visible() == s.Visible() && done.1 == Nil && done.0.Visible() == s.Visible() - {k}
  {
    hide Store.Visible, Store.Owned, ContentAddressed, UploadsAgree, GetEntry, Store.UnlinksAreDead;
    var id := s.redis[k].id;
    var s1 := Apply(s, Get(k)).0;
    var s2 := s1.RunUnlink(id);
    GetRefines(s, k);
    PromotionUnlinks(s, k);
    UnlinkKeepsOwnership(s1, id);
    OwnedUnlinks(s1);
    UnlinkKeepsVisible(s1, id);
    UnlinkTakesFile(s1, id);
    FinishActs(s2, k, None);
  }

  lemma PromotionUnlinks(s: Store, k: Bytes)
    requires s.Owned() && k in s.redis && s.redis[k].OnDisk?
    ensures s.redis[k].id in GetEntry(s, k).0.unlinks
  {
    hide ValueCharge, KeyCharge;
  }

  lemma UnlinkTakesFile(s: Store, id: nat)
    requires id in s.unlinks
    ensures id !in s.RunUnlink(id).disk
  {}
}
