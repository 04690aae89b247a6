/** The registry handlers (src/docker.rs) that put blobs and manifests into the
    cache or serve them from it. Requests arrive parsed: a digest parameter is
    still text, an upload id is `None` when it was not a UUID. */
module Uploads {
  import opened Prelude
  import opened DigestText
  import opened UsageSums
  import opened References
  import opened Cache
  import opened CacheState
  import opened EvictionStore

  datatype Response =
    | Created(digest: Digest)
    | Accepted(uuid: nat, end: nat)
    | NoContent
    | Served(content: Bytes, mediaType: Text)
    | Described(size: nat, mediaType: Text)
    | Unavailable
    | BadRequest
    | NotFound
    | UpstreamFailed

  const OCTET_STREAM: Text := Ascii("application/octet-stream")

  // ---- What the handlers do to the store

  /** A verified body enters the cache under a fresh id. */
  function StoreBlob(s: Store, d: Digest, content: Bytes, mediaType: Text): Store {
    s.(nextId := s.nextId + 1).InsertBlob(d, Blob.InMemory(s.nextId, content, mediaType, s.now))
  }

  function PostUpload(lib: Library, s: Store, digest: Option<Text>, body: Bytes, uuid: nat): (Store, Response) {
    match digest
    case None => (s.(uploads := s.uploads[uuid := Upload([], [])]), Accepted(uuid, 0))
    case Some(text) =>
      if Parse(text) == Some(lib.sha256(body))
      then (StoreBlob(s, lib.sha256(body), body, OCTET_STREAM), Created(lib.sha256(body)))
      else (s, BadRequest)
  }

  function Extend(u: Upload, chunk: Bytes): Upload {
    Upload(u.buf + chunk, u.absorbed + chunk)
  }

  function PatchUpload(s: Store, uuid: Option<nat>, chunk: Bytes): (Store, Response) {
    if uuid.None? then (s, BadRequest)
    else if uuid.value !in s.uploads then (s, NotFound)
    else
      var u := Extend(s.uploads[uuid.value], chunk);
      (s.(uploads := s.uploads[uuid.value := u]), Accepted(uuid.value, |u.buf|))
  }

  /** A mismatch keeps the upload, last chunk included, so that the client can go on. */
  function PutUpload(lib: Library, s: Store, uuid: Option<nat>, digest: Option<Text>, chunk: Bytes): (Store, Response) {
    if uuid.None? || digest.None? || Parse(digest.value).None? then (s, BadRequest)
    else if uuid.value !in s.uploads then (s, NotFound)
    else
      var u, got := Extend(s.uploads[uuid.value], chunk), lib.sha256(s.uploads[uuid.value].absorbed + chunk);
      if Parse(digest.value) == Some(got)
      then (StoreBlob(s.(uploads := s.uploads - {uuid.value}), got, u.buf, OCTET_STREAM), Created(got))
      else (s.(uploads := s.uploads[uuid.value := u]), BadRequest)
  }

  function DeleteUpload(s: Store, uuid: Option<nat>): (Store, Response) {
    match uuid
    case None => (s, BadRequest)
    case Some(id) => (s.(uploads := s.uploads - {id}), NoContent)
  }

  function Concat(chunks: seq<Bytes>): Bytes {
    if chunks == [] then [] else Concat(chunks[..|chunks| - 1]) + chunks[|chunks| - 1]
  }

  /** A background fill: the upstream body arrives in chunks, and possibly ends in an error. */
  function Fill(lib: Library, s: Store, d: Digest, mediaType: Text, chunks: seq<Bytes>, failed: bool): Store {
    if !failed && lib.sha256(Concat(chunks)) == d then StoreBlob(s, d, Concat(chunks), mediaType) else s
  }

  function PutManifest(lib: Library, s: Store, name: Text, reference: Text, mediaType: Text, body: Bytes): Store {
    var d := lib.sha256(body);
    var tags := if Parse(reference).None? then s.tags[TagKey(name, reference) := d] else s.tags;
    s.InsertManifest(d, Manifest(body, mediaType, s.now, false)).(tags := tags[TagKey(name, Print(d)) := d])
  }

  /** The digest a pull request means: given in the request, looked up locally,
      or learnt from upstream. */
  function Resolve(s: Store, local: bool, name: Text, reference: Text, upstream: Option<Digest>): Option<Digest> {
    if Parse(reference).Some? then Parse(reference)
    else if !local then upstream
    else if TagKey(name, reference) in s.tags then Some(s.tags[TagKey(name, reference)])
    else None
  }

  /** What an upstream registry answered to a manifest GET; its body is not checked. */
  datatype Upstream = Upstream(digest: Option<Digest>, body: Option<Bytes>, mediaType: Text)

  function TouchManifest(s: Store, d: Digest): Store
    requires d in s.manifests
  {
    s.(manifests := s.manifests[d := s.manifests[d].(lastUsed := s.now, evicted := false)])
  }

  function GetManifest(s: Store, local: bool, name: Text, reference: Text, up: Upstream): (Store, Response) {
    match Resolve(s, local, name, reference, up.digest)
    case None => (s, if local then NotFound else UpstreamFailed)
    case Some(d) =>
      if d in s.manifests then (TouchManifest(s, d), Served(s.manifests[d].content, s.manifests[d].mediaType))
      else if local then (s, NotFound)
      else if up.body.None? then (s, UpstreamFailed)
      else (s.InsertManifest(d, Manifest(up.body.value, up.mediaType, s.now, false)),
            Served(up.body.value, up.mediaType))
  }

  function TouchBlob(s: Store, d: Digest): Store
    requires d in s.blobs
  {
    s.(blobs := s.blobs[d := s.blobs[d].(lastAccessed := s.now)])
  }

  /** A blob request that hits the cache; `None` is a miss. A HEAD is answered from the
      metadata; a GET of an on-disk blob whose file is not there is a server error. */
  function GetCachedBlob(s: Store, d: Digest, head: bool): (Store, Option<Response>) {
    if d !in s.blobs then
      (s, None)
    else
      (TouchBlob(s, d), Some(
        match s.blobs[d]
        case InMemory(_, content, mediaType, _) =>
          if head then Described(|content|, mediaType) else Served(content, mediaType)
        case OnDisk(id, size, mediaType, _) =>
          if head then Described(size, mediaType)
          else if id in s.disk then Served(s.disk[id], mediaType)
          else Unavailable))
  }

  // ---- The handlers

  method StoreBlobIn(state: State, d: Digest, content: Bytes, mediaType: Text)
    modifies state
    ensures state.View() == StoreBlob(old(state.View()), d, content, mediaType)
  {
    hide Store.InsertBlob;
    var blob := Blob.InMemory(state.nextId, content, mediaType, state.now);
    state.nextId := state.nextId + 1;
    state.InsertBlob(d, blob);
  }

  method PostBlobUpload(state: State, digest: Option<Text>, body: Bytes, uuid: nat) returns (r: Response)
    modifies state
    ensures (state.View(), r) == PostUpload(state.lib, old(state.View()), digest, body, uuid)
  {
    hide StoreBlob, Parse;
    if digest.Some? {
      var expected := FromStr(digest.value);
      if expected.None? {
        return BadRequest;
      }
      var got := state.lib.sha256(body);
      if got != expected.value {
        return BadRequest;
      }
      StoreBlobIn(state, got, body, OCTET_STREAM);
      return Created(got);
    }
    state.uploads := state.uploads[uuid := Upload([], [])];
    r := Accepted(uuid, 0);
  }

  method PatchBlobUpload(state: State, uuid: Option<nat>, chunk: Bytes) returns (r: Response)
    modifies state`uploads
    ensures (state.View(), r) == PatchUpload(old(state.View()), uuid, chunk)
  {
    if uuid.None? {
      return BadRequest;
    }
    if uuid.value !in state.uploads {
      return NotFound;
    }
    var u := state.uploads[uuid.value];
    u := u.(absorbed := u.absorbed + chunk);
    u := u.(buf := u.buf + chunk);
    state.uploads := state.uploads[uuid.value := u];
    r := Accepted(uuid.value, |u.buf|);
  }

  /** One atomic step: the source takes `buf` but leaves the hasher as it is
      when it finalises, which only a concurrent chunk could observe. */
  method PutBlobUpload(state: State, uuid: Option<nat>, digest: Option<Text>, chunk: Bytes) returns (r: Response)
    modifies state
    ensures (state.View(), r) == PutUpload(state.lib, old(state.View()), uuid, digest, chunk)
  {
    hide StoreBlob, Parse;
    if uuid.None? || digest.None? {
      return BadRequest;
    }
    var expected := FromStr(digest.value);
    if expected.None? {
      return BadRequest;
    }
    if uuid.value !in state.uploads {
      return NotFound;
    }
    ghost var u0 := state.uploads[uuid.value];
    var u := state.uploads[uuid.value];
    if chunk != [] {
      u := Upload(u.buf + chunk, u.absorbed + chunk);
    }
    assert u == Extend(u0, chunk) by { assert u0.buf + [] == u0.buf && u0.absorbed + [] == u0.absorbed; }
    var got := state.lib.sha256(u.absorbed);
    if got != expected.value {
      state.uploads := state.uploads[uuid.value := u];
      return BadRequest;
    }
    state.uploads := state.uploads - {uuid.value};
    StoreBlobIn(state, got, u.buf, OCTET_STREAM);
    r := Created(got);
  }

  method DeleteBlobUpload(state: State, uuid: Option<nat>) returns (r: Response)
    modifies state`uploads
    ensures (state.View(), r) == DeleteUpload(old(state.View()), uuid)
  {
    if uuid.None? {
      return BadRequest;
    }
    state.uploads := state.uploads - {uuid.value};
    r := NoContent;
  }

  /** What `spawn_blob_fill` runs in the background. A failing stream is not cached. */
  method SpawnedFill(state: State, digest: Digest, mediaType: Text, stream: seq<Result<Bytes, ()>>)
    modifies state
    ensures state.View() ==
      Fill(state.lib, old(state.View()), digest, mediaType, Chunks(stream),
        exists i :: 0 <= i < |stream| && stream[i].Err?)
  {
    hide StoreBlob;
    var buf, absorbed := [], [];
    var i := 0;
    while i < |stream|
      invariant 0 <= i <= |stream|
      invariant forall j :: 0 <= j < i ==> stream[j].Ok?
      invariant buf == absorbed == Concat(Chunks(stream[..i])) && |Chunks(stream[..i])| == i
    {
      match stream[i] {
        case Err(_) => return;
        case Ok(chunk) =>
          absorbed := absorbed + chunk;
          buf := buf + chunk;
          assert stream[..i + 1][..i] == stream[..i];
      }
      i := i + 1;
    }
    assert stream[..i] == stream;
    var got := state.lib.sha256(absorbed);
    if got != digest {
      return;
    }
    StoreBlobIn(state, digest, buf, mediaType);
  }

  /** The chunks a stream delivers before it ends or fails. */
  function Chunks(stream: seq<Result<Bytes, ()>>): seq<Bytes> {
    if stream == [] then []
    else
      var n := |stream| - 1;
      if |Chunks(stream[..n])| == n && stream[n].Ok? then Chunks(stream[..n]) + [stream[n].value]
      else Chunks(stream[..n])
  }

  method PutManifestIn(state: State, name: Text, reference: Text, mediaType: Text, body: Bytes) returns (r: Response)
    modifies state
    ensures state.View() == PutManifest(state.lib, old(state.View()), name, reference, mediaType, body)
    ensures r == Created(state.lib.sha256(body))
  {
    hide ManifestCharge, Parse, Print;
    var digest := state.lib.sha256(body);
    state.InsertManifest(digest, Manifest(body, mediaType, state.now, false));
    var parsed := FromStr(reference);
    if parsed.None? {
      state.tags := state.tags[TagKey(name, reference) := digest];
    }
    var text := Display(digest);
    state.tags := state.tags[TagKey(name, text) := digest];
    r := Created(digest);
  }

  method GetManifestFrom(state: State, local: bool, name: Text, reference: Text, up: Upstream) returns (r: Response)
    modifies state
    ensures (state.View(), r) == GetManifest(old(state.View()), local, name, reference, up)
  {
    hide Store.InsertManifest, Parse;
    var digest := FromStr(reference);
    if digest.None? {
      if local {
        if TagKey(name, reference) !in state.tags {
          return NotFound;
        }
        digest := Some(state.tags[TagKey(name, reference)]);
      } else {
        if up.digest.None? {
          return UpstreamFailed;
        }
        digest := up.digest;
      }
    }
    var d := digest.value;
    if d in state.manifests {
      var entry := state.manifests[d].(lastUsed := state.now, evicted := false);
      state.manifests := state.manifests[d := entry];
      return Served(entry.content, entry.mediaType);
    }
    if local {
      return NotFound;
    }
    if up.body.None? {
      return UpstreamFailed;
    }
    state.InsertManifest(d, Manifest(up.body.value, up.mediaType, state.now, false));
    r := Served(up.body.value, up.mediaType);
  }

  method GetBlobFromCache(state: State, d: Digest, head: bool) returns (r: Option<Response>)
    modifies state`blobs
    ensures (state.View(), r) == GetCachedBlob(old(state.View()), d, head)
  {
    if d !in state.blobs {
      return None;
    }
    var entry := state.blobs[d].(lastAccessed := state.now);
    state.blobs := state.blobs[d := entry];
    match entry {
      case InMemory(_, content, mediaType, _) =>
        r := Some(if head then Described(|content|, mediaType) else Served(content, mediaType));
      case OnDisk(id, size, mediaType, _) =>
        if head {
          return Some(Described(size, mediaType));
        }
        if id !in state.disk {
          return Some(Unavailable);
        }
        r := Some(Served(state.disk[id], mediaType));
    }
  }

  // ---- Content addressing

  /** Every blob's bytes, in memory or in its file, hash to the digest it is cached under. */
  ghost predicate ContentAddressed(lib: Library, s: Store) {
    forall d :: d in s.blobs ==> lib.sha256(s.BlobBytes(d)) == d
  }

  /** The hasher of every upload has absorbed exactly the buffered bytes. */
  ghost predicate UploadsAgree(s: Store) {
    forall u :: u in s.uploads ==> s.uploads[u].absorbed == s.uploads[u].buf
  }

  lemma StoreBlobKeeps(lib: Library, s: Store, d: Digest, content: Bytes, mediaType: Text)
    requires s.Owned() && ContentAddressed(lib, s) && lib.sha256(content) == d
    ensures StoreBlob(s, d, content, mediaType).Owned() && ContentAddressed(lib, StoreBlob(s, d, content, mediaType))
    ensures StoreBlob(s, d, content, mediaType).uploads == s.uploads
  {
    StoreBlobIds(s, d, content, mediaType);
    StoreBlobFiles(lib, s, d, content, mediaType);
    hide Store.DistinctIds, Store.IdsBelowNext, Store.UnlinksAreDead, Store.FilesPresent, ContentAddressed, BlobCharge;
  }

  lemma StoreBlobIds(s: Store, d: Digest, content: Bytes, mediaType: Text)
    requires s.Owned()
    ensures var s' := StoreBlob(s, d, content, mediaType);
      s'.DistinctIds() && s'.IdsBelowNext() && s'.UnlinksAreDead()
  {
    hide BlobCharge, Store.FilesPresent;
  }

  lemma StoreBlobFiles(lib: Library, s: Store, d: Digest, content: Bytes, mediaType: Text)
    requires s.FilesPresent() && ContentAddressed(lib, s) && lib.sha256(content) == d
    ensures StoreBlob(s, d, content, mediaType).FilesPresent()
    ensures ContentAddressed(lib, StoreBlob(s, d, content, mediaType))
  {
    hide BlobCharge;
  }

  lemma PostKeeps(lib: Library, s: Store, digest: Option<Text>, body: Bytes, uuid: nat)
    requires s.Owned() && ContentAddressed(lib, s) && UploadsAgree(s)
    ensures var s' := PostUpload(lib, s, digest, body, uuid).0;
      s'.Owned() && ContentAddressed(lib, s') && UploadsAgree(s')
  {
    hide StoreBlob, Parse;
    if digest.None? {
      UploadsDoNotMatter(lib, s, PostUpload(lib, s, digest, body, uuid).0.uploads);
    } else {
      StoreBlobKeeps(lib, s, lib.sha256(body), body, OCTET_STREAM);
    }
  }

  lemma UploadsDoNotMatter(lib: Library, s: Store, uploads: map<nat, Upload>)
    requires s.Owned() && ContentAddressed(lib, s)
    ensures s.(uploads := uploads).Owned() && ContentAddressed(lib, s.(uploads := uploads))
  {
    assert s.(uploads := uploads).FilesPresent();
    assert forall d :: d in s.blobs ==> s.(uploads := uploads).BlobBytes(d) == s.BlobBytes(d);
  }

  lemma PatchKeeps(lib: Library, s: Store, uuid: Option<nat>, chunk: Bytes)
    requires s.Owned() && ContentAddressed(lib, s) && UploadsAgree(s)
    ensures var s' := PatchUpload(s, uuid, chunk).0;
      s'.Owned() && ContentAddressed(lib, s') && UploadsAgree(s')
  {
    hide Store.Owned, ContentAddressed;
    UploadsDoNotMatter(lib, s, PatchUpload(s, uuid, chunk).0.uploads);
  }

  lemma {:induction false} PutKeeps(lib: Library, s: Store, uuid: Option<nat>, digest: Option<Text>, chunk: Bytes)
    requires s.Owned() && ContentAddressed(lib, s) && UploadsAgree(s)
    ensures var s' := PutUpload(lib, s, uuid, digest, chunk).0;
      s'.Owned() && ContentAddressed(lib, s') && UploadsAgree(s')
  {
    hide Store.Owned, ContentAddressed, StoreBlob, Parse;
    if uuid.Some? && uuid.value in s.uploads {
      var u := Extend(s.uploads[uuid.value], chunk);
      UploadsDoNotMatter(lib, s, s.uploads[uuid.value := u]);
      UploadsDoNotMatter(lib, s, s.uploads - {uuid.value});
      StoreBlobKeeps(lib, s.(uploads := s.uploads - {uuid.value}), lib.sha256(u.buf), u.buf, OCTET_STREAM);
    }
  }

  lemma {:induction false} FillKeeps(
      lib: Library, s: Store, d: Digest, mediaType: Text, chunks: seq<Bytes>, failed: bool)
    requires s.Owned() && ContentAddressed(lib, s)
    ensures var s' := Fill(lib, s, d, mediaType, chunks, failed);
      s'.Owned() && ContentAddressed(lib, s') && s'.uploads == s.uploads
  {
    hide Store.Owned, ContentAddressed, StoreBlob;
    if lib.sha256(Concat(chunks)) == d {
      StoreBlobKeeps(lib, s, d, Concat(chunks), mediaType);
    }
  }

  lemma TouchBlobKeeps(lib: Library, s: Store, d: Digest)
    requires s.Owned() && ContentAddressed(lib, s) && d in s.blobs
    ensures TouchBlob(s, d).Owned() && ContentAddressed(lib, TouchBlob(s, d))
  {
    var s' := TouchBlob(s, d);
    assert s'.FilesPresent();
    OwnershipInherited(s, s');
    hide Store.Owned, Store.FilesPresent, Store.DistinctIds;
    assert forall e :: e in s.blobs ==> s'.BlobBytes(e) == s.BlobBytes(e);
  }

  /** A cache hit serves bytes that hash to the digest asked for, and says their size:
      the file is never missing. */
  lemma {:induction false} HitsServeWhatWasAskedFor(lib: Library, s: Store, d: Digest)
    requires s.Owned() && ContentAddressed(lib, s) && d in s.blobs
    ensures var r, h := GetCachedBlob(s, d, false).1, GetCachedBlob(s, d, true).1;
      && r.Some? && r.value.Served? && lib.sha256(r.value.content) == d
      && h == Some(Described(|r.value.content|, r.value.mediaType))
  {
    assert lib.sha256(s.BlobBytes(d)) == d;
    hide Store.DistinctIds, Store.IdsBelowNext, Store.UnlinksAreDead;
  }

  // ---- Chunked uploads

  /** The store after the chunks of an upload were sent one PATCH at a time. */
  function PatchAll(s: Store, uuid: nat, chunks: seq<Bytes>): Store {
    if chunks == [] then s
    else PatchUpload(PatchAll(s, uuid, chunks[..|chunks| - 1]), Some(uuid), chunks[|chunks| - 1]).0
  }

  lemma {:induction false} PatchesAccumulate(s: Store, uuid: nat, chunks: seq<Bytes>)
    requires uuid in s.uploads && s.uploads[uuid] == Upload([], [])
    ensures PatchAll(s, uuid, chunks) == s.(uploads := s.uploads[uuid := Upload(Concat(chunks), Concat(chunks))])
    decreases |chunks|
  {
    if chunks == [] {
      assert s.uploads[uuid := Upload([], [])] == s.uploads;
    } else {
      PatchesAccumulate(s, uuid, chunks[..|chunks| - 1]);
    }
  }

  /** However a blob is cut into chunks, the finished upload is the one-shot
      upload of the whole: accepted for the same digest, stored with the same
      bytes, and the upload is gone. */
  lemma {:induction false} ChunkedIsSingleShot(
      lib: Library, s: Store, uuid: nat, chunks: seq<Bytes>, last: Bytes, digest: Text)
    requires uuid !in s.uploads && Parse(digest).Some?
    ensures var begun := PostUpload(lib, s, None, [], uuid).0;
      var (chunked, r) := PutUpload(lib, PatchAll(begun, uuid, chunks), Some(uuid), Some(digest), last);
      var (single, r') := PostUpload(lib, s, Some(digest), Concat(chunks) + last, uuid);
      && r == r'
      && (r.Created? ==> chunked == single)
      && (!r.Created? ==> chunked.blobs == s.blobs && uuid in chunked.uploads
                          && chunked.uploads[uuid].buf == Concat(chunks) + last)
  {
    hide StoreBlob, Parse;
    var begun := PostUpload(lib, s, None, [], uuid).0;
    PatchesAccumulate(begun, uuid, chunks);
    assert begun.uploads[uuid := Upload(Concat(chunks), Concat(chunks))] - {uuid} == s.uploads;
    assert s.(uploads := s.uploads) == s;
  }

  // ---- Tags and manifests

  /** A tag whose reference is itself a digest points at that digest. */
  ghost predicate DigestTagsHonest(s: Store) {
    forall t :: t in s.tags && Parse(t.reference).Some? ==> Parse(t.reference) == Some(s.tags[t])
  }

  lemma {:induction false} PutManifestKeepsTags(
      lib: Library, s: Store, name: Text, reference: Text, mediaType: Text, body: Bytes)
    ensures var s' := PutManifest(lib, s, name, reference, mediaType, body);
      && (s.NoDanglingTags() ==> s'.NoDanglingTags())
      && (DigestTagsHonest(s) ==> DigestTagsHonest(s'))
  {
    hide Parse, Print, ManifestCharge;
    ParsePrint(lib.sha256(body));
  }

  /** A manifest put under a reference is served under it, exactly when the
      reference is a tag or the digest of the body. A body put under some other
      digest is stored all the same, but under its own. */
  lemma {:induction false} PutThenGet(
      lib: Library, s: Store, name: Text, reference: Text, mediaType: Text, body: Bytes, up: Upstream)
    ensures var s' := PutManifest(lib, s, name, reference, mediaType, body);
      && GetManifest(s', true, name, Print(lib.sha256(body)), up).1 == Served(body, mediaType)
      && (Resolve(s', true, name, reference, up.digest) == Some(lib.sha256(body)) <==>
            Parse(reference).None? || Parse(reference) == Some(lib.sha256(body)))
      && (Parse(reference).None? ==> GetManifest(s', true, name, reference, up).1 == Served(body, mediaType))
  {
    hide Parse, Print, ManifestCharge;
    ParsePrint(lib.sha256(body));
  }

  ghost predicate ManifestsAddressed(lib: Library, s: Store) {
    forall d :: d in s.manifests ==> lib.sha256(s.manifests[d].content) == d
  }

  lemma {:induction false} PutKeepsManifestsAddressed(
      lib: Library, s: Store, name: Text, reference: Text, mediaType: Text, body: Bytes)
    requires ManifestsAddressed(lib, s)
    ensures ManifestsAddressed(lib, PutManifest(lib, s, name, reference, mediaType, body))
  {
    hide Parse, Print, ManifestCharge;
  }

  /** Whether a pull stores what upstream sent. */
  predicate Pulls(s: Store, local: bool, name: Text, reference: Text, up: Upstream) {
    && !local && up.body.Some?
    && var d := Resolve(s, local, name, reference, up.digest); d.Some? && d.value !in s.manifests
  }

  /** Content addressing holds of manifests only as far as upstream is honest:
      a pull keeps it exactly when the body it stores hashes to the digest it is stored under. */
  lemma {:induction false} PullKeepsManifestsAddressedIff(
      lib: Library, s: Store, local: bool, name: Text, reference: Text, up: Upstream)
    requires ManifestsAddressed(lib, s)
    ensures ManifestsAddressed(lib, GetManifest(s, local, name, reference, up).0) <==>
      (Pulls(s, local, name, reference, up) ==>
         Resolve(s, local, name, reference, up.digest) == Some(lib.sha256(up.body.value)))
  {
    hide Parse, ManifestCharge;
    var s' := GetManifest(s, local, name, reference, up).0;
    if Pulls(s, local, name, reference, up) {
      var d := Resolve(s, local, name, reference, up.digest).value;
      assert d in s'.manifests && s'.manifests[d].content == up.body.value;
    }
  }
}
