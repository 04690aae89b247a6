/** Uploads from start to finish, as a client sees them (src/docker.rs:796-1018), and what
    a manifest request means (src/docker.rs:334-436). */
module UploadSessions {
  import opened Prelude
  import opened DigestText
  import opened UsageSums
  import opened References
  import opened Cache
  import opened Uploads
  import opened RunSteps

  // ---- Cancelling

  /** After a cancel the upload is not known any more: a chunk for it and an attempt to
      finish it are answered with NotFound, and store nothing. */
  lemma {:induction false} CancelledIsGone(lib: Library, s: Store, id: nat, chunk: Bytes, digest: Text)
    ensures var s' := Serve(lib, s, Cancel(Some(id)));
      && s' == s.(uploads := s.uploads - {id})
      && PatchUpload(s', Some(id), chunk) == (s', NotFound)
      && (Parse(digest).Some? ==> PutUpload(lib, s', Some(id), Some(digest), chunk) == (s', NotFound))
      && DeleteUpload(s, Some(id)).1 == NoContent && DeleteUpload(s, None) == (s, BadRequest)
  {
    hide StoreBlob, Parse;
  }

  /** Every other upload goes on and ends as if nothing had happened. */
  lemma {:induction false} CancelLeavesOthers(
      lib: Library, s: Store, id: nat, other: nat, chunks: seq<Bytes>, last: Bytes, digest: Option<Text>)
    requires other != id
    ensures var s' := Serve(lib, s, Cancel(Some(id)));
      var end := PutUpload(lib, PatchAll(s, other, chunks), Some(other), digest, last);
      var end' := PutUpload(lib, PatchAll(s', other, chunks), Some(other), digest, last);
      end'.1 == end.1 && end'.0 == end.0.(uploads := end.0.uploads - {id})
  {
    hide Parse, StoreBlob, PatchAll;
    var s' := Serve(lib, s, Cancel(Some(id)));
    PatchesLeaveOthers(s, id, other, chunks);
    PutLeavesOthers(lib, PatchAll(s, other, chunks), id, other, last, digest);
  }

  lemma {:induction false} PatchesLeaveOthers(s: Store, id: nat, other: nat, chunks: seq<Bytes>)
    requires other != id
    ensures var after := PatchAll(s, other, chunks);
      PatchAll(s.(uploads := s.uploads - {id}), other, chunks) == after.(uploads := after.uploads - {id})
    decreases |chunks|
  {
    if chunks != [] {
      var n := |chunks| - 1;
      PatchesLeaveOthers(s, id, other, chunks[..n]);
      PatchLeavesOthers(PatchAll(s, other, chunks[..n]), id, other, chunks[n]);
    }
  }

  lemma PatchLeavesOthers(s: Store, id: nat, other: nat, chunk: Bytes)
    requires other != id
    ensures var after := PatchUpload(s, Some(other), chunk);
      PatchUpload(s.(uploads := s.uploads - {id}), Some(other), chunk) ==
        (after.0.(uploads := after.0.uploads - {id}), after.1)
  {
    if other in s.uploads {
      var u := Extend(s.uploads[other], chunk);
      assert (s.uploads - {id})[other := u] == s.uploads[other := u] - {id};
    }
  }

  lemma PutLeavesOthers(lib: Library, s: Store, id: nat, other: nat, chunk: Bytes, digest: Option<Text>)
    requires other != id
    ensures var after := PutUpload(lib, s, Some(other), digest, chunk);
      PutUpload(lib, s.(uploads := s.uploads - {id}), Some(other), digest, chunk) ==
        (after.0.(uploads := after.0.uploads - {id}), after.1)
  {
    hide Parse, StoreBlob;
    if other in s.uploads {
      var u, got := Extend(s.uploads[other], chunk), lib.sha256(s.uploads[other].absorbed + chunk);
      assert (s.uploads - {id})[other := u] == s.uploads[other := u] - {id};
      StoreLeavesOthers(s, id, other, got, u.buf);
    }
  }

  lemma StoreLeavesOthers(s: Store, id: nat, other: nat, d: Digest, content: Bytes)
    ensures var after := StoreBlob(s.(uploads := s.uploads - {other}), d, content, OCTET_STREAM);
      StoreBlob(s.(uploads := s.uploads - {id} - {other}), d, content, OCTET_STREAM) ==
        after.(uploads := after.uploads - {id})
  {
    hide BlobCharge;
    assert s.uploads - {id} - {other} == s.uploads - {other} - {id};
  }

  // ---- Finishing

  /** A resumable upload begins empty, each chunk is answered with the length so far, and the
      whole is accepted if and only if its SHA-256 is the digest the client names. Then the
      blob is served with exactly those bytes, and the upload is gone; otherwise nothing is
      stored and the upload goes on. */
  lemma {:induction false} UploadIsAcceptedIff(
      lib: Library, s: Store, id: nat, chunks: seq<Bytes>, last: Bytes, digest: Text)
    requires Parse(digest).Some?
    ensures var (begun, hello) := PostUpload(lib, s, None, [], id);
      var sent := PatchAll(begun, id, chunks);
      var (s', r) := PutUpload(lib, sent, Some(id), Some(digest), last);
      var whole := Concat(chunks) + last;
      var d := lib.sha256(whole);
      && hello == Accepted(id, 0)
      && PatchUpload(sent, Some(id), last).1 == Accepted(id, |whole|)
      && (if Parse(digest) == Some(d) then
            && r == Created(d) && id !in s'.uploads
            && s'.blobs == s.blobs[d := Blob.InMemory(s.nextId, whole, Ascii("application/octet-stream"), s.now)]
            && GetCachedBlob(s', d, false).1 == Some(Served(whole, Ascii("application/octet-stream")))
          else
            r == BadRequest && s'.blobs == s.blobs && id in s'.uploads && s'.uploads[id].buf == whole)
  {
    hide Parse, BlobCharge;
    var begun := PostUpload(lib, s, None, [], id).0;
    PatchesAccumulate(begun, id, chunks);
    hide PatchAll;
    assert begun.uploads[id := Upload(Concat(chunks), Concat(chunks))][id].buf == Concat(chunks);
  }

  /** A single-shot upload, likewise. */
  lemma {:induction false} SingleShotIsAcceptedIff(lib: Library, s: Store, digest: Text, body: Bytes, id: nat)
    ensures var (s', r) := PostUpload(lib, s, Some(digest), body, id);
      var d := lib.sha256(body);
      if Parse(digest) == Some(d) then
        && r == Created(d)
        && s'.blobs == s.blobs[d := Blob.InMemory(s.nextId, body, Ascii("application/octet-stream"), s.now)]
        && GetCachedBlob(s', d, false).1 == Some(Served(body, Ascii("application/octet-stream")))
      else
        r == BadRequest && s' == s
  {
    hide Parse, BlobCharge;
  }

  /** A finished upload cannot be finished again, or sent another chunk. */
  lemma {:induction false} FinishedIsGone(
      lib: Library, s: Store, id: nat, digest: Text, last: Bytes, chunk: Bytes, digest': Text)
    requires PutUpload(lib, s, Some(id), Some(digest), last).1.Created? && Parse(digest').Some?
    ensures var s' := PutUpload(lib, s, Some(id), Some(digest), last).0;
      && PatchUpload(s', Some(id), chunk) == (s', NotFound)
      && PutUpload(lib, s', Some(id), Some(digest'), chunk) == (s', NotFound)
  {
    hide Parse, BlobCharge;
  }

  /** Requests without a well-formed id or digest are refused and change nothing. */
  lemma {:induction false} MalformedIsRefused(
      lib: Library, s: Store, id: Option<nat>, digest: Option<Text>, chunk: Bytes)
    ensures PatchUpload(s, None, chunk) == (s, BadRequest)
    ensures id.None? || digest.None? || Parse(digest.value).None? ==>
      PutUpload(lib, s, id, digest, chunk) == (s, BadRequest)
  {
    hide Parse, StoreBlob;
  }

  /** A background fill is cached, with all its bytes and the media type upstream gave, if
      and only if the stream ended in order and hashes to the digest; it is then served. */
  lemma {:induction false} FillIsServedIff(
      lib: Library, s: Store, d: Digest, mediaType: Text, chunks: seq<Bytes>, failed: bool)
    ensures var s' := Fill(lib, s, d, mediaType, chunks, failed);
      if !failed && lib.sha256(Concat(chunks)) == d then
        && s'.blobs == s.blobs[d := Blob.InMemory(s.nextId, Concat(chunks), mediaType, s.now)]
        && GetCachedBlob(s', d, false).1 == Some(Served(Concat(chunks), mediaType))
      else
        s' == s
  {
    hide BlobCharge;
  }

  // ---- What a push records

  /** A push records the digest of the body, as printed, and the reference if that is a tag;
      both mean the digest of the body, and no other tag changes. */
  lemma {:induction false} PushRecords(
      lib: Library, s: Store, name: Text, reference: Text, mediaType: Text, body: Bytes, t: TagKey)
    ensures var d, tags := lib.sha256(body), PutManifest(lib, s, name, reference, mediaType, body).tags;
      if t == TagKey(name, Print(d)) || (t == TagKey(name, reference) && Parse(reference).None?) then
        t in tags && tags[t] == d
      else
        (t in tags <==> t in s.tags) && (t in s.tags ==> tags[t] == s.tags[t])
  {
    hide Parse, Print, ManifestCharge;
  }

  // ---- What a manifest request means

  /** A request by digest is served from the cache whatever the registry, and whatever
      upstream would say. */
  lemma {:induction false} PullByDigest(
      s: Store, local: bool, name: Text, reference: Text, d: Digest, up: Upstream)
    requires Parse(reference) == Some(d)
    ensures GetManifest(s, local, name, reference, up).1 ==
      if d in s.manifests then Served(s.manifests[d].content, s.manifests[d].mediaType)
      else if local then NotFound
      else if up.body.Some? then Served(up.body.value, up.mediaType)
      else UpstreamFailed
  {
    hide Parse, Store.InsertManifest;
  }

  /** A tag of a local registry means what was last recorded for it. */
  lemma {:induction false} PullByLocalTag(s: Store, name: Text, tag: Text, up: Upstream)
    requires Parse(tag).None?
    ensures var t := TagKey(name, tag);
      GetManifest(s, true, name, tag, up).1 ==
        if t in s.tags && s.tags[t] in s.manifests
        then Served(s.manifests[s.tags[t]].content, s.manifests[s.tags[t]].mediaType)
        else NotFound
  {
    hide Parse, Store.InsertManifest;
  }

  /** A tag of a remote registry means what upstream says it means now, never what was
      recorded for it; the manifest itself is fetched only if it is not cached. */
  lemma {:induction false} PullByRemoteTag(s: Store, name: Text, tag: Text, up: Upstream)
    requires Parse(tag).None?
    ensures var (s', r) := GetManifest(s, false, name, tag, up);
      && s'.tags == s.tags
      && r == (match up.digest
               case None => UpstreamFailed
               case Some(d) =>
                 if d in s.manifests then Served(s.manifests[d].content, s.manifests[d].mediaType)
                 else if up.body.Some? then Served(up.body.value, up.mediaType)
                 else UpstreamFailed)
  {
    hide Parse, ManifestCharge;
  }
}
