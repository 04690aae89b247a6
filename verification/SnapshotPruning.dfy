/** Which blobs a load takes from a snapshot, whatever the snapshot says and whatever
    files are there (src/snapshot.rs:470-545). */
module SnapshotPruning {
  import opened Prelude
  import opened DigestText
  import opened Cache
  import opened Snapshot

  /** Every on-disk blob has a file of exactly its recorded size. */
  predicate FilesMatch(blobs: map<Digest, Blob>, disk: map<nat, Bytes>) {
    forall d :: d in blobs ==> FileOfItsSize(blobs[d], disk)
  }

  predicate FileOfItsSize(b: Blob, disk: map<nat, Bytes>) {
    b.OnDisk? ==> b.id in disk && |disk[b.id]| == b.size
  }

  /** A blob entry is loaded as an on-disk blob only if its file has its size. */
  lemma {:induction false} LoadedFilesMatch(es: seq<BlobEntry>, disk: map<nat, Bytes>)
    ensures FilesMatch(Collect(es, BlobLoader(disk)), disk)
    decreases |es|
  {
    hide FileOfItsSize, BlobLoader;
    if es != [] {
      LoadedFilesMatch(es[..|es| - 1], disk);
      LoadedFileMatches(es[|es| - 1], disk);
    }
  }

  lemma LoadedFileMatches(e: BlobEntry, disk: map<nat, Bytes>)
    ensures var item := BlobLoader(disk)(e); item.Some? ==> FileOfItsSize(item.value.1, disk)
  {
    hide Parse;
  }

  /** As many blobs are counted as pruned as there are entries without their bytes whose
      file is missing or has another size. */
  lemma {:induction false} PrunedAreCounted(es: seq<BlobEntry>, disk: map<nat, Bytes>)
    ensures PrunedBlobs(es, disk) ==
      |set i | 0 <= i < |es| && Parse(es[i].digest).Some? && es[i].content.None?
               && !(es[i].id in disk && |disk[es[i].id]| == es[i].size)|
  {
    hide Parse;
    PrunedAreLacking(es, disk);
    assert Lacking(es, disk) ==
      set i | 0 <= i < |es| && Parse(es[i].digest).Some? && es[i].content.None?
              && !(es[i].id in disk && |disk[es[i].id]| == es[i].size);
  }

  lemma {:induction false} PrunedAreLacking(es: seq<BlobEntry>, disk: map<nat, Bytes>)
    ensures PrunedBlobs(es, disk) == |Lacking(es, disk)|
    decreases |es|
  {
    hide Parse;
    if es != [] {
      var n := |es| - 1;
      PrunedAreLacking(es[..n], disk);
      assert Lacking(es, disk) == Lacking(es[..n], disk) + if LacksItsFile(es[n], disk) then {n} else {};
    }
  }

  predicate LacksItsFile(e: BlobEntry, disk: map<nat, Bytes>) {
    Parse(e.digest).Some? && e.content.None? && !(e.id in disk && |disk[e.id]| == e.size)
  }

  function Lacking(es: seq<BlobEntry>, disk: map<nat, Bytes>): set<nat> {
    set i | 0 <= i < |es| && LacksItsFile(es[i], disk)
  }

  /** No other entry of the snapshot is for the same digest. */
  predicate OnlyEntryFor(es: seq<BlobEntry>, i: nat, d: Digest) {
    i < |es| && forall j :: 0 <= j < |es| ==> (Parse(es[j].digest) == Some(d) <==> j == i)
  }

  lemma {:induction false} NoEntryNoBlob(es: seq<BlobEntry>, disk: map<nat, Bytes>, d: Digest)
    requires forall j :: 0 <= j < |es| ==> Parse(es[j].digest) != Some(d)
    ensures d !in Collect(es, BlobLoader(disk))
    decreases |es|
  {
    hide Parse;
    if es != [] {
      NoEntryNoBlob(es[..|es| - 1], disk, d);
    }
  }

  /** An entry with its bytes is taken as it is; one without is taken if and only if its
      file has the recorded size, and is then on disk. */
  lemma {:induction false} EntryIsTakenIff(es: seq<BlobEntry>, disk: map<nat, Bytes>, i: nat, d: Digest)
    requires OnlyEntryFor(es, i, d)
    ensures var blobs, e := Collect(es, BlobLoader(disk)), es[i];
      match e.content
      case Some(content) => d in blobs && blobs[d] == Blob.InMemory(e.id, content, e.mediaType, e.lastAccessed)
      case None =>
        && (d in blobs <==> e.id in disk && |disk[e.id]| == e.size)
        && (d in blobs ==> blobs[d] == Blob.OnDisk(e.id, e.size, e.mediaType, e.lastAccessed))
    decreases |es|
  {
    hide Parse;
    var n := |es| - 1;
    if i == n {
      NoEntryNoBlob(es[..n], disk, d);
    } else {
      EntryIsTakenIff(es[..n], disk, i, d);
    }
  }

  lemma LoadedBlobs(file: SnapshotFile, disk: map<nat, Bytes>, now: nat)
    ensures var s := Startup(file, disk, now);
      if file.Decoded? && file.snap.version == 2 then
        s.blobs == Collect(file.snap.blobs, BlobLoader(disk)) && s.disk == disk
      else s == Empty(now)
  {
    hide Collect, Store.Recomputed;
  }

  /** After any startup, from any snapshot and with any files, every on-disk blob has a
      file of exactly its recorded size. */
  lemma {:induction false} StartupFilesMatch(file: SnapshotFile, disk: map<nat, Bytes>, now: nat)
    ensures var s := Startup(file, disk, now);
      forall d :: d in s.blobs && s.blobs[d].OnDisk? ==>
        s.blobs[d].id in s.disk && |s.disk[s.blobs[d].id]| == s.blobs[d].size
  {
    hide Startup, Collect;
    LoadedBlobs(file, disk, now);
    if file.Decoded? {
      LoadedFilesMatch(file.snap.blobs, disk);
    }
  }

  /** A startup from a version 2 snapshot, entry by entry; from any other it starts cold. */
  lemma {:induction false} StartupTakesIff(file: SnapshotFile, disk: map<nat, Bytes>, now: nat, i: nat, d: Digest)
    requires file.Decoded? && OnlyEntryFor(file.snap.blobs, i, d)
    ensures var s, e := Startup(file, disk, now), file.snap.blobs[i];
      if file.snap.version != 2 then s == Empty(now)
      else match e.content
        case Some(content) => d in s.blobs && s.blobs[d] == Blob.InMemory(e.id, content, e.mediaType, e.lastAccessed)
        case None =>
          && (d in s.blobs <==> e.id in disk && |disk[e.id]| == e.size)
          && (d in s.blobs ==> s.blobs[d] == Blob.OnDisk(e.id, e.size, e.mediaType, e.lastAccessed))
  {
    hide Startup, Collect, OnlyEntryFor;
    LoadedBlobs(file, disk, now);
    EntryIsTakenIff(file.snap.blobs, disk, i, d);
  }
}
