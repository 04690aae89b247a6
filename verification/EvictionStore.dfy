/** What the store operations of an eviction pass keep: disk ownership, the
    relation of the current store to the one the pass started from, and how
    each of them changes the recomputed usage. */
module EvictionStore {
  import opened Prelude
  import opened DigestText
  import opened UsageSums
  import opened Cache
  import opened EvictionMachine

  predicate SameOrFlagged(m0: Manifest, m: Manifest) {
    m == m0 || m == m0.(evicted := true)
  }

  predicate SameOrSpilledBlob(b0: Blob, b: Blob) {
    b == b0 || (IsLargeInMemory(b0) && b == ToDisk(b0))
  }

  predicate IsLargeValue(e: RedisEntry) {
    e.InMemory? && |e.value| > MEMORY_TIER_THRESHOLD
  }

  predicate SameOrSpilledEntry(e0: RedisEntry, e: RedisEntry) {
    e == e0 || (IsLargeValue(e0) && e == RedisEntry.OnDisk(e0.id, |e0.value|, e0.lastAccessed))
  }

  /** Manifests only go away or get flagged as evicted. */
  ghost predicate ManifestsEvolved(s0: Store, s: Store) {
    forall d :: d in s.manifests ==> d in s0.manifests && SameOrFlagged(s0.manifests[d], s.manifests[d])
  }

  /** Blobs only go away or move to disk, with the same bytes. */
  ghost predicate BlobsEvolved(s0: Store, s: Store) {
    forall d :: d in s.blobs ==>
      d in s0.blobs && SameOrSpilledBlob(s0.blobs[d], s.blobs[d]) && s.BlobBytes(d) == s0.BlobBytes(d)
  }

  /** Redis entries only go away or move to disk, with the same bytes. */
  ghost predicate RedisEvolved(s0: Store, s: Store) {
    forall k :: k in s.redis ==>
      k in s0.redis && SameOrSpilledEntry(s0.redis[k], s.redis[k]) && s.RedisValue(k) == s0.RedisValue(k)
  }

  /** Tags go exactly when the manifest they point at goes. */
  ghost predicate TagsFollow(s0: Store, s: Store) {
    s.tags == s0.tags - set t | t in s0.tags && s0.tags[t] in s0.manifests && s0.tags[t] !in s.manifests
  }

  /** New unlinks only name files of redis entries that are gone. */
  ghost predicate UnlinksExplained(s0: Store, s: Store) {
    && s0.unlinks <= s.unlinks
    && (forall id :: id in s.unlinks && id !in s0.unlinks ==>
          exists k :: k in s0.redis && k !in s.redis && s0.redis[k].id == id)
  }

  /** The relation between the store a pass starts from and any later one. */
  ghost predicate Evolved(s0: Store, s: Store) {
    && ManifestsEvolved(s0, s) && BlobsEvolved(s0, s) && RedisEvolved(s0, s)
    && TagsFollow(s0, s) && UnlinksExplained(s0, s)
    && s.nextId == s0.nextId && s.now == s0.now && s.uploads == s0.uploads
  }

  lemma EvolvedReflexive(s: Store)
    ensures Evolved(s, s)
  {
    assert TagsFollow(s, s);
  }

  lemma EvolvedTransitive(s0: Store, s1: Store, s2: Store)
    requires Evolved(s0, s1) && Evolved(s1, s2)
    ensures Evolved(s0, s2)
  {
    assert ManifestsEvolved(s0, s2);
    BlobsTransitive(s0, s1, s2);
    RedisTransitive(s0, s1, s2);
    assert UnlinksExplained(s0, s2);
    TagsTransitive(s0, s1, s2);
  }

  lemma BlobsTransitive(s0: Store, s1: Store, s2: Store)
    requires BlobsEvolved(s0, s1) && BlobsEvolved(s1, s2)
    ensures BlobsEvolved(s0, s2)
  {
    hide Store.BlobBytes;
  }

  lemma RedisTransitive(s0: Store, s1: Store, s2: Store)
    requires RedisEvolved(s0, s1) && RedisEvolved(s1, s2)
    ensures RedisEvolved(s0, s2)
  {
    hide Store.RedisValue;
  }

  lemma TagsTransitive(s0: Store, s1: Store, s2: Store)
    requires ManifestsEvolved(s0, s1) && ManifestsEvolved(s1, s2) && TagsFollow(s0, s1) && TagsFollow(s1, s2)
    ensures TagsFollow(s0, s2)
  {}

  /** A store whose manifests, tags, unlinks and redis entries are those of `s`. */
  lemma EvolvedInBlobs(s: Store, s': Store)
    requires s'.manifests == s.manifests && s'.tags == s.tags && s'.unlinks == s.unlinks && s'.redis == s.redis
    requires s'.nextId == s.nextId && s'.now == s.now && s'.uploads == s.uploads
    requires BlobsEvolved(s, s')
    requires forall k :: k in s.redis ==> s'.RedisValue(k) == s.RedisValue(k)
    ensures Evolved(s, s')
  {
    assert TagsFollow(s, s');
    hide BlobsEvolved, Store.RedisValue;
  }

  // ---- Ownership

  /** Nothing but entries of `s`, under the ids they had, and no new unlinks of live ids. */
  ghost predicate InheritsIds(s: Store, s': Store) {
    && (forall d :: d in s'.blobs ==> d in s.blobs && s'.blobs[d].id == s.blobs[d].id)
    && (forall k :: k in s'.redis ==> k in s.redis && s'.redis[k].id == s.redis[k].id)
    && s'.nextId == s.nextId
  }

  lemma OwnershipInherited(s: Store, s': Store)
    requires s.Owned() && InheritsIds(s, s') && s'.FilesPresent() && s'.unlinks <= s.unlinks
    ensures s'.Owned()
  {
    hide Store.FilesPresent;
  }

  // ---- Spilling blobs

  lemma SpillFilesHold(s: Store, w: set<Digest>, d: Digest)
    requires s.DistinctIds() && AllLargeInMemory(s, w) && d in s.blobs
    ensures d in w ==> s.blobs[d].id in SpillFiles(s, w) && SpillFiles(s, w)[s.blobs[d].id] == s.blobs[d].content
    ensures d !in w ==> s.blobs[d].id !in SpillFiles(s, w)
  {}

  lemma SpillFilesMiss(s: Store, w: set<Digest>, k: Bytes)
    requires s.DistinctIds() && AllLargeInMemory(s, w) && k in s.redis
    ensures s.redis[k].id !in SpillFiles(s, w)
  {}

  /** `s'` is `s` with the blobs `w` on disk: the files are what they should be. */
  ghost predicate FilesFollowSpill(s: Store, w: set<Digest>, s': Store) {
    && s'.blobs == SpillIn(s.blobs, w) && s'.redis == s.redis
    && (forall d :: d in w && d in s.blobs && s.blobs[d].InMemory? ==>
          HasFile(s'.disk, s.blobs[d].id, s.blobs[d].content))
    && (forall d :: d in s.blobs && d !in w ==> SameFile(s.disk, s'.disk, s.blobs[d].id))
    && (forall k :: k in s.redis ==> SameFile(s.disk, s'.disk, s.redis[k].id))
  }

  /** Writing the spilled files does not touch the file of any other entry. */
  lemma SpilledDisk(s: Store, w: set<Digest>)
    requires s.DistinctIds() && AllLargeInMemory(s, w)
    ensures FilesFollowSpill(s, w, SpillBlobs(s, w))
  {
    hide BlobTotal, SpillFiles, HasFile, SameFile, IsLargeInMemory;
    var s' := SpillBlobs(s, w);
    forall d | d in s.blobs
      ensures d in w && s.blobs[d].InMemory? ==> HasFile(s'.disk, s.blobs[d].id, s.blobs[d].content)
      ensures d !in w ==> SameFile(s.disk, s'.disk, s.blobs[d].id)
    {
      SpilledBlobFile(s, w, d);
    }
    forall k | k in s.redis ensures SameFile(s.disk, s'.disk, s.redis[k].id) {
      SpillFilesMiss(s, w, k);
      MissedFile(s, w, s.redis[k].id);
    }
  }

  lemma SpilledBlobFile(s: Store, w: set<Digest>, d: Digest)
    requires s.DistinctIds() && AllLargeInMemory(s, w) && d in s.blobs
    ensures d in w && s.blobs[d].InMemory? ==> HasFile(SpillBlobs(s, w).disk, s.blobs[d].id, s.blobs[d].content)
    ensures d !in w ==> SameFile(s.disk, SpillBlobs(s, w).disk, s.blobs[d].id)
  {
    SpillFilesHold(s, w, d);
    hide BlobTotal, SpillFiles, SpillIn;
  }

  lemma MissedFile(s: Store, w: set<Digest>, id: nat)
    requires s.DistinctIds() && AllLargeInMemory(s, w) && id !in SpillFiles(s, w)
    ensures SameFile(s.disk, SpillBlobs(s, w).disk, id)
  {
    hide BlobTotal, SpillFiles, SpillIn;
  }

  lemma SpilledFilesPresent(s: Store, w: set<Digest>, s': Store)
    requires s.FilesPresent() && AllLargeInMemory(s, w) && FilesFollowSpill(s, w, s')
    ensures s'.FilesPresent()
  {}

  lemma SpilledBytesSame(s: Store, w: set<Digest>, s': Store)
    requires s.FilesPresent() && AllLargeInMemory(s, w) && FilesFollowSpill(s, w, s')
    ensures BlobsEvolved(s, s') && forall k :: k in s.redis ==> s'.RedisValue(k) == s.RedisValue(k)
  {}

  lemma SpillInheritsIds(s: Store, w: set<Digest>)
    requires s.DistinctIds() && AllLargeInMemory(s, w)
    ensures InheritsIds(s, SpillBlobs(s, w))
  {
    hide BlobTotal, SpillFiles;
  }

  lemma SpillBlobsKeepsOwnership(s: Store, w: set<Digest>)
    requires s.Owned() && AllLargeInMemory(s, w)
    ensures SpillBlobs(s, w).Owned()
  {
    var s' := SpillBlobs(s, w);
    SpilledDisk(s, w);
    SpilledFilesPresent(s, w, s');
    SpillInheritsIds(s, w);
    hide SpillFiles, SpillIn, FilesFollowSpill, InheritsIds, Store.FilesPresent;
    OwnershipInherited(s, s');
  }

  lemma SpillBlobsEvolves(s: Store, w: set<Digest>)
    requires s.Owned() && AllLargeInMemory(s, w)
    ensures Evolved(s, SpillBlobs(s, w))
  {
    var s' := SpillBlobs(s, w);
    SpilledDisk(s, w);
    SpilledBytesSame(s, w, s');
    hide SpillFiles, FilesFollowSpill, Store.FilesPresent, BlobsEvolved, Store.RedisValue;
    EvolvedInBlobs(s, s');
  }

  lemma OneSpill(b: Blob)
    requires IsLargeInMemory(b)
    ensures BlobCharge(b) == In(LargeBlobMemory, |b.content|) && BlobCharge(ToDisk(b)) == In(BlobDisk, |b.content|)
  {}

  lemma InAdds(b: Bucket, i: int, j: int)
    ensures In(b, i).Plus(In(b, j)) == In(b, i + j)
  {}

  ghost function Spilled(bs: map<Digest, Blob>): map<Digest, Blob> {
    SpillIn(bs, bs.Keys)
  }

  lemma ChargesWithout(bs: map<Digest, Blob>, k: Digest)
    ensures BlobCharges(bs - {k}) == BlobCharges(bs) - {k}
    ensures Spilled(bs - {k}) == Spilled(bs) - {k}
    ensures k in bs ==> k in Spilled(bs) && Spilled(bs)[k] == ToDisk(bs[k])
  {}

  /** One bucket holds the total when the rest of the family is in that bucket too. */
  lemma OneBucket(charges: map<Digest, Usage>, k: Digest, b: Bucket, i: int, j: int)
    requires k in charges && charges[k] == In(b, i) && Total(charges - {k}) == In(b, j)
    ensures Total(charges) == In(b, i + j)
  {
    TotalTake(charges, k);
    InAdds(b, i, j);
  }

  lemma SpillNothing(bs: map<Digest, Blob>)
    requires bs == map[]
    ensures Total(BlobCharges(bs)) == In(LargeBlobMemory, 0) && Total(BlobCharges(Spilled(bs))) == In(BlobDisk, 0)
  {
    hide Total, BlobCharge;
    assert BlobCharges(bs) == map[] && BlobCharges(Spilled(bs)) == map[];
    TotalEmpty(BlobCharges(bs));
    TotalEmpty(BlobCharges(Spilled(bs)));
  }

  /** The bytes a set of large blobs takes in memory are the bytes it takes on disk. */
  lemma {:induction false} SpillTotals(bs: map<Digest, Blob>) returns (n: nat)
    requires forall d :: d in bs ==> IsLargeInMemory(bs[d])
    ensures Total(BlobCharges(bs)) == In(LargeBlobMemory, n)
    ensures Total(BlobCharges(Spilled(bs))) == In(BlobDisk, n)
    decreases |bs|
  {
    hide Total, MapOf, BlobCharges, Spilled;
    if bs == map[] {
      n := 0;
      SpillNothing(bs);
    } else {
      var k :| k in bs;
      var i := SpillTotals(bs - {k});
      n := |bs[k].content| + i;
      OneSpill(bs[k]);
      hide BlobCharge, In, ToDisk, IsLargeInMemory;
      ChargesWithout(bs, k);
      ChargesWithout(Spilled(bs), k);
      OneBucket(BlobCharges(bs), k, LargeBlobMemory, |bs[k].content|, i);
      OneBucket(BlobCharges(Spilled(bs)), k, BlobDisk, |bs[k].content|, i);
    }
  }

  lemma BlobTotalSplit(bs: map<Digest, Blob>, w: set<Digest>)
    ensures Total(BlobCharges(bs)) == Total(BlobCharges(Restrict(bs, w))).Plus(Total(BlobCharges(bs - w)))
  {
    hide BlobCharge, MapOf, Usage.Plus;
    assert BlobCharges(Restrict(bs, w)) == Restrict(BlobCharges(bs), w);
    assert BlobCharges(bs - w) == BlobCharges(bs) - w;
    hide BlobCharges, Restrict;
    TotalSplit(BlobCharges(bs), w);
  }

  lemma SwapSummand(m: Usage, r: Usage, rest: Usage, x: Usage, y: Usage)
    ensures m.Plus(y.Plus(rest)).Plus(r) == m.Plus(x.Plus(rest)).Plus(r).Minus(x).Plus(y)
    ensures m.Plus(rest).Plus(r) == m.Plus(x.Plus(rest)).Plus(r).Minus(x)
  {}

  lemma SpillInParts(bs: map<Digest, Blob>, w: set<Digest>)
    ensures Restrict(SpillIn(bs, w), w) == Spilled(Restrict(bs, w))
    ensures SpillIn(bs, w) - w == bs - w
  {
    hide ToDisk;
  }

  lemma BlobTotalIsLarge(s: Store, w: set<Digest>) returns (n: nat)
    requires AllLargeInMemory(s, w)
    ensures BlobTotal(s, w) == In(LargeBlobMemory, n) && BlobTotal(s, w).largeBlobMemory == n
    ensures Total(BlobCharges(SpillIn(s.blobs, w))) ==
      In(BlobDisk, n).Plus(Total(BlobCharges(s.blobs - w)))
  {
    n := SpillTotals(Restrict(s.blobs, w));
    assert In(LargeBlobMemory, n).largeBlobMemory == n;
    hide BlobCharge, ToDisk, In, Usage.Plus, SpillIn, Spilled;
    SpillInParts(s.blobs, w);
    BlobTotalSplit(SpillIn(s.blobs, w), w);
  }

  /** Spilling moves the bytes from one bucket to the other and changes nothing else. */
  lemma SpillBlobsRecomputed(s: Store, w: set<Digest>)
    requires s.DistinctIds() && AllLargeInMemory(s, w)
    ensures var n := BlobTotal(s, w).largeBlobMemory;
      && n >= 0 && BlobTotal(s, w) == In(LargeBlobMemory, n)
      && SpillBlobs(s, w).Recomputed() == s.Recomputed().Minus(In(LargeBlobMemory, n)).Plus(In(BlobDisk, n))
  {
    hide Store.Recomputed, AddsUp;
    RecomputedAddsUp(s);
    RecomputedAddsUp(SpillBlobs(s, w));
    AddsUpIsSum();
    var n := BlobTotalIsLarge(s, w);
    hide BlobCharge, In, SpillFiles, Usage.Plus, Usage.Minus, AllLargeInMemory, SpillIn;
    BlobTotalSplit(s.blobs, w);
    SwapSummand(Total(ManifestCharges(s.manifests)), Total(RedisCharges(s.redis)), Total(BlobCharges(s.blobs - w)),
                In(LargeBlobMemory, n), In(BlobDisk, n));
  }

  // ---- Deleting blobs

  /** Deleting blobs does not touch the file of any entry that stays. */
  lemma DeletedDisk(s: Store, w: set<Digest>)
    requires s.DistinctIds()
    ensures forall d :: d in s.blobs && d !in w ==> SameFile(s.disk, DeleteBlobs(s, w).disk, s.blobs[d].id)
    ensures forall k :: k in s.redis ==> SameFile(s.disk, DeleteBlobs(s, w).disk, s.redis[k].id)
    ensures forall d :: d in w && d in s.blobs && s.blobs[d].OnDisk? ==> s.blobs[d].id !in DeleteBlobs(s, w).disk
  {
    hide BlobTotal;
  }

  lemma DeleteBlobsKeepsOwnership(s: Store, w: set<Digest>)
    requires s.Owned()
    ensures DeleteBlobs(s, w).Owned()
  {
    DeletedDisk(s, w);
    hide BlobTotal;
    assert DeleteBlobs(s, w).FilesPresent();
    OwnershipInherited(s, DeleteBlobs(s, w));
  }

  lemma DeleteBlobsEvolves(s: Store, w: set<Digest>)
    requires s.Owned()
    ensures Evolved(s, DeleteBlobs(s, w))
  {
    DeletedDisk(s, w);
    hide BlobTotal;
    assert BlobsEvolved(s, DeleteBlobs(s, w));
    EvolvedInBlobs(s, DeleteBlobs(s, w));
  }

  lemma DeleteBlobsRecomputed(s: Store, w: set<Digest>)
    ensures DeleteBlobs(s, w).Recomputed() == s.Recomputed().Minus(BlobTotal(s, w))
  {
    hide Store.Recomputed, AddsUp;
    hide BlobCharge, Usage.Plus, Usage.Minus;
    RecomputedAddsUp(s);
    RecomputedAddsUp(DeleteBlobs(s, w));
    AddsUpIsSum();
    BlobTotalSplit(s.blobs, w);
    SwapSummand(Total(ManifestCharges(s.manifests)), Total(RedisCharges(s.redis)), Total(BlobCharges(s.blobs - w)),
                BlobTotal(s, w), ZERO);
  }

  lemma BlobTotalIsOnlyBlobs(s: Store, w: set<Digest>)
    ensures ZERO.AtMost(BlobTotal(s, w)) && OnlyBlobs(BlobTotal(s, w))
  {
    BlobTotalIsBlobs(BlobCharges(Restrict(s.blobs, w)));
  }

  // ---- Manifests

  lemma UntagManifestKeepsOwnership(s: Store, d: Digest)
    requires s.Owned()
    ensures UntagManifest(s, d).Owned()
  {
    hide ManifestCharge;
    assert UntagManifest(s, d).FilesPresent();
    OwnershipInherited(s, UntagManifest(s, d));
  }

  lemma UntagManifestEvolves(s: Store, d: Digest)
    requires d in s.manifests
    ensures Evolved(s, UntagManifest(s, d))
  {
    hide ManifestCharge;
    var s' := UntagManifest(s, d);
    assert TagsFollow(s, s');
    assert BlobsEvolved(s, s');
    assert RedisEvolved(s, s');
    hide TagsFollow, BlobsEvolved, RedisEvolved;
  }

  lemma UntagManifestRecomputed(s: Store, d: Digest)
    requires d in s.manifests
    ensures UntagManifest(s, d).Recomputed() == s.Recomputed().Minus(ManifestCharge(s.manifests[d]))
  {
    hide Store.Recomputed, AddsUp;
    hide ManifestCharge, Usage.Plus, Usage.Minus;
    RecomputedAddsUp(s);
    RecomputedAddsUp(UntagManifest(s, d));
    AddsUpIsSum();
    assert ManifestCharges(s.manifests - {d}) == ManifestCharges(s.manifests) - {d};
    TotalDrop(ManifestCharges(s.manifests), d);
    TakeFromSum(Total(BlobCharges(s.blobs)), Total(ManifestCharges(s.manifests)), Total(RedisCharges(s.redis)),
                ManifestCharge(s.manifests[d]), ZERO);
  }

  lemma FlagManifestKeepsOwnership(s: Store, d: Digest)
    requires s.Owned() && d in s.manifests
    ensures FlagManifest(s, d).Owned()
  {
    assert FlagManifest(s, d).FilesPresent();
    OwnershipInherited(s, FlagManifest(s, d));
  }

  lemma FlagManifestRecomputed(s: Store, d: Digest)
    requires d in s.manifests
    ensures FlagManifest(s, d).Recomputed() == s.Recomputed()
  {
    assert ManifestCharges(FlagManifest(s, d).manifests) == ManifestCharges(s.manifests);
  }

  lemma FlagManifestEvolves(s: Store, d: Digest)
    requires d in s.manifests
    ensures Evolved(s, FlagManifest(s, d))
  {
    var s' := FlagManifest(s, d);
    assert TagsFollow(s, s');
    assert BlobsEvolved(s, s');
    assert RedisEvolved(s, s');
    hide TagsFollow, BlobsEvolved, RedisEvolved;
  }

  // ---- Redis entries

  lemma RemoveRedisKeepsOwnership(s: Store, k: Bytes)
    requires s.Owned()
    ensures s.RemoveRedis(k).Owned()
  {
    hide RedisCharge;
    assert s.RemoveRedis(k).FilesPresent();
    hide Store.FilesPresent;
  }

  lemma RemoveRedisEvolves(s: Store, k: Bytes)
    ensures Evolved(s, s.RemoveRedis(k))
  {
    hide RedisCharge, BlobsEvolved, RedisEvolved, TagsFollow;
    RemoveRedisBytes(s, k);
    RemoveRedisTags(s, k);
  }

  lemma RemoveRedisBytes(s: Store, k: Bytes)
    ensures BlobsEvolved(s, s.RemoveRedis(k)) && RedisEvolved(s, s.RemoveRedis(k))
  {
    hide RedisCharge, SameOrSpilledBlob, SameOrSpilledEntry;
    forall d | d in s.blobs ensures SameOrSpilledBlob(s.blobs[d], s.blobs[d]) { SpilledOrNot(s.blobs[d]); }
    forall j | j in s.redis ensures SameOrSpilledEntry(s.redis[j], s.redis[j]) { EntrySpilledOrNot(s.redis[j]); }
  }

  lemma SpilledOrNot(b: Blob)
    ensures SameOrSpilledBlob(b, b)
  {}

  lemma EntrySpilledOrNot(e: RedisEntry)
    ensures SameOrSpilledEntry(e, e)
  {}

  lemma RemoveRedisTags(s: Store, k: Bytes)
    ensures TagsFollow(s, s.RemoveRedis(k))
  {
    hide RedisCharge;
  }

  lemma RemoveRedisRecomputed(s: Store, k: Bytes)
    requires k in s.redis
    ensures s.RemoveRedis(k).Recomputed() == s.Recomputed().Minus(RedisCharge(k, s.redis[k]))
  {
    hide Store.Recomputed, AddsUp;
    hide RedisCharge, Usage.Plus, Usage.Minus;
    RecomputedAddsUp(s);
    RecomputedAddsUp(s.RemoveRedis(k));
    AddsUpIsSum();
    assert RedisCharges(s.redis - {k}) == RedisCharges(s.redis) - {k};
    TotalDrop(RedisCharges(s.redis), k);
    TakeFromSum(Total(ManifestCharges(s.manifests)), Total(RedisCharges(s.redis)), Total(BlobCharges(s.blobs)),
                RedisCharge(k, s.redis[k]), ZERO);
  }

  lemma SpillRedisKeepsOwnership(s: Store, k: Bytes, lastAccessed: nat)
    requires s.Owned() && k in s.redis && s.redis[k].InMemory?
    ensures SpillRedis(s, k, |s.redis[k].value|, lastAccessed).Owned()
  {
    var s' := SpillRedis(s, k, |s.redis[k].value|, lastAccessed);
    assert s'.FilesPresent();
    OwnershipInherited(s, s');
  }

  lemma MoveCharge(key: Usage, x: Usage, y: Usage, t: Usage)
    ensures t.Minus(key.Plus(x)).Plus(key.Plus(y)) == t.Minus(x).Plus(y)
  {}

  lemma SpillRedisRecomputed(s: Store, k: Bytes)
    requires k in s.redis && IsLargeValue(s.redis[k])
    ensures var n := |s.redis[k].value|;
      SpillRedis(s, k, n, s.redis[k].lastAccessed).Recomputed() ==
        s.Recomputed().Minus(In(LargeRedisMemory, n)).Plus(In(RedisDisk, n))
  {
    hide Total, MapOf;
    var n := |s.redis[k].value|;
    var e := RedisEntry.OnDisk(s.redis[k].id, n, s.redis[k].lastAccessed);
    var x, y := In(LargeRedisMemory, n), In(RedisDisk, n);
    var s' := SpillRedis(s, k, n, s.redis[k].lastAccessed);
    assert ValueCharge(s.redis[k]) == x && ValueCharge(e) == y;
    hide ValueCharge, KeyCharge, In, Usage.Plus, Usage.Minus, Store.Recomputed, AddsUp;
    assert RedisCharges(s.redis[k := e]) == RedisCharges(s.redis)[k := RedisCharge(k, e)];
    var t := Total(RedisCharges(s.redis));
    TotalPut(RedisCharges(s.redis), k, RedisCharge(k, e));
    MoveCharge(KeyCharge(k), x, y, t);
    RecomputedAddsUp(s);
    RecomputedAddsUp(s');
    AddsUpIsSum();
    TakeFromSum(Total(ManifestCharges(s.manifests)), t, Total(BlobCharges(s.blobs)), x, y);
  }

  lemma SpillRedisEvolves(s: Store, k: Bytes)
    requires s.Owned() && k in s.redis && IsLargeValue(s.redis[k])
    ensures Evolved(s, SpillRedis(s, k, |s.redis[k].value|, s.redis[k].lastAccessed))
  {
    var s' := SpillRedis(s, k, |s.redis[k].value|, s.redis[k].lastAccessed);
    assert TagsFollow(s, s');
    assert BlobsEvolved(s, s');
    assert RedisEvolved(s, s');
    hide TagsFollow, BlobsEvolved, RedisEvolved;
  }
}
