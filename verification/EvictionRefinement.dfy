/** From one reference at a time to a whole reference list: what walking a
    manifest's digests in order adds up to. */
module EvictionRefinement {
  import opened Prelude
  import opened DigestText
  import opened UsageSums
  import opened References
  import opened Cache
  import opened CacheState
  import opened EvictionMachine
  import opened EvictionStore

  // ---- One reference of a dropped or spilled manifest

  function UnevictedOnce(b: BlobBk, evicted: bool): BlobBk {
    if evicted then b else b.(unevictedRefs := SaturatingSub(b.unevictedRefs, 1))
  }

  function DroppedOnce(b: BlobBk, evicted: bool): BlobBk {
    var b1 := UnevictedOnce(b, evicted);
    b1.(refs := SaturatingSub(b1.refs, 1))
  }

  lemma MultisetGrows(refs: seq<Digest>, i: nat, r: Digest)
    requires i < |refs|
    ensures multiset(refs[..i + 1])[r] == multiset(refs[..i])[r] + (if r == refs[i] then 1 else 0)
  {
    assert refs[..i + 1] == refs[..i] + [refs[i]];
  }

  lemma DroppedBkGrows(bk: map<Digest, BlobBk>, evicted: bool, refs: seq<Digest>, i: nat)
    requires i < |refs|
    ensures var bk1, r := DroppedBk(bk, evicted, refs[..i]), refs[i];
      DroppedBk(bk, evicted, refs[..i + 1]) == if r in bk1 then bk1[r := DroppedOnce(bk1[r], evicted)] else bk1
  {
    hide MapOf;
    var bk1, bk2, r := DroppedBk(bk, evicted, refs[..i]), DroppedBk(bk, evicted, refs[..i + 1]), refs[i];
    forall x | x in bk
      ensures bk2[x] == if x == r then DroppedOnce(bk1[x], evicted) else bk1[x]
    {
      MultisetGrows(refs, i, x);
    }
  }

  lemma SpilledBkGrows(bk: map<Digest, BlobBk>, evicted: bool, refs: seq<Digest>, i: nat)
    requires i < |refs|
    ensures var bk1, r := SpilledBk(bk, evicted, refs[..i]), refs[i];
      SpilledBk(bk, evicted, refs[..i + 1]) == if r in bk1 then bk1[r := UnevictedOnce(bk1[r], evicted)] else bk1
  {
    hide MapOf;
    var bk1, bk2, r := SpilledBk(bk, evicted, refs[..i]), SpilledBk(bk, evicted, refs[..i + 1]), refs[i];
    forall x | x in bk
      ensures bk2[x] == if x == r then UnevictedOnce(bk1[x], evicted) else bk1[x]
    {
      MultisetGrows(refs, i, x);
    }
  }

  lemma NoReferenceWalked(bk: map<Digest, BlobBk>, evicted: bool)
    ensures DroppedBk(bk, evicted, []) == bk && SpilledBk(bk, evicted, []) == bk
  {
    hide MapOf;
    assert forall x :: x in bk ==> DroppedBk(bk, evicted, [])[x] == bk[x];
    assert forall x :: x in bk ==> SpilledBk(bk, evicted, [])[x] == bk[x];
  }

  /** Remove one blob and, if it was on disk, its file. */
  ghost function DeleteOne(s: Store, r: Digest): Store
    requires r in s.blobs
  {
    var s' := s.RemoveBlob(r);
    if s.blobs[r].OnDisk? then s'.DeleteFile(s.blobs[r].id) else s'
  }

  lemma BlobTotalPlusOne(s: Store, w: set<Digest>, r: Digest)
    requires r in s.blobs && r !in w
    ensures BlobTotal(s, w + {r}) == BlobTotal(s, w).Plus(BlobCharge(s.blobs[r]))
  {
    hide BlobCharge, Total, MapOf;
    var charges := BlobCharges(Restrict(s.blobs, w + {r}));
    RestrictKeys(s.blobs, w + {r}, r);
    assert Restrict(s.blobs, w + {r}) - {r} == Restrict(s.blobs, w);
    assert charges - {r} == BlobCharges(Restrict(s.blobs, w));
    hide Restrict, BlobCharges;
    TotalTake(charges, r);
  }

  lemma DeletedIdsGrow(s: Store, w: set<Digest>, r: Digest)
    requires r in s.blobs
    ensures DeletedIds(s, w + {r}) ==
      if s.blobs[r].OnDisk? then DeletedIds(s, w) + {s.blobs[r].id} else DeletedIds(s, w)
  {}

  lemma DeleteMore(s: Store, w: set<Digest>, r: Digest)
    requires r in s.blobs && r !in w
    ensures DeleteOne(DeleteBlobs(s, w), r) == DeleteBlobs(s, w + {r})
  {
    hide BlobTotal, BlobCharge, DeletedIds, Usage.Plus, Usage.Minus;
    BlobTotalPlusOne(s, w, r);
    DeletedIdsGrow(s, w, r);
    MinusTwice(s.counters, BlobTotal(s, w), BlobCharge(s.blobs[r]));
    var s1 := DeleteBlobs(s, w);
    assert s1.blobs - {r} == s.blobs - (w + {r});
    if s.blobs[r].OnDisk? {
      assert s1.disk - {s.blobs[r].id} == s.disk - (DeletedIds(s, w) + {s.blobs[r].id});
    }
  }

  lemma NothingDeleted(s: Store)
    ensures DeleteBlobs(s, {}) == s && BlobTotal(s, {}) == ZERO
  {
    assert Restrict(s.blobs, {}) == map[];
    NoBlobs(Restrict(s.blobs, {}));
    hide BlobTotal;
    assert s.blobs - {} == s.blobs;
    assert DeletedIds(s, {}) == {};
    assert s.disk - {} == s.disk;
  }

  /** Write one blob to its file and replace its entry. */
  function SpillOne(s: Store, r: Digest): Store
    requires r in s.blobs && s.blobs[r].InMemory?
  {
    s.WriteFile(s.blobs[r].id, s.blobs[r].content).InsertBlob(r, ToDisk(s.blobs[r]))
  }

  lemma MapPut<K, V>(m: map<K, V>, m': map<K, V>, k: K, v: V)
    requires m'.Keys == m.Keys + {k} && m'[k] == v && forall x :: x in m && x != k ==> m'[x] == m[x]
    ensures m' == m[k := v]
  {}

  lemma SpillFilesAgree(s: Store, w: set<Digest>, r: Digest)
    requires s.DistinctIds() && AllLargeInMemory(s, w + {r}) && AllLargeInMemory(s, w) && r in s.blobs && r !in w
    ensures SpillFiles(s, w + {r}).Keys == SpillFiles(s, w).Keys + {s.blobs[r].id}
    ensures forall x :: x in SpillFiles(s, w) ==> SpillFiles(s, w + {r})[x] == SpillFiles(s, w)[x]
  {
    hide SpillFiles, IsLargeInMemory;
    var id, f1, f2 := s.blobs[r].id, SpillFiles(s, w), SpillFiles(s, w + {r});
    assert r in w + {r};
    forall x | x in f2 ensures x == id || x in f1 {
      var d :| d in w + {r} && s.blobs[d].id == x;
    }
    forall x | x in f1 ensures x in f2 && f1[x] == f2[x] {
      var d :| d in w && s.blobs[d].id == x;
      assert d in w + {r};
    }
  }

  lemma SpillFilesGrow(s: Store, w: set<Digest>, r: Digest)
    requires s.DistinctIds() && AllLargeInMemory(s, w + {r}) && AllLargeInMemory(s, w) && r !in w
    ensures r in s.blobs && s.blobs[r].InMemory?
    ensures SpillFiles(s, w + {r}) == SpillFiles(s, w)[s.blobs[r].id := s.blobs[r].content]
  {
    LargeSubset(s, w, r);
    SpillFilesAgree(s, w, r);
    assert r in w + {r};
    var f1, f2 := SpillFiles(s, w), SpillFiles(s, w + {r});
    assert f2[s.blobs[r].id] == s.blobs[r].content;
    hide SpillFiles, IsLargeInMemory, Store.DistinctIds, AllLargeInMemory;
    MapPut(f1, f2, s.blobs[r].id, s.blobs[r].content);
  }

  lemma LargeSubset(s: Store, w: set<Digest>, r: Digest)
    requires AllLargeInMemory(s, w + {r})
    ensures AllLargeInMemory(s, w) && r in s.blobs && IsLargeInMemory(s.blobs[r]) && s.blobs[r].InMemory?
  {
    assert r in w + {r};
  }

  lemma MoveMore(c: Usage, n: int, k: int)
    ensures MoveCounters(c, n).Plus(In(BlobDisk, k)).Minus(In(LargeBlobMemory, k)) == MoveCounters(c, n + k)
  {}

  lemma SpillInGrows(bs: map<Digest, Blob>, w: set<Digest>, r: Digest)
    requires r in bs && r !in w
    ensures SpillIn(bs, w)[r] == bs[r] && SpillIn(bs, w + {r}) == SpillIn(bs, w)[r := ToDisk(bs[r])]
  {
    hide MapOf, ToDisk;
  }

  lemma SpillTotalGrows(s: Store, w: set<Digest>, r: Digest)
    requires r in s.blobs && IsLargeInMemory(s.blobs[r]) && r !in w
    ensures BlobTotal(s, w + {r}).largeBlobMemory == BlobTotal(s, w).largeBlobMemory + |s.blobs[r].content|
  {
    hide BlobTotal;
    OneSpill(s.blobs[r]);
    BlobTotalPlusOne(s, w, r);
  }

  lemma SpillMore(s: Store, w: set<Digest>, r: Digest)
    requires s.DistinctIds() && AllLargeInMemory(s, w + {r}) && AllLargeInMemory(s, w) && r !in w
    requires r in s.blobs && s.blobs[r].InMemory?
    ensures var s1 := SpillBlobs(s, w);
      r in s1.blobs && s1.blobs[r] == s.blobs[r] && SpillOne(s1, r) == SpillBlobs(s, w + {r})
  {
    hide BlobTotal, SpillFiles, SpillIn, In, MoveCounters, Usage.Plus, Usage.Minus;
    LargeSubset(s, w, r);
    SpillTotalGrows(s, w, r);
    SpillFilesGrow(s, w, r);
    OneSpill(s.blobs[r]);
    hide BlobCharge, ToDisk, AllLargeInMemory, Store.DistinctIds, IsLargeInMemory;
    SpillInGrows(s.blobs, w, r);
    MoveMore(s.counters, BlobTotal(s, w).largeBlobMemory, |s.blobs[r].content|);
    var id, c := s.blobs[r].id, s.blobs[r].content;
    assert s.disk + SpillFiles(s, w)[id := c] == (s.disk + SpillFiles(s, w))[id := c];
  }

  lemma NothingSpilled(s: Store)
    requires s.DistinctIds()
    ensures AllLargeInMemory(s, {}) && SpillBlobs(s, {}) == s && BlobTotal(s, {}).largeBlobMemory == 0
  {
    NothingDeleted(s);
    hide BlobTotal, MapOf;
    assert SpillIn(s.blobs, {}) == s.blobs;
    assert s.disk + SpillFiles(s, {}) == s.disk;
  }

  /** One more reference walked: `r` joins the deleted set when its count has run out. */
  lemma ToDeleteGrows(s: Store, bk: map<Digest, BlobBk>, evicted: bool, refs: seq<Digest>, i: nat)
    requires i < |refs|
    ensures var bk1, bk2, r := DroppedBk(bk, evicted, refs[..i]), DroppedBk(bk, evicted, refs[..i + 1]), refs[i];
      ToDelete(s, bk2, refs[..i + 1]) ==
        if r in bk2 && r in s.blobs && bk2[r].refs == 0 && CascadeExpired(s.now, bk2[r].lastAccessed)
        then ToDelete(s, bk1, refs[..i]) + {r} else ToDelete(s, bk1, refs[..i])
  {
    hide DroppedBk, CascadeExpired, MapOf;
    DroppedBkGrows(bk, evicted, refs, i);
    var bk1, bk2, r := DroppedBk(bk, evicted, refs[..i]), DroppedBk(bk, evicted, refs[..i + 1]), refs[i];
    assert forall x :: x in refs[..i + 1] <==> x in refs[..i] || x == r;
    forall x | x != r ensures x in ToDelete(s, bk2, refs[..i + 1]) <==> x in ToDelete(s, bk1, refs[..i]) {}
    assert r in ToDelete(s, bk1, refs[..i]) ==> r in ToDelete(s, bk2, refs[..i + 1]);
  }

  lemma ToSpillGrows(s: Store, bk: map<Digest, BlobBk>, evicted: bool, refs: seq<Digest>, i: nat)
    requires i < |refs|
    ensures var bk1, bk2, r := SpilledBk(bk, evicted, refs[..i]), SpilledBk(bk, evicted, refs[..i + 1]), refs[i];
      ToSpill(s, bk2, refs[..i + 1]) ==
        if r in bk2 && r in s.blobs && bk2[r].unevictedRefs == 0 && bk2[r].tier == LargeMem && s.blobs[r].InMemory?
        then ToSpill(s, bk1, refs[..i]) + {r} else ToSpill(s, bk1, refs[..i])
  {
    hide SpilledBk, MapOf;
    SpilledBkGrows(bk, evicted, refs, i);
    var bk1, bk2, r := SpilledBk(bk, evicted, refs[..i]), SpilledBk(bk, evicted, refs[..i + 1]), refs[i];
    assert forall x :: x in refs[..i + 1] <==> x in refs[..i] || x == r;
    forall x | x != r ensures x in ToSpill(s, bk2, refs[..i + 1]) <==> x in ToSpill(s, bk1, refs[..i]) {}
    assert r in ToSpill(s, bk1, refs[..i]) ==> r in ToSpill(s, bk2, refs[..i + 1]);
  }

  // ---- Walking the references of a dropped manifest

  ghost function AfterDropRef(m: Machine, r: Digest, evicted: bool): Machine {
    if r !in m.bk then
      m
    else
      var b := DroppedOnce(m.bk[r], evicted);
      var m1 := m.(bk := m.bk[r := b]);
      if b.refs == 0 && CascadeExpired(m.s.now, b.lastAccessed) && r in m.s.blobs then
        m1.(s := DeleteOne(m.s, r), acc := m.acc.Saturating(BlobCharge(m.s.blobs[r])))
      else
        m1
  }

  ghost function DropWalk(m: Machine, evicted: bool, refs: seq<Digest>): Machine {
    var bk := DroppedBk(m.bk, evicted, refs);
    var w := ToDelete(m.s, bk, refs);
    m.(s := DeleteBlobs(m.s, w), bk := bk, acc := m.acc.Saturating(BlobTotal(m.s, w)))
  }

  lemma SaturatingTwice(c: Usage, u: Usage, v: Usage)
    requires ZERO.AtMost(u) && ZERO.AtMost(v)
    ensures c.Saturating(u).Saturating(v) == c.Saturating(u.Plus(v))
  {}

  lemma SaturatingZero(c: Usage)
    requires ZERO.AtMost(c)
    ensures c.Saturating(ZERO) == c
  {}

  lemma DropWalkStart(m: Machine, evicted: bool)
    requires ZERO.AtMost(m.acc)
    ensures DropWalk(m, evicted, []) == m
  {
    hide DroppedBk, DeleteBlobs, BlobTotal;
    NoReferenceWalked(m.bk, evicted);
    assert ToDelete(m.s, m.bk, []) == {};
    NothingDeleted(m.s);
    SaturatingZero(m.acc);
  }

  /** A blob the walk reaches again is already gone. */
  lemma DropWalkStep(m: Machine, evicted: bool, refs: seq<Digest>, i: nat)
    requires i < |refs|
    ensures AfterDropRef(DropWalk(m, evicted, refs[..i]), refs[i], evicted) == DropWalk(m, evicted, refs[..i + 1])
  {
    hide DroppedBk, BlobTotal, BlobCharge, CascadeExpired, Usage.Saturating, Usage.Plus, DroppedOnce, DeleteOne;
    var bk1, bk2, r := DroppedBk(m.bk, evicted, refs[..i]), DroppedBk(m.bk, evicted, refs[..i + 1]), refs[i];
    var w1, w2 := ToDelete(m.s, bk1, refs[..i]), ToDelete(m.s, bk2, refs[..i + 1]);
    var s1 := DeleteBlobs(m.s, w1);
    assert s1.now == m.s.now && forall x :: x in s1.blobs <==> x in m.s.blobs && x !in w1;
    DroppedBkGrows(m.bk, evicted, refs, i);
    ToDeleteGrows(m.s, m.bk, evicted, refs, i);
    hide ToDelete, DeleteBlobs;
    if r in bk2 && r in m.s.blobs && bk2[r].refs == 0 && CascadeExpired(m.s.now, bk2[r].lastAccessed) {
      if r in w1 {
        assert w2 == w1;
      } else {
        DropWalkMore(m, w1, r);
      }
    }
  }

  lemma DropWalkMore(m: Machine, w: set<Digest>, r: Digest)
    requires r in m.s.blobs && r !in w
    ensures r in DeleteBlobs(m.s, w).blobs && DeleteBlobs(m.s, w).blobs[r] == m.s.blobs[r]
    ensures DeleteOne(DeleteBlobs(m.s, w), r) == DeleteBlobs(m.s, w + {r})
    ensures m.acc.Saturating(BlobTotal(m.s, w)).Saturating(BlobCharge(m.s.blobs[r])) ==
      m.acc.Saturating(BlobTotal(m.s, w + {r}))
  {
    BlobTotalIsOnlyBlobs(m.s, w);
    assert ZERO.AtMost(BlobCharge(m.s.blobs[r]));
    hide BlobTotal, BlobCharge, Usage.Saturating, Usage.Plus, OnlyBlobs, DeletedIds;
    DeleteMore(m.s, w, r);
    BlobTotalPlusOne(m.s, w, r);
    SaturatingTwice(m.acc, BlobTotal(m.s, w), BlobCharge(m.s.blobs[r]));
  }

  /** The machine's drop is the removal of the manifest followed by the walk. */
  lemma DropManifestIsWalk(lib: Library, m: Machine, d: Digest)
    requires d in m.s.manifests
    ensures DropManifest(lib, m, d) ==
      DropWalk(m.(s := UntagManifest(m.s, d), acc := m.acc.Saturating(ManifestCharge(m.s.manifests[d]))),
               m.s.manifests[d].evicted, ReferencedDigests(lib, m.s.manifests[d].content))
  {
    hide DroppedBk, ManifestCharge, Usage.Saturating, CascadeExpired;
    var refs := ReferencedDigests(lib, m.s.manifests[d].content);
    var s1, bk := UntagManifest(m.s, d), DroppedBk(m.bk, m.s.manifests[d].evicted, refs);
    assert ToDelete(s1, bk, refs) == ToDelete(m.s, bk, refs);
    assert BlobTotal(s1, ToDelete(m.s, bk, refs)) == BlobTotal(m.s, ToDelete(m.s, bk, refs));
    hide BlobTotal, ToDelete, UntagManifest, DeleteBlobs;
  }

  // ---- Walking the references of a spilled manifest

  ghost function AfterSpillRef(m: Machine, r: Digest, evicted: bool): Machine {
    if r !in m.bk then
      m
    else
      var b := UnevictedOnce(m.bk[r], evicted);
      var m1 := m.(bk := m.bk[r := b]);
      if b.unevictedRefs == 0 && b.tier == LargeMem && r in m.s.blobs && m.s.blobs[r].InMemory? then
        m1.(s := SpillOne(m.s, r), acc := Moved(m.acc, |m.s.blobs[r].content|))
      else
        m1
  }

  ghost function SpillWalk(m: Machine, evicted: bool, refs: seq<Digest>): Machine
    requires m.s.DistinctIds() && LargeTierMatches(m)
  {
    var bk := SpilledBk(m.bk, evicted, refs);
    var w := ToSpill(m.s, bk, refs);
    assert AllLargeInMemory(m.s, w) by { ToSpillIsLarge(m, evicted, refs); }
    m.(s := SpillBlobs(m.s, w), bk := bk, acc := Moved(m.acc, BlobTotal(m.s, w).largeBlobMemory))
  }

  lemma SpillWalkStart(m: Machine, evicted: bool)
    requires m.s.DistinctIds() && LargeTierMatches(m) && ZERO.AtMost(m.acc)
    ensures SpillWalk(m, evicted, []) == m
  {
    hide SpilledBk, SpillBlobs, BlobTotal, LargeTierMatches;
    NoReferenceWalked(m.bk, evicted);
    assert ToSpill(m.s, m.bk, []) == {};
    NothingSpilled(m.s);
  }

  lemma MovedTwice(acc: Usage, n: nat, k: nat)
    ensures Moved(Moved(acc, n), k) == Moved(acc, n + k)
  {}

  lemma SpillWalkMore(m: Machine, w: set<Digest>, r: Digest)
    requires m.s.DistinctIds() && AllLargeInMemory(m.s, w) && AllLargeInMemory(m.s, w + {r}) && r !in w
    requires r in m.s.blobs && m.s.blobs[r].InMemory?
    ensures var s1 := SpillBlobs(m.s, w);
      && r in s1.blobs && s1.blobs[r] == m.s.blobs[r]
      && SpillOne(s1, r) == SpillBlobs(m.s, w + {r})
      && Moved(Moved(m.acc, BlobTotal(m.s, w).largeBlobMemory), |m.s.blobs[r].content|) ==
           Moved(m.acc, BlobTotal(m.s, w + {r}).largeBlobMemory)
  {
    hide BlobTotal, SpillBlobs, SpillOne, Moved, OnlyBlobs, IsLargeInMemory, AllLargeInMemory, Store.DistinctIds;
    BlobTotalIsOnlyBlobs(m.s, w);
    LargeSubset(m.s, w, r);
    SpillMore(m.s, w, r);
    SpillTotalGrows(m.s, w, r);
    MovedTwice(m.acc, BlobTotal(m.s, w).largeBlobMemory, |m.s.blobs[r].content|);
  }

  /** A blob the walk reaches again is already on disk. */
  lemma SpillWalkStep(m: Machine, evicted: bool, refs: seq<Digest>, i: nat)
    requires m.s.DistinctIds() && LargeTierMatches(m) && i < |refs|
    ensures AfterSpillRef(SpillWalk(m, evicted, refs[..i]), refs[i], evicted) == SpillWalk(m, evicted, refs[..i + 1])
  {
    hide SpilledBk, BlobTotal, Moved, UnevictedOnce, SpillOne, SpillFiles, MoveCounters, LargeTierMatches;
    hide Store.DistinctIds;
    hide AllLargeInMemory, SpillIn;
    var bk1, bk2, r := SpilledBk(m.bk, evicted, refs[..i]), SpilledBk(m.bk, evicted, refs[..i + 1]), refs[i];
    var w1, w2 := ToSpill(m.s, bk1, refs[..i]), ToSpill(m.s, bk2, refs[..i + 1]);
    ToSpillIsLarge(m, evicted, refs[..i]);
    ToSpillIsLarge(m, evicted, refs[..i + 1]);
    SpilledBkGrows(m.bk, evicted, refs, i);
    ToSpillGrows(m.s, m.bk, evicted, refs, i);
    SpillBlobsEntry(m.s, w1, r);
    hide ToSpill, SpillBlobs;
    if r in bk2 && r in m.s.blobs && bk2[r].unevictedRefs == 0 && bk2[r].tier == LargeMem && m.s.blobs[r].InMemory? {
      if r in w1 {
        assert w2 == w1;
      } else {
        SpillWalkMore(m, w1, r);
      }
    }
  }

  lemma SpillBlobsEntry(s: Store, w: set<Digest>, r: Digest)
    requires s.DistinctIds() && AllLargeInMemory(s, w)
    ensures var s1 := SpillBlobs(s, w);
      && (r in s1.blobs <==> r in s.blobs)
      && (r in s.blobs ==> s1.blobs[r] == if r in w then ToDisk(s.blobs[r]) else s.blobs[r])
      && (r in w ==> r in s.blobs && s1.blobs[r].OnDisk?)
  {
    hide BlobTotal, SpillFiles, MoveCounters, MapOf;
  }
}
