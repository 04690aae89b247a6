/** What using an item does to its place in the order of eviction: the touch times that
    hits and insertions leave (src/docker.rs:369-380, 1037-1067, src/redis.rs:164-176), and
    what they are worth when a pass comes. */
module Touches {
  import opened Prelude
  import opened DigestText
  import opened UsageSums
  import opened References
  import opened Cache
  import opened EvictionMachine
  import opened EvictionStore
  import opened EvictionInvariant
  import opened EvictionHeaps
  import opened EvictionTheorems
  import opened EvictionPhases
  import opened EvictionBudgets
  import opened EvictionGauges
  import opened EvictionExactGauges
  import opened RedisServer
  import opened Uploads

  // ---- Manifests

  /** A manifest that is served, from the cache or from upstream, is last used now and not
      flagged, under the content and media type that were served; nothing else about it
      changes, and no other manifest does. One that is not served leaves all as they are. */
  lemma {:induction false} ServedManifestIsTouched(
      s: Store, local: bool, name: Text, reference: Text, up: Upstream)
    ensures var (s', r) := GetManifest(s, local, name, reference, up);
      var d := Resolve(s, local, name, reference, up.digest);
      match r
      case Served(content, mediaType) =>
        && d.Some? && s'.manifests == s.manifests[d.value := Manifest(content, mediaType, s.now, false)]
        && (d.value in s.manifests ==>
              content == s.manifests[d.value].content && mediaType == s.manifests[d.value].mediaType
              && s'.counters == s.counters)
      case _ => s' == s
    ensures var s' := GetManifest(s, local, name, reference, up).0;
      s' == s.(manifests := s'.manifests, counters := s'.counters)
  {
    hide Parse, ManifestCharge;
  }

  /** A manifest that is pushed is last used now and not flagged. */
  lemma {:induction false} PushedManifestIsFresh(
      lib: Library, s: Store, name: Text, reference: Text, mediaType: Text, body: Bytes)
    ensures PutManifest(lib, s, name, reference, mediaType, body).manifests ==
      s.manifests[lib.sha256(body) := Manifest(body, mediaType, s.now, false)]
  {
    hide Parse, Print, ManifestCharge;
  }

  // ---- Blobs

  /** A blob request that hits touches the blob and changes nothing else. */
  lemma {:induction false} ServedBlobIsTouched(s: Store, d: Digest, head: bool)
    ensures var s' := GetCachedBlob(s, d, head).0;
      if d !in s.blobs then s' == s
      else s' == s.(blobs := s.blobs[d :=
        match s.blobs[d]
        case InMemory(id, content, mediaType, _) => Blob.InMemory(id, content, mediaType, s.now)
        case OnDisk(id, size, mediaType, _) => Blob.OnDisk(id, size, mediaType, s.now)])
  {}

  /** A blob that is stored is in memory, under a new id, with its bytes, last used now. */
  lemma {:induction false} StoredBlobIsFresh(s: Store, d: Digest, content: Bytes, mediaType: Text)
    ensures var s' := StoreBlob(s, d, content, mediaType);
      && s'.blobs == s.blobs[d := Blob.InMemory(s.nextId, content, mediaType, s.now)]
      && s' == s.(blobs := s'.blobs, nextId := s.nextId + 1, counters := s'.counters)
  {
    hide BlobCharge;
  }

  // ---- Redis values

  /** GET of a value in memory touches it and changes nothing else; that of one on disk
      brings it back into memory, last used now. */
  lemma {:induction false} GotValueIsTouched(s: Store, k: Bytes)
    requires s.Owned() && k in s.redis
    ensures var s' := GetEntry(s, k).0;
      && k in s'.redis && s'.redis[k].InMemory? && s'.redis[k].lastAccessed == s.now
      && s'.redis[k].value == s.RedisValue(k) && s'.redis - {k} == s.redis - {k}
      && (s.redis[k].InMemory? ==> s' == s.(redis := s'.redis) && s'.redis[k].id == s.redis[k].id)
  {
    hide ValueCharge, KeyCharge;
    if s.redis[k].OnDisk? {
      OwnedFile(s, k);
    }
    hide Store.DistinctIds, Store.IdsBelowNext, Store.UnlinksAreDead, Store.FilesPresent;
  }

  /** A value that is set is in memory, last used now. */
  lemma {:induction false} SetValueIsFresh(s: Store, k: Bytes, v: Bytes)
    ensures s.InsertRedis(k, v).redis == s.redis[k := RedisEntry.InMemory(s.nextId, v, s.now)]
  {
    hide ValueCharge, KeyCharge;
  }

  // ---- What a touch is worth

  /** What a pass has dropped, one of its pops has dropped. */
  lemma {:induction false} DroppedByAPop(
      lib: Library, cfg: Config, s0: Store, events: seq<Event>, states: seq<Machine>, x: Candidate, n: nat)
      returns (i: nat)
    requires s0.Owned() && IsTrace(lib, cfg, s0, events, states) && n <= |events| && |states| == |events| + 1
    requires Describes(s0, x) && !Cached(states[n].s, x)
    ensures i < n && !events[i].PopLarge? && events[i].c.lastAccessed == x.lastAccessed
  {
    hide IsTrace, Store.Owned, PassFacts, Step, LargeTierMatches, Store.DistinctIds, Enabled, Cached, Describes;
    hide SameItem;
    if n == 0 {
      StartsCached(lib, cfg, s0, events, states, x);
      assert false;
    } else if !Cached(states[n - 1].s, x) {
      i := DroppedByAPop(lib, cfg, s0, events, states, x, n - 1);
    } else {
      i := n - 1;
      var m, ev := states[i], events[i];
      TraceAt(lib, cfg, s0, events, states, i);
      if ev.PopLarge? || !SameItem(x, ev.c) {
        StepKeepsOthers(lib, m, ev, x);
      }
      TraceFacts(lib, cfg, s0, events, states, i);
      PoppedDescribes(lib, cfg, s0, m, ev);
      SameItemSameTime(s0, x, ev.c);
    }
  }

  lemma StartsCached(
      lib: Library, cfg: Config, s0: Store, events: seq<Event>, states: seq<Machine>, x: Candidate)
    requires IsTrace(lib, cfg, s0, events, states) && Describes(s0, x)
    ensures |states| > 0 && Cached(states[0].s, x)
  {
    hide InitialBk, Store.Recomputed, SmallCandidates, LargeCandidates, DiskCandidates, TraceStep;
  }

  lemma SameItemSameTime(s0: Store, x: Candidate, c: Candidate)
    requires Describes(s0, x) && Describes(s0, c) && SameItem(x, c)
    ensures c.lastAccessed == x.lastAccessed
  {}

  lemma PoppedDescribes(lib: Library, cfg: Config, s0: Store, m: Machine, ev: Event)
    requires PassFacts(lib, s0, m) && Enabled(cfg, m, ev)
    ensures !ev.PopLarge? ==> Describes(s0, ev.c)
  {
    hide PassFacts, Inv, PicksSmall, PicksLarge, PicksDisk, LargeHeapOk, LargeOrDisk, SpilledAreFlagged, DeletedRightly;
    hide ManifestsEvolved, BlobsEvolved, RedisEvolved;
    Facts(lib, s0, m);
  }

  /** Whatever a pass drops, manifest or value, was least recently used: nothing small that
      it leaves was last used before; or, when a pop of the disk heap dropped it, nothing
      that it leaves on disk was, except through manifests flagged before the pass and
      still on the large heap. */
  lemma {:induction false} DroppedWasOldest(
      lib: Library, cfg: Config, s0: Store, events: seq<Event>, states: seq<Machine>, s1: Store, x: Candidate)
    requires s0.Owned() && IsPass(lib, cfg, s0, events, states, s1) && Describes(s0, x) && !Cached(s1, x)
    ensures || (forall y :: LiveSmall(s1, y) ==> x.lastAccessed <= y.lastAccessed)
            || (forall y :: LiveOnDisk(lib, s1, y) ==>
                  x.lastAccessed <= y.lastAccessed || (Flagged(s0, y) && y in states[|events|].large))
  {
    hide Store.Owned, IsPass, IsTrace, Done, PassFacts, LiveSmall, LiveLarge, LiveOnDisk, Cached, Describes;
    var m := EndOfPass(lib, cfg, s0, events, states, s1);
    SameCached(m.s, s1);
    var i := DroppedByAPop(lib, cfg, s0, events, states, x, |events|);
    if events[i].PopSmall? {
      forall y | LiveSmall(s1, y) ensures x.lastAccessed <= y.lastAccessed {
        LiveIsSmallItem(lib, s0, m, y);
        SmallPopsAreOldest(lib, cfg, s0, events, states, i, y);
      }
    } else {
      forall y | LiveOnDisk(lib, s1, y)
        ensures x.lastAccessed <= y.lastAccessed || (Flagged(s0, y) && y in states[|events|].large)
      {
        DiskPopsAreOldest(lib, cfg, s0, events, states, i, y);
      }
    }
  }

  lemma LiveIsSmallItem(lib: Library, s0: Store, m: Machine, y: Candidate)
    requires PassFacts(lib, s0, m) && LiveSmall(m.s, y)
    ensures y in SmallCandidates(s0) && Cached(m.s, y)
  {
    hide PassFacts, Inv, LargeOrDisk, SpilledAreFlagged, DeletedRightly, LargeHeapOk, DiskHeapOk, BlobsEvolved;
    hide Store.RedisValue, SmallCandidates, ManifestsEvolved, RedisEvolved;
    Facts(lib, s0, m);
    LiveSmallIsHeld(lib, s0, m, y);
  }

  lemma TouchKeepsOwnership(s: Store, ms: map<Digest, Manifest>, counters: Usage)
    requires s.Owned()
    ensures s.(manifests := ms, counters := counters).Owned()
  {
    var s' := s.(manifests := ms, counters := counters);
    assert s'.FilesPresent();
    OwnershipInherited(s, s');
  }

  /** A manifest that has just been served goes last. If a pass drops it all the same, then
      nothing small that was last used before it was served is left; or, if the disk called
      for it, nothing on disk is, with the exception above. */
  lemma {:induction false} JustServedGoesLast(
      lib: Library, cfg: Config, s: Store, local: bool, name: Text, reference: Text, up: Upstream,
      events: seq<Event>, states: seq<Machine>, s1: Store, d: Digest)
    requires s.Owned() && GetManifest(s, local, name, reference, up).1.Served?
    requires Resolve(s, local, name, reference, up.digest) == Some(d)
    requires IsPass(lib, cfg, GetManifest(s, local, name, reference, up).0, events, states, s1) && d !in s1.manifests
    ensures || (forall y :: LiveSmall(s1, y) ==> s.now <= y.lastAccessed)
            || (forall y :: LiveOnDisk(lib, s1, y) ==>
                  s.now <= y.lastAccessed
                  || (Flagged(GetManifest(s, local, name, reference, up).0, y) && y in states[|events|].large))
  {
    hide IsPass, Store.Owned, GetManifest, Resolve, LiveSmall, LiveOnDisk, Flagged;
    var s0 := GetManifest(s, local, name, reference, up).0;
    ServedManifestIsTouched(s, local, name, reference, up);
    TouchKeepsOwnership(s, s0.manifests, s0.counters);
    DroppedWasOldest(lib, cfg, s0, events, states, s1, CandidateOf(s0, d));
  }

  /** The same for a value that has just been read. */
  lemma {:induction false} JustReadGoesLast(
      lib: Library, cfg: Config, s: Store, k: Bytes,
      events: seq<Event>, states: seq<Machine>, s1: Store)
    requires s.Owned() && k in s.redis && IsPass(lib, cfg, GetEntry(s, k).0, events, states, s1) && k !in s1.redis
    ensures || (forall y :: LiveSmall(s1, y) ==> s.now <= y.lastAccessed)
            || (forall y :: LiveOnDisk(lib, s1, y) ==>
                  s.now <= y.lastAccessed || (Flagged(s, y) && y in states[|events|].large))
  {
    hide IsPass, Store.Owned, GetEntry, LiveSmall, LiveOnDisk, Store.Visible;
    GetRefines(s, k);
    GotValueIsTouched(s, k);
    GetLeavesManifests(s, k);
    DroppedWasOldest(lib, cfg, GetEntry(s, k).0, events, states, s1, RedisCandidateOf(GetEntry(s, k).0, k));
  }

  lemma GetLeavesManifests(s: Store, k: Bytes)
    ensures GetEntry(s, k).0.manifests == s.manifests
  {
    hide ValueCharge, KeyCharge, RedisCharge;
  }

  /** And for one that has just been set. */
  lemma {:induction false} JustSetGoesLast(
      lib: Library, cfg: Config, s: Store, k: Bytes, v: Bytes,
      events: seq<Event>, states: seq<Machine>, s1: Store)
    requires s.Owned() && IsPass(lib, cfg, s.InsertRedis(k, v), events, states, s1) && k !in s1.redis
    ensures || (forall y :: LiveSmall(s1, y) ==> s.now <= y.lastAccessed)
            || (forall y :: LiveOnDisk(lib, s1, y) ==>
                  s.now <= y.lastAccessed || (Flagged(s, y) && y in states[|events|].large))
  {
    hide IsPass, Store.Owned, LiveSmall, LiveOnDisk;
    InsertRedisKeepsOwnership(s, k, v);
    SetValueIsFresh(s, k, v);
    assert s.InsertRedis(k, v).manifests == s.manifests;
    hide Store.InsertRedis;
    DroppedWasOldest(lib, cfg, s.InsertRedis(k, v), events, states, s1, RedisCandidateOf(s.InsertRedis(k, v), k));
  }

  // ---- Blobs and the grace window

  /** A blob used less than five hours ago, and not at time zero, outlives every pass with
      its bytes. */
  lemma {:induction false} RecentBlobSurvives(
      lib: Library, cfg: Config, s0: Store, events: seq<Event>, states: seq<Machine>, s1: Store, d: Digest)
    requires s0.Owned() && IsPass(lib, cfg, s0, events, states, s1) && d in s0.blobs
    requires 0 < s0.blobs[d].lastAccessed && s0.now < s0.blobs[d].lastAccessed + 18000
    ensures d in s1.blobs && s1.BlobBytes(d) == s0.BlobBytes(d)
  {
    hide IsPass, Store.Owned, RefersTo, Store.BlobBytes, ManifestsEvolved, RedisEvolved, TagsFollow, UnlinksExplained;
    SurvivesIff(lib, cfg, s0, events, states, s1, d);
    PassEvolves(lib, cfg, s0, events, states, s1);
  }

  /** An older one does not, unless a surviving manifest refers to it. */
  lemma {:induction false} OldStrayIsSwept(
      lib: Library, cfg: Config, s0: Store, events: seq<Event>, states: seq<Machine>, s1: Store, d: Digest)
    requires s0.Owned() && IsPass(lib, cfg, s0, events, states, s1) && d in s0.blobs
    requires s0.now >= s0.blobs[d].lastAccessed + 18000
    ensures d in s1.blobs <==>
      exists e :: e in s1.manifests && d in ReferencedDigests(lib, s1.manifests[e].content)
  {
    hide IsPass, Store.Owned, ReferencedDigests;
    SurvivesIff(lib, cfg, s0, events, states, s1, d);
  }

  lemma ClockKeepsOwnership(s: Store, now: nat)
    requires s.Owned()
    ensures s.(now := now).Owned() && forall d :: d in s.blobs ==> s.(now := now).BlobBytes(d) == s.BlobBytes(d)
  {
    var s' := s.(now := now);
    assert s'.FilesPresent();
    OwnershipInherited(s, s');
  }

  lemma TouchedBlobIsOwned(s: Store, d: Digest, head: bool)
    requires s.Owned() && d in s.blobs
    ensures GetCachedBlob(s, d, head).0.Owned()
    ensures GetCachedBlob(s, d, head).0.BlobBytes(d) == s.BlobBytes(d)
  {
    var s' := GetCachedBlob(s, d, head).0;
    assert s'.FilesPresent();
    OwnershipInherited(s, s');
  }

  /** A blob that a client has asked for stays for five hours, whatever else is evicted. */
  lemma {:induction false} AskedForBlobStays(
      lib: Library, cfg: Config, s: Store, d: Digest, head: bool, now: nat,
      events: seq<Event>, states: seq<Machine>, s1: Store)
    requires s.Owned() && d in s.blobs && 0 < s.now <= now < s.now + 18000
    requires IsPass(lib, cfg, GetCachedBlob(s, d, head).0.(now := now), events, states, s1)
    ensures d in s1.blobs && s1.BlobBytes(d) == s.BlobBytes(d)
  {
    hide IsPass, Store.Owned, Store.BlobBytes, GetCachedBlob;
    var s' := GetCachedBlob(s, d, head).0;
    ServedBlobIsTouched(s, d, head);
    TouchedBlobIsOwned(s, d, head);
    ClockKeepsOwnership(s', now);
    RecentBlobSurvives(lib, cfg, s'.(now := now), events, states, s1, d);
  }
}
