/** Whole runs of the cache: any sequence of commands, uploads, fills, pulls,
    eviction passes, late unlinks, clock changes, saves, crashes and startups, with any
    number of GETs waiting for their files meanwhile. */
module Runs {
  import opened Prelude
  import opened DigestText
  import opened UsageSums
  import opened References
  import opened Cache
  import opened EvictionStore
  import opened RedisServer
  import opened Uploads
  import opened RunSteps
  import opened Snapshot
  import EvictionMachine
  import EvictionTheorems
  import EvictionUsage
  import EvictionInvariant

  /** A GET of an on-disk value, before and after the read it waits for. */
  datatype Wait =
    | Opened(key: Bytes, id: nat)
    | HasRead(key: Bytes, value: Option<Bytes>)

  /** The cache, the snapshot file beside it, whether the process is serving, and the
      connections that wait for a file. */
  datatype World = World(s: Store, file: SnapshotFile, up: bool, waiting: map<nat, Wait>)

  datatype Event =
    | Run(op: Op)
    /** The shutdown of a serving process writes a snapshot. */
    | Save(snap: Snapshot, disk: map<nat, Bytes>)
    /** The snapshot of a stopped process is removed, damaged or replaced by one of
        another version. */
    | Lose(file: SnapshotFile)
    /** A process starts. If one was serving until now, that one crashed. */
    | Boot(now: nat)
    /** A GET finds its key on disk, */
    | BeginGet(conn: nat, key: Bytes)
    /** reads the file, or fails to, */
    | ReadGet(conn: nat)
    /** and does what it does with the outcome. */
    | EndGet(conn: nat, key: Bytes, value: Option<Bytes>)

  /** The events that do something to the store of a serving process. */
  predicate Acts(ev: Event) {
    ev.Run? || ev.EndGet?
  }

  /** To the store, a GET that has waited ends like a SET of what it read, or like a DEL. */
  function OpOf(ev: Event): Op
    requires Acts(ev)
  {
    match ev
    case Run(op) => op
    case EndGet(_, k, Some(v)) => Command(Set(k, v))
    case EndGet(_, k, None) => Command(Delete([k]))
  }

  ghost predicate CanHappen(lib: Library, cfg: Config, w: World, ev: Event, w': World) {
    match ev
    case Run(op) => (w.up || op.Unlink?) && CanStep(lib, cfg, w.s, op, w'.s) && w' == w.(s := w'.s)
    case Save(snap, disk) =>
      w.up && IsSave(w.s, snap, disk) && w' == World(w.s.(disk := disk), Decoded(snap), false, map[])
    case Lose(file) => !w.up && !Loadable(file) && w' == w.(file := file)
    case Boot(now) => w' == World(Startup(w.file, w.s.disk, now), Missing, true, map[])
    case BeginGet(conn, k) =>
      && w.up && conn !in w.waiting && k in w.s.redis && w.s.redis[k].OnDisk?
      && w' == w.(waiting := w.waiting[conn := Opened(k, w.s.redis[k].id)])
    case ReadGet(conn) =>
      && w.up && conn in w.waiting && w.waiting[conn].Opened?
      && var g := w.waiting[conn];
         w' == w.(waiting := w.waiting[conn := HasRead(g.key, ReadFile(w.s, g.id))])
    case EndGet(conn, k, value) =>
      && w.up && conn in w.waiting && w.waiting[conn] == HasRead(k, value)
      && w' == w.(s := FinishGet(w.s, k, value).0, waiting := w.waiting - {conn})
  }

  ghost predicate IsRun(lib: Library, cfg: Config, events: seq<Event>, worlds: seq<World>) {
    && |worlds| == |events| + 1
    && worlds[0] == World(Empty(worlds[0].s.now), Missing, true, map[])
    && forall i :: 0 <= i < |events| ==> CanHappen(lib, cfg, worlds[i], events[i], worlds[i + 1])
  }

  ghost predicate Good(lib: Library, s: Store) {
    Sound(lib, s) && TagsSound(s) && Excess(s.Drift())
  }

  /** A serving process has no snapshot behind it, and a snapshot that can be loaded
      is one of the cache as it is. */
  ghost predicate FileIsCurrent(w: World) {
    (w.up ==> w.file == Missing) && (Loadable(w.file) ==> IsSave(w.s, w.file.snap, w.s.disk))
  }

  // ---- One event

  lemma EmptyIsGood(lib: Library, now: nat)
    ensures Good(lib, Empty(now)) && Empty(now).Exact()
  {
    hide Sound, TagsSound;
    EmptyIsSound(lib, now);
    NoTags(Empty(now));
    EmptyDrift(now);
  }

  lemma DiskFrame(s: Store, disk: map<nat, Bytes>)
    ensures s.(disk := disk).Drift() == s.Drift()
    ensures TagsSound(s) ==> TagsSound(s.(disk := disk))
  {
    hide Store.Drift, TagsSound;
    OtherFields(s, s.(disk := disk));
    if TagsSound(s) {
      TagsFrame(s, s.(disk := disk));
    }
  }

  lemma BootKeepsGood(lib: Library, w: World, now: nat)
    requires Good(lib, w.s) && FileIsCurrent(w)
    ensures Good(lib, Startup(w.file, w.s.disk, now)) && Startup(w.file, w.s.disk, now).Exact()
  {
    hide Sound, TagsSound, Store.Drift, Store.Exact, IsSave, Startup;
    var s' := Startup(w.file, w.s.disk, now);
    if Loadable(w.file) {
      RestartKeepsSound(lib, w.s, w.file.snap, now);
      TagsFrame(w.s, s');
      ExactIsNoDrift(s');
      ZeroIsExcess();
    } else {
      ColdStartup(w.file, w.s.disk, now);
      EmptyIsGood(lib, now);
    }
  }

  lemma ZeroIsExcess()
    ensures Excess(ZERO)
  {}

  lemma ColdStartup(file: SnapshotFile, disk: map<nat, Bytes>, now: nat)
    requires !Loadable(file)
    ensures Startup(file, disk, now) == Empty(now)
  {}

  lemma SaveIsCurrent(s: Store, snap: Snapshot, disk: map<nat, Bytes>)
    requires IsSave(s, snap, disk)
    ensures SavedDisk(s, disk) && IsSave(s.(disk := disk), snap, disk) && Loadable(Decoded(snap))
  {
    hide Listing;
    SavedAgain(s, disk);
    hide SavedDisk;
  }

  lemma OpKeepsGood(lib: Library, cfg: Config, s: Store, op: Op, s': Store)
    requires Good(lib, s) && CanStep(lib, cfg, s, op, s')
    ensures Good(lib, s')
  {
    hide CanStep, Sound, TagsSound, Store.Drift, Excess;
    StepKeepsSound(lib, cfg, s, op, s');
    StepKeepsTags(lib, cfg, s, op, s');
    StepKeepsExcess(lib, cfg, s, op, s');
  }

  lemma UnlinkStep(lib: Library, cfg: Config, s: Store, op: Op, s': Store)
    requires op.Unlink? && CanStep(lib, cfg, s, op, s')
    ensures s' == s.RunUnlink(op.id)
  {}

  lemma FinishIsCommand(s: Store, k: Bytes, value: Option<Bytes>)
    ensures FinishGet(s, k, value).0 ==
      Apply(s, match value case Some(v) => Set(k, v) case None => Delete([k])).0
  {
    hide Store.InsertRedis, Store.RemoveRedis, Store.FlushRedis, GetEntry, CountIn;
    assert [k][..0] == [];
    assert DeleteKeys(s, [k][..0]).0 == s;
    assert DeleteKeys(s, [k]).0 == s.RemoveRedis(k);
  }

  lemma ActsAreSteps(lib: Library, cfg: Config, w: World, ev: Event, w': World)
    requires CanHappen(lib, cfg, w, ev, w') && Acts(ev)
    ensures CanStep(lib, cfg, w.s, OpOf(ev), w'.s) && w'.file == w.file && w'.up == w.up
    ensures ev.EndGet? ==> w.up
  {
    hide Apply, FinishGet, EvictionMachine.IsPass;
    if ev.EndGet? {
      FinishIsCommand(w.s, ev.key, ev.value);
    }
  }

  lemma EventKeepsGood(lib: Library, cfg: Config, w: World, ev: Event, w': World)
    requires Good(lib, w.s) && FileIsCurrent(w) && CanHappen(lib, cfg, w, ev, w')
    ensures Good(lib, w'.s) && FileIsCurrent(w')
  {
    hide CanStep, Sound, TagsSound, Store.Drift, IsSave, Startup, Excess;
    match ev {
      case Run(op) =>
        OpKeepsGood(lib, cfg, w.s, op, w'.s);
        if !w.up && Loadable(w.file) {
          UnlinkStep(lib, cfg, w.s, op, w'.s);
          SoundIsOwned(lib, w.s);
          UnlinkKeepsSave(w.s, w.file.snap, op.id);
        }
      case Save(snap, disk) =>
        SaveIsCurrent(w.s, snap, disk);
        SaveKeepsSound(lib, w.s, disk);
        DiskFrame(w.s, disk);
      case Boot(now) => BootKeepsGood(lib, w, now);
      case EndGet(_, _, _) =>
        hide FinishGet;
        ActsAreSteps(lib, cfg, w, ev, w');
        OpKeepsGood(lib, cfg, w.s, OpOf(ev), w'.s);
      case _ =>
    }
  }

  /** In every state of every run: ids are distinct and below `next_id`, every
      on-disk entry has its file, no pending unlink names a live entry, every blob
      hashes to its digest, no tag dangles, no counter falls short, and a snapshot
      that can be loaded is one of the cache as it is. */
  lemma {:induction false} RunsAreGood(lib: Library, cfg: Config, events: seq<Event>, worlds: seq<World>, n: nat)
    requires IsRun(lib, cfg, events, worlds) && n <= |events|
    ensures Good(lib, worlds[n].s) && FileIsCurrent(worlds[n])
  {
    hide CanHappen, Good, IsSave;
    if n == 0 {
      EmptyIsGood(lib, worlds[0].s.now);
    } else {
      RunsAreGood(lib, cfg, events, worlds, n - 1);
      assert CanHappen(lib, cfg, worlds[n - 1], events[n - 1], worlds[n]);
      EventKeepsGood(lib, cfg, worlds[n - 1], events[n - 1], worlds[n]);
    }
  }

  lemma GoodParts(lib: Library, s: Store)
    requires Good(lib, s)
    ensures Sound(lib, s) && s.Owned() && ContentAddressed(lib, s) && TagsSound(s) && Excess(s.Drift())
  {
    hide Store.Owned, ContentAddressed, UploadsAgree, TagsSound, Store.Drift, Excess;
  }

  /** Whatever a blob request is served from the cache, at any time, hashes to the
      digest it asked for, and its file is never missing. */
  lemma {:induction false} ServedBlobsHash(
      lib: Library, cfg: Config, events: seq<Event>, worlds: seq<World>, n: nat, d: Digest)
    requires IsRun(lib, cfg, events, worlds) && n <= |events| && d in worlds[n].s.blobs
    ensures var r := GetCachedBlob(worlds[n].s, d, false).1;
      r.Some? && r.value.Served? && lib.sha256(r.value.content) == d
  {
    hide CanHappen, Good, FileIsCurrent, Store.Owned, ContentAddressed, GetCachedBlob;
    RunsAreGood(lib, cfg, events, worlds, n);
    GoodParts(lib, worlds[n].s);
    HitsServeWhatWasAskedFor(lib, worlds[n].s, d);
  }

  /** A tag that is there can be pulled, at any time. */
  lemma {:induction false} TagsResolve(
      lib: Library, cfg: Config, events: seq<Event>, worlds: seq<World>, n: nat, t: TagKey, up: Upstream)
    requires IsRun(lib, cfg, events, worlds) && n <= |events| && t in worlds[n].s.tags
    ensures var s := worlds[n].s;
      var d := s.tags[t];
      && d in s.manifests
      && GetManifest(s, true, t.repo, t.reference, up).1 == Served(s.manifests[d].content, s.manifests[d].mediaType)
  {
    hide CanHappen, Sound, Store.Drift, Parse, FileIsCurrent, Store.Owned, ContentAddressed;
    RunsAreGood(lib, cfg, events, worlds, n);
    assert TagKey(t.repo, t.reference) == t;
  }

  // ---- Snapshots

  /** A save has happened, and since then nothing but late unlinks. */
  predicate Saved(events: seq<Event>) {
    if events == [] then false
    else
      match events[|events| - 1]
      case Save(_, _) => true
      case Run(op) => op.Unlink? && Saved(events[..|events| - 1])
      case _ => false
  }

  lemma RunAt(lib: Library, cfg: Config, events: seq<Event>, worlds: seq<World>, n: nat)
    requires IsRun(lib, cfg, events, worlds) && n < |events|
    ensures CanHappen(lib, cfg, worlds[n], events[n], worlds[n + 1])
  {
    hide CanHappen;
  }

  /** What an event does to the snapshot file. */
  lemma FileAfter(lib: Library, cfg: Config, w: World, ev: Event, w': World)
    requires FileIsCurrent(w) && CanHappen(lib, cfg, w, ev, w')
    ensures ev.Save? ==> w'.file == Decoded(ev.snap)
    ensures ev.Boot? ==> w'.file == Missing
    ensures ev.Run? ==> w'.file == w.file
    ensures Loadable(w'.file) <==> ev.Save? || (ev.Run? && ev.op.Unlink? && Loadable(w.file))
  {
    hide CanStep, Startup, IsSave, FinishGet;
    if ev.Save? {
      SaveIsCurrent(w.s, ev.snap, ev.disk);
    }
  }

  lemma NothingToLoad()
    ensures !Loadable(Missing)
  {}

  /** There is a snapshot to load exactly when the process was shut down in order and
      nothing has happened since. */
  lemma {:induction false} LoadableIffSaved(lib: Library, cfg: Config, events: seq<Event>, worlds: seq<World>, n: nat)
    requires IsRun(lib, cfg, events, worlds) && n <= |events|
    ensures Loadable(worlds[n].file) <==> Saved(events[..n])
  {
    hide CanHappen, Good, FileIsCurrent, Loadable;
    if n == 0 {
      assert !Loadable(worlds[0].file) by { NothingToLoad(); }
    } else {
      LoadableIffSaved(lib, cfg, events, worlds, n - 1);
      RunsAreGood(lib, cfg, events, worlds, n - 1);
      RunAt(lib, cfg, events, worlds, n - 1);
      FileAfter(lib, cfg, worlds[n - 1], events[n - 1], worlds[n]);
      assert events[..n][..n - 1] == events[..n - 1];
    }
  }

  /** `file` is the snapshot of the last save, and since then only unlinks have run. */
  ghost predicate FromLastSave(events: seq<Event>, n: nat, file: SnapshotFile)
    requires n <= |events|
  {
    exists j :: 0 <= j < n && events[j].Save? && file == Decoded(events[j].snap) && OnlyUnlinks(events, j + 1, n)
  }

  predicate OnlyUnlinks(events: seq<Event>, from: nat, to: nat)
    requires to <= |events|
  {
    forall i :: from <= i < to ==> events[i].Run? && events[i].op.Unlink?
  }

  lemma FromSaveStays(events: seq<Event>, n: nat, file: SnapshotFile)
    requires n < |events| && FromLastSave(events, n, file) && events[n].Run? && events[n].op.Unlink?
    ensures FromLastSave(events, n + 1, file)
  {
    var j :| 0 <= j < n && events[j].Save? && file == Decoded(events[j].snap) && OnlyUnlinks(events, j + 1, n);
    assert OnlyUnlinks(events, j + 1, n + 1);
  }

  lemma FromThisSave(events: seq<Event>, n: nat)
    requires n < |events| && events[n].Save?
    ensures FromLastSave(events, n + 1, Decoded(events[n].snap))
  {
    assert OnlyUnlinks(events, n + 1, n + 1);
  }

  /** No run ever loads a snapshot other than the last one saved, and none twice. */
  lemma {:induction false} OnlyLastSaveIsLoaded(
      lib: Library, cfg: Config, events: seq<Event>, worlds: seq<World>, n: nat)
    requires IsRun(lib, cfg, events, worlds) && n <= |events|
    ensures Loadable(worlds[n].file) ==> FromLastSave(events, n, worlds[n].file)
    ensures n > 0 && events[n - 1].Boot? ==> worlds[n].file == Missing
  {
    hide CanHappen, FromLastSave, FileIsCurrent, Good;
    if n > 0 {
      OnlyLastSaveIsLoaded(lib, cfg, events, worlds, n - 1);
      RunsAreGood(lib, cfg, events, worlds, n - 1);
      RunAt(lib, cfg, events, worlds, n - 1);
      FileAfter(lib, cfg, worlds[n - 1], events[n - 1], worlds[n]);
      if events[n - 1].Save? {
        FromThisSave(events, n - 1);
      } else if Loadable(worlds[n].file) {
        FromSaveStays(events, n - 1, worlds[n].file);
      }
    }
  }

  // ---- Accounting

  lemma EventKeepsExact(lib: Library, cfg: Config, w: World, ev: Event, w': World)
    requires Good(lib, w.s) && FileIsCurrent(w) && CanHappen(lib, cfg, w, ev, w') && w.s.Exact()
    requires !(ev.Run? && ev.op.Evict?)
    ensures w'.s.Exact()
  {
    hide CanStep, IsSave, Startup, Store.Exact, Store.Drift, FileIsCurrent;
    GoodParts(lib, w.s);
    match ev {
      case Run(op) => StepKeepsExact(lib, cfg, w.s, op, w'.s);
      case Save(_, disk) =>
        DiskFrame(w.s, disk);
        ExactIsNoDrift(w.s);
        ExactIsNoDrift(w'.s);
      case Boot(now) => BootKeepsGood(lib, w, now);
      case EndGet(_, _, _) =>
        hide FinishGet;
        ActsAreSteps(lib, cfg, w, ev, w');
        StepKeepsExact(lib, cfg, w.s, OpOf(ev), w'.s);
      case _ =>
    }
  }

  /** Over a run without eviction passes all seven counters are at every point
      what `recompute_usage` would store. */
  lemma {:induction false} ExactWithoutEviction(
      lib: Library, cfg: Config, events: seq<Event>, worlds: seq<World>, n: nat)
    requires IsRun(lib, cfg, events, worlds) && n <= |events|
    requires forall i :: 0 <= i < n ==> !(events[i].Run? && events[i].op.Evict?)
    ensures worlds[n].s.Exact()
  {
    hide CanHappen, Good, FileIsCurrent, Store.Exact;
    if n == 0 {
      EmptyIsGood(lib, worlds[0].s.now);
    } else {
      ExactWithoutEviction(lib, cfg, events, worlds, n - 1);
      RunsAreGood(lib, cfg, events, worlds, n - 1);
      RunAt(lib, cfg, events, worlds, n - 1);
      EventKeepsExact(lib, cfg, worlds[n - 1], events[n - 1], worlds[n]);
    }
  }

  /** After any pass of any run the excess of the published usage is that of this
      pass alone: dropped keys and swept bytes, nothing left over from before. */
  lemma {:induction false} ExcessDoesNotAccumulate(
      lib: Library, cfg: Config, events: seq<Event>, worlds: seq<World>, n: nat)
    requires IsRun(lib, cfg, events, worlds) && n < |events| && events[n].Run? && events[n].op.Evict?
    ensures var s, s', pass := worlds[n].s, worlds[n + 1].s, events[n].op;
      && |pass.states| == |pass.events| + 1
      && var m := pass.states[|pass.events|];
         s'.counters == s'.Recomputed().Plus(EvictionInvariant.KeySlack(s, s'))
           .Plus(EvictionMachine.BlobTotal(m.s, EvictionMachine.ToSweep(m)))
  {
    hide EvictionMachine.BlobTotal, EvictionMachine.ToSweep, EvictionInvariant.KeySlack, Store.Recomputed;
    hide FileIsCurrent;
    hide Store.Owned, ContentAddressed, Usage.Plus, Usage.AtMost, EvictionMachine.Finish, Good, TagsSound;
    RunsAreGood(lib, cfg, events, worlds, n);
    GoodParts(lib, worlds[n].s);
    RunAt(lib, cfg, events, worlds, n);
    EvictionUsage.PublishedUsage(lib, cfg, worlds[n].s, events[n].op.events, events[n].op.states, worlds[n + 1].s);
  }

  // ---- The redis store

  /** The event sets `k`: a SET, or a GET that has waited and puts back what it read. */
  predicate Sets(ev: Event, k: Bytes) {
    Acts(ev) && OpOf(ev).Command? && OpOf(ev).request.Set? && OpOf(ev).request.key == k
  }

  /** Event `n` undoes what was set before: a DEL of `k`, a flush, a start without a
      snapshot to load, or a GET that has waited for a file that was gone. */
  predicate Undoes(events: seq<Event>, n: nat, k: Bytes)
    requires n < |events|
  {
    match events[n]
    case Run(Command(Delete(keys))) => k in keys
    case Run(Command(Flush)) => true
    case EndGet(_, key, None) => key == k
    case Boot(_) => !Saved(events[..n])
    case _ => false
  }

  /** The value `k` was last set to before event `n`, if nothing undid that since. */
  function LatestSet(events: seq<Event>, n: nat, k: Bytes): Option<Bytes>
    requires n <= |events|
  {
    if n == 0 then None
    else if Sets(events[n - 1], k) then Some(OpOf(events[n - 1]).request.value)
    else if Undoes(events, n - 1, k) then None
    else LatestSet(events, n - 1, k)
  }

  predicate Evicts(ev: Event) {
    ev.Run? && ev.op.Evict?
  }

  lemma VisibleFrame(s: Store, s': Store)
    requires s'.redis == s.redis && s'.disk == s.disk
    ensures s'.Visible() == s.Visible()
  {
    hide MapOf;
  }

  /** A pass only takes keys away from the visible map. */
  lemma {:induction false} EvictShrinksVisible(lib: Library, cfg: Config, s: Store, op: Op, s': Store)
    requires s.Owned() && op.Evict? && CanStep(lib, cfg, s, op, s')
    ensures forall k :: k in s'.Visible() ==> k in s.Visible() && s'.Visible()[k] == s.Visible()[k]
  {
    hide Store.Owned, EvictionMachine.IsPass, ManifestsEvolved, BlobsEvolved, TagsFollow, UnlinksExplained;
    hide MapOf, Store.RedisValue;
    EvictionTheorems.PassEvolves(lib, cfg, s, op.events, op.states, s');
  }

  lemma OthersKeepVisible(lib: Library, s: Store, op: Op)
    requires Sound(lib, s) && !op.Command? && !op.Evict?
    ensures Serve(lib, s, op).Visible() == s.Visible()
  {
    hide Sound, Store.Visible;
    if op.Unlink? {
      UnlinkKeepsSound(lib, s, op.id);
    } else if op.Push? || op.Pull? || op.Tick? {
      hide Serve;
      ManifestOpsFrame(lib, s, op);
      VisibleFrame(s, Serve(lib, s, op));
    } else {
      hide Serve;
      UploadsLeaveTags(lib, s, op);
      VisibleFrame(s, Serve(lib, s, op));
    }
  }

  lemma NothingVisible(s: Store)
    requires s.redis == map[]
    ensures s.Visible() == map[]
  {}

  /** The entry of `k` is the same in both, if it is in either. */
  ghost predicate SameEntry(s: Store, s': Store, k: Bytes) {
    (k in s'.Visible() <==> k in s.Visible()) && (k in s.Visible() ==> s'.Visible()[k] == s.Visible()[k])
  }

  lemma PlainOnKey(m: map<Bytes, Bytes>, r: Request, k: Bytes)
    ensures var m' := PlainApply(m, r).0;
      && (r.Set? && r.key == k ==> k in m' && m'[k] == r.value)
      && ((r.Delete? && k in r.keys) || r.Flush? ==> k !in m')
      && (!(r.Set? && r.key == k) && !(r.Delete? && k in r.keys) && !r.Flush? ==>
            (k in m' <==> k in m) && (k in m ==> m'[k] == m[k]))
  {
    hide Occurrences;
  }

  lemma CommandOnKey(s: Store, r: Request, k: Bytes)
    requires s.Owned()
    ensures var s' := Apply(s, r).0;
      && (r.Set? && r.key == k ==> k in s'.Visible() && s'.Visible()[k] == r.value)
      && ((r.Delete? && k in r.keys) || r.Flush? ==> k !in s'.Visible())
      && (!(r.Set? && r.key == k) && !(r.Delete? && k in r.keys) && !r.Flush? ==> SameEntry(s, s', k))
  {
    hide Store.Owned, Apply, Store.Visible, PlainApply;
    ApplyRefinesPlain(s, r);
    PlainOnKey(s.Visible(), r, k);
  }

  /** What an event that happens after `n` others does to one key. */
  ghost predicate ActsOnKey(events: seq<Event>, n: nat, s: Store, s': Store, k: Bytes)
    requires n < |events|
  {
    if Sets(events[n], k) then k in s'.Visible() && s'.Visible()[k] == OpOf(events[n]).request.value
    else if Undoes(events, n, k) then k !in s'.Visible()
    else if Evicts(events[n]) then k in s'.Visible() ==> SameEntry(s, s', k)
    else SameEntry(s, s', k)
  }

  lemma BootOnKey(lib: Library, w: World, now: nat, k: Bytes)
    requires Good(lib, w.s) && FileIsCurrent(w)
    ensures var s' := Startup(w.file, w.s.disk, now);
      if Loadable(w.file) then SameEntry(w.s, s', k) else k !in s'.Visible()
  {
    hide IsSave, Startup, Store.Visible, Good;
    GoodParts(lib, w.s);
    if Loadable(w.file) {
      RestartKeepsSound(lib, w.s, w.file.snap, now);
    } else {
      ColdStartup(w.file, w.s.disk, now);
      NothingVisible(Empty(now));
    }
  }

  lemma SaveOnKey(lib: Library, s: Store, disk: map<nat, Bytes>, k: Bytes)
    requires Good(lib, s) && SavedDisk(s, disk)
    ensures SameEntry(s, s.(disk := disk), k)
  {
    hide Store.Visible, Good, SavedDisk;
    GoodParts(lib, s);
    SaveKeepsSound(lib, s, disk);
  }

  lemma ServedStep(lib: Library, cfg: Config, s: Store, op: Op, s': Store)
    requires CanStep(lib, cfg, s, op, s') && !op.Evict?
    ensures s' == Serve(lib, s, op) && (op.Command? ==> s' == Apply(s, op.request).0)
  {
    hide Apply;
  }

  lemma OpOnKey(lib: Library, cfg: Config, s: Store, op: Op, s': Store, k: Bytes)
    requires Good(lib, s) && CanStep(lib, cfg, s, op, s') && !op.Command?
    ensures if op.Evict? then k in s'.Visible() ==> SameEntry(s, s', k) else SameEntry(s, s', k)
  {
    hide Good, Store.Visible, Serve, CanStep;
    GoodParts(lib, s);
    if op.Evict? {
      EvictShrinksVisible(lib, cfg, s, op, s');
    } else {
      ServedStep(lib, cfg, s, op, s');
      OthersKeepVisible(lib, s, op);
    }
  }

  lemma CommandActs(events: seq<Event>, n: nat, s: Store, k: Bytes)
    requires n < |events| && Acts(events[n]) && OpOf(events[n]).Command? && s.Owned()
    ensures ActsOnKey(events, n, s, Apply(s, OpOf(events[n]).request).0, k)
  {
    hide Store.Owned, SameEntry, Apply, Store.Visible;
    CommandOnKey(s, OpOf(events[n]).request, k);
  }

  lemma OperationActs(events: seq<Event>, n: nat, s: Store, s': Store, k: Bytes)
    requires n < |events| && Acts(events[n]) && !OpOf(events[n]).Command?
    requires if Evicts(events[n]) then k in s'.Visible() ==> SameEntry(s, s', k) else SameEntry(s, s', k)
    ensures ActsOnKey(events, n, s, s', k)
  {
    hide SameEntry, Store.Visible;
  }

  lemma RunOnKey(lib: Library, cfg: Config, events: seq<Event>, n: nat, s: Store, s': Store, k: Bytes)
    requires n < |events| && Acts(events[n]) && Good(lib, s) && CanStep(lib, cfg, s, OpOf(events[n]), s')
    ensures ActsOnKey(events, n, s, s', k)
  {
    hide Good, SameEntry, Apply, Store.Visible, CanStep, Serve, ActsOnKey;
    GoodParts(lib, s);
    if OpOf(events[n]).Command? {
      ServedStep(lib, cfg, s, OpOf(events[n]), s');
      CommandActs(events, n, s, k);
    } else {
      OpOnKey(lib, cfg, s, OpOf(events[n]), s', k);
      OperationActs(events, n, s, s', k);
    }
  }

  lemma OthersOnKey(lib: Library, cfg: Config, events: seq<Event>, n: nat, w: World, w': World, k: Bytes)
    requires n < |events| && !Acts(events[n]) && Good(lib, w.s) && FileIsCurrent(w)
    requires CanHappen(lib, cfg, w, events[n], w') && (Loadable(w.file) <==> Saved(events[..n]))
    ensures ActsOnKey(events, n, w.s, w'.s, k)
  {
    hide Good, SameEntry, Saved, Store.Visible, IsSave, Startup, CanStep;
    match events[n] {
      case Save(snap, disk) =>
        SaveIsCurrent(w.s, snap, disk);
        hide SavedDisk;
        SaveOnKey(lib, w.s, disk, k);
      case Boot(now) => BootOnKey(lib, w, now, k);
      case _ => SameStore(w.s, k);
    }
  }

  lemma EventOnKey(lib: Library, cfg: Config, events: seq<Event>, worlds: seq<World>, n: nat, k: Bytes)
    requires IsRun(lib, cfg, events, worlds) && n < |events|
    ensures ActsOnKey(events, n, worlds[n].s, worlds[n + 1].s, k)
  {
    hide Good, Saved, ActsOnKey, FileIsCurrent, CanHappen;
    RunsAreGood(lib, cfg, events, worlds, n);
    RunAt(lib, cfg, events, worlds, n);
    if Acts(events[n]) {
      ActsAreSteps(lib, cfg, worlds[n], events[n], worlds[n + 1]);
      RunOnKey(lib, cfg, events, n, worlds[n].s, worlds[n + 1].s, k);
    } else {
      LoadableIffSaved(lib, cfg, events, worlds, n);
      OthersOnKey(lib, cfg, events, n, worlds[n], worlds[n + 1], k);
    }
  }

  lemma SameStore(s: Store, k: Bytes)
    ensures SameEntry(s, s, k)
  {}

  /** The visible value of a key is what it was last set to. */
  lemma {:induction false} VisibleIsLatest(
      lib: Library, cfg: Config, events: seq<Event>, worlds: seq<World>, n: nat, k: Bytes)
    requires IsRun(lib, cfg, events, worlds) && n <= |events|
    ensures k in worlds[n].s.Visible() ==> LatestSet(events, n, k) == Some(worlds[n].s.Visible()[k])
  {
    hide CanHappen, Store.Visible, Sets, Undoes;
    if n == 0 {
      NothingVisible(worlds[0].s);
    } else {
      VisibleIsLatest(lib, cfg, events, worlds, n - 1, k);
      EventOnKey(lib, cfg, events, worlds, n - 1, k);
    }
  }

  /** Pass `i` took `k`, and until `n` nothing has set it or undone its SET. */
  ghost predicate TakenAt(events: seq<Event>, worlds: seq<World>, i: nat, n: nat, k: Bytes)
    requires i < n <= |events| && |worlds| == |events| + 1
  {
    && Evicts(events[i]) && k in worlds[i].s.Visible() && k !in worlds[i + 1].s.Visible()
    && forall j :: i < j < n ==> !Sets(events[j], k) && !Undoes(events, j, k)
  }

  /** A key that was set and not undone is missing exactly when a pass took it since. */
  lemma {:induction false} MissingIffTaken(
      lib: Library, cfg: Config, events: seq<Event>, worlds: seq<World>, n: nat, k: Bytes)
    requires IsRun(lib, cfg, events, worlds) && n <= |events| && LatestSet(events, n, k).Some?
    ensures k !in worlds[n].s.Visible() <==> exists i :: 0 <= i < n && TakenAt(events, worlds, i, n, k)
  {
    hide CanHappen, Store.Visible, Sets, Undoes, Evicts;
    var before, after := worlds[n - 1].s, worlds[n].s;
    EventOnKey(lib, cfg, events, worlds, n - 1, k);
    if Sets(events[n - 1], k) {
      assert forall i :: 0 <= i < n && TakenAt(events, worlds, i, n, k) ==> i == n - 1;
      assert !Evicts(events[n - 1]) by { SettingIsNotEvicting(events[n - 1], k); }
    } else {
      MissingIffTaken(lib, cfg, events, worlds, n - 1, k);
      if k !in before.Visible() {
        var i :| 0 <= i < n - 1 && TakenAt(events, worlds, i, n - 1, k);
        assert TakenAt(events, worlds, i, n, k);
      } else if k !in after.Visible() {
        assert TakenAt(events, worlds, n - 1, n, k);
      } else {
        forall i | 0 <= i < n - 1 ensures TakenAt(events, worlds, i, n, k) ==> TakenAt(events, worlds, i, n - 1, k) {
          TakenEarlier(events, worlds, i, n, k);
        }
        assert forall i :: 0 <= i < n && TakenAt(events, worlds, i, n, k) ==> i < n - 1;
      }
    }
  }

  lemma TakenEarlier(events: seq<Event>, worlds: seq<World>, i: nat, n: nat, k: Bytes)
    requires i + 1 < n <= |events| && |worlds| == |events| + 1
    ensures TakenAt(events, worlds, i, n, k) ==> TakenAt(events, worlds, i, n - 1, k)
  {
    hide Sets, Undoes, Evicts, Store.Visible;
  }

  lemma SettingIsNotEvicting(ev: Event, k: Bytes)
    requires Sets(ev, k)
    ensures !Evicts(ev)
  {}

  lemma GetShowsVisible(lib: Library, s: Store, k: Bytes)
    requires Good(lib, s)
    ensures Apply(s, Get(k)).1 == if k in s.Visible() then Payload(s.Visible()[k]) else Nil
  {
    hide Good, Store.Owned, GetEntry, Store.Visible, DeleteKeys, CountIn, Store.InsertRedis, Store.FlushRedis;
    hide Sound, ContentAddressed, TagsSound, Store.Drift;
    GoodParts(lib, s);
    GetRefines(s, k);
  }

  /** At any point of any run a GET taken as one step is answered with what the key was last
      set to if nothing undid that, or with nil; and with nil only if there is no such
      value or a pass has taken the key since. */
  lemma {:induction false} GetAnswersLatest(
      lib: Library, cfg: Config, events: seq<Event>, worlds: seq<World>, n: nat, k: Bytes)
    requires IsRun(lib, cfg, events, worlds) && n <= |events|
    ensures var reply, latest := Apply(worlds[n].s, Get(k)).1, LatestSet(events, n, k);
      && (reply == Nil || (latest.Some? && reply == Payload(latest.value)))
      && (reply == Nil <==> latest.None? || exists i :: 0 <= i < n && TakenAt(events, worlds, i, n, k))
  {
    hide CanHappen, LatestSet, Good, FileIsCurrent, Apply, Store.Visible, TakenAt;
    RunsAreGood(lib, cfg, events, worlds, n);
    GetShowsVisible(lib, worlds[n].s, k);
    VisibleIsLatest(lib, cfg, events, worlds, n, k);
    if LatestSet(events, n, k).Some? {
      MissingIffTaken(lib, cfg, events, worlds, n, k);
    }
  }

  // ---- Blobs of live manifests

  lemma OthersKeepBlobs(lib: Library, s: Store, op: Op)
    requires !op.Evict?
    ensures s.blobs.Keys <= Serve(lib, s, op).blobs.Keys
  {
    match op {
      case Command(r) => hide Apply; CommandLeavesRegistry(s, r);
      case Unlink(_) =>
      case Push(_, _, _, _) => hide Serve; ManifestOpsFrame(lib, s, op);
      case Pull(_, _, _, _) => hide Serve; ManifestOpsFrame(lib, s, op);
      case Tick(_) =>
      case _ => hide Serve; UploadsLeaveTags(lib, s, op);
    }
  }

  lemma OpKeepsReferencedBlob(lib: Library, cfg: Config, s: Store, op: Op, s': Store, d: Digest, r: Digest)
    requires s.Owned() && CanStep(lib, cfg, s, op, s')
    requires d in s'.manifests && r in ReferencedDigests(lib, s'.manifests[d].content) && r in s.blobs
    ensures r in s'.blobs
  {
    hide Store.Owned, ReferencedDigests;
    if op.Evict? {
      hide EvictionMachine.IsPass, HasFile, Store.BlobBytes;
      EvictionTheorems.SurvivorClosure(lib, cfg, s, op.events, op.states, s', d, r);
    } else {
      hide Serve;
      OthersKeepBlobs(lib, s, op);
    }
  }

  lemma EventKeepsReferencedBlob(lib: Library, cfg: Config, w: World, ev: Event, w': World, d: Digest, r: Digest)
    requires Good(lib, w.s) && FileIsCurrent(w) && CanHappen(lib, cfg, w, ev, w')
    requires ev.Boot? ==> Loadable(w.file)
    requires d in w'.s.manifests && r in ReferencedDigests(lib, w'.s.manifests[d].content) && r in w.s.blobs
    ensures r in w'.s.blobs
  {
    hide Good, ReferencedDigests, IsSave, Startup, CanStep, FinishGet;
    GoodParts(lib, w.s);
    if Acts(ev) {
      ActsAreSteps(lib, cfg, w, ev, w');
      OpKeepsReferencedBlob(lib, cfg, w.s, OpOf(ev), w'.s, d, r);
    }
    match ev {
      case Boot(now) => RestartKeepsSound(lib, w.s, w.file.snap, now);
      case _ =>
    }
  }

  lemma BlobStaysOneEvent(
      lib: Library, cfg: Config, events: seq<Event>, worlds: seq<World>, n: nat, d: Digest, r: Digest)
    requires IsRun(lib, cfg, events, worlds) && n < |events|
    requires events[n].Boot? ==> Loadable(worlds[n].file)
    requires var s' := worlds[n + 1].s; d in s'.manifests && r in ReferencedDigests(lib, s'.manifests[d].content)
    requires r in worlds[n].s.blobs
    ensures r in worlds[n + 1].s.blobs
  {
    hide CanHappen, ReferencedDigests, Good, FileIsCurrent, Loadable;
    RunsAreGood(lib, cfg, events, worlds, n);
    RunAt(lib, cfg, events, worlds, n);
    EventKeepsReferencedBlob(lib, cfg, worlds[n], events[n], worlds[n + 1], d, r);
  }

  /** A blob that a manifest refers to stays cached for as long as the manifest
      does, across any number of passes and orderly restarts. */
  lemma {:induction false} ReferencedBlobsStayCached(
      lib: Library, cfg: Config, events: seq<Event>, worlds: seq<World>, i: nat, n: nat, d: Digest, r: Digest)
    requires IsRun(lib, cfg, events, worlds) && i <= n <= |events|
    requires forall j :: i <= j < n && events[j].Boot? ==> Loadable(worlds[j].file)
    requires forall j :: i < j <= n ==>
      d in worlds[j].s.manifests && r in ReferencedDigests(lib, worlds[j].s.manifests[d].content)
    requires r in worlds[i].s.blobs
    ensures r in worlds[n].s.blobs && lib.sha256(worlds[n].s.BlobBytes(r)) == r
    decreases n
  {
    hide CanHappen, ReferencedDigests, Store.BlobBytes, Good, FileIsCurrent, Loadable, Store.Owned, TagsSound, Excess;
    if i < n {
      ReferencedBlobsStayCached(lib, cfg, events, worlds, i, n - 1, d, r);
      BlobStaysOneEvent(lib, cfg, events, worlds, n - 1, d, r);
    }
    RunsAreGood(lib, cfg, events, worlds, n);
    GoodParts(lib, worlds[n].s);
  }
}
