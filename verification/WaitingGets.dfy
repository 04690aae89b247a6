/** The GETs of a run that wait for their files, any number of them at a time. */
module WaitingGets {
  import opened Prelude
  import opened DigestText
  import opened Cache
  import opened References
  import opened RedisServer
  import opened Uploads
  import opened RunSteps
  import opened RedisPromotion
  import opened Runs
  import Snapshot

  /** The GET that `conn` began at event `i` is still under way before event `n`. */
  predicate UnderWay(events: seq<Event>, i: nat, n: nat, conn: nat) {
    && i < n <= |events| && events[i].BeginGet? && events[i].conn == conn
    && forall j :: i < j < n ==>
         !events[j].Save? && !events[j].Boot? && !(events[j].EndGet? && events[j].conn == conn)
  }

  /** The entry that `k` had under `id` has been replaced or removed. */
  predicate EntryLost(s: Store, k: Bytes, id: nat) {
    k !in s.redis || s.redis[k].id != id
  }

  ghost predicate LostBetween(worlds: seq<World>, i: nat, n: nat, k: Bytes, id: nat)
    requires n <= |worlds|
  {
    exists j :: i < j < n && EntryLost(worlds[j].s, k, id)
  }

  /** What is known before event `n` of a GET of `k` that began in the store `s0` of
      `worlds[i]` and has come as far as `g`. */
  ghost predicate Known(worlds: seq<World>, i: nat, n: nat, k: Bytes, g: Wait)
    requires i < n < |worlds|
  {
    var s0, s := worlds[i].s, worlds[n].s;
    && k in s0.redis && s0.redis[k].OnDisk? && g.key == k
    && match g
       case Opened(_, id) => id == s0.redis[k].id && OffMemory(s, id) && SameOrGone(s0, s, id)
       case HasRead(_, Some(v)) => v == s0.Visible()[k]
       case HasRead(_, None) => LostBetween(worlds, i, n, k, s0.redis[k].id)
  }

  /** The GET of a waiting connection, and what is known of it. */
  ghost predicate Traced(events: seq<Event>, worlds: seq<World>, n: nat, conn: nat)
    requires |worlds| == |events| + 1 && n <= |events| && conn in worlds[n].waiting
  {
    exists i :: 0 <= i < n && TracedTo(events, worlds, i, n, conn)
  }

  ghost predicate TracedTo(events: seq<Event>, worlds: seq<World>, i: nat, n: nat, conn: nat)
    requires |worlds| == |events| + 1 && i < n <= |events| && conn in worlds[n].waiting
  {
    UnderWay(events, i, n, conn) && Known(worlds, i, n, events[i].key, worlds[n].waiting[conn])
  }

  lemma EventKeepsFile(lib: Library, cfg: Config, w: World, ev: Event, w': World, id: nat)
    requires CanHappen(lib, cfg, w, ev, w') && !ev.Save? && !ev.Boot?
    ensures KeepsFile(w.s, w'.s, id)
  {
    hide CanStep, KeepsFile, FinishGet, ReadFile, Snapshot.IsSave, Snapshot.Startup;
    if Acts(ev) {
      ActsAreSteps(lib, cfg, w, ev, w');
      StepKeepsFile(lib, cfg, w.s, OpOf(ev), w'.s, id);
    } else {
      KeepsItsFile(w.s, id);
    }
  }

  /** What an event does to the connections that wait. */
  lemma EventOnWaiting(lib: Library, cfg: Config, w: World, ev: Event, w': World, conn: nat)
    requires CanHappen(lib, cfg, w, ev, w') && conn in w'.waiting
    ensures !ev.Save? && !ev.Boot? && !(ev.EndGet? && ev.conn == conn)
    ensures if ev.BeginGet? && ev.conn == conn then
        && ev.key in w.s.redis && w.s.redis[ev.key].OnDisk? && w'.s == w.s
        && w'.waiting[conn] == Opened(ev.key, w.s.redis[ev.key].id)
      else if ev.ReadGet? && ev.conn == conn then
        && conn in w.waiting && w.waiting[conn].Opened? && w'.s == w.s
        && w'.waiting[conn] == HasRead(w.waiting[conn].key, ReadFile(w.s, w.waiting[conn].id))
      else
        conn in w.waiting && w'.waiting[conn] == w.waiting[conn]
  {
    hide CanStep, FinishGet, ReadFile, Snapshot.IsSave, Snapshot.Startup;
  }

  lemma JustBegun(events: seq<Event>, worlds: seq<World>, n: nat)
    requires |worlds| == |events| + 1 && n < |events| && events[n].BeginGet? && worlds[n].s.Owned()
    requires events[n].key in worlds[n].s.redis && worlds[n].s.redis[events[n].key].OnDisk?
    requires worlds[n + 1].s == worlds[n].s && events[n].conn in worlds[n + 1].waiting
    requires worlds[n + 1].waiting[events[n].conn] == Opened(events[n].key, worlds[n].s.redis[events[n].key].id)
    ensures Traced(events, worlds, n + 1, events[n].conn)
  {
    hide Store.Owned, OffMemory, Store.Visible;
    OnDiskIsOffMemory(worlds[n].s, events[n].key);
    assert TracedTo(events, worlds, n, n + 1, events[n].conn);
  }

  /** The read: it gives what was there at the start, or the entry is lost. */
  lemma ReadIsKnown(worlds: seq<World>, i: nat, n: nat, k: Bytes, id: nat)
    requires i < n && n + 1 < |worlds| && worlds[i].s.Owned() && worlds[n].s.Owned()
    requires Known(worlds, i, n, k, Opened(k, id))
    ensures Known(worlds, i, n + 1, k, HasRead(k, ReadFile(worlds[n].s, id)))
  {
    hide Store.Owned, OffMemory, Store.Visible;
    OnDiskIsOffMemory(worlds[i].s, k);
    if ReadFile(worlds[n].s, id).None? {
      if k in worlds[n].s.redis && worlds[n].s.redis[k].id == id {
        LiveFileIsThere(worlds[n].s, k, id);
      }
      assert EntryLost(worlds[n].s, k, id);
    }
  }

  /** Anything else leaves what is known as it is. */
  lemma StaysKnown(worlds: seq<World>, i: nat, n: nat, k: Bytes, g: Wait)
    requires i < n && n + 1 < |worlds| && Known(worlds, i, n, k, g)
    requires g.Opened? ==> KeepsFile(worlds[n].s, worlds[n + 1].s, g.id)
    ensures Known(worlds, i, n + 1, k, g)
  {
    hide OffMemory, EntryLost, Store.Visible;
  }

  lemma StaysUnderWay(events: seq<Event>, i: nat, n: nat, conn: nat)
    requires n < |events| && UnderWay(events, i, n, conn) && !events[n].Save? && !events[n].Boot?
    requires !(events[n].EndGet? && events[n].conn == conn)
    ensures UnderWay(events, i, n + 1, conn)
  {}

  lemma WorldIsOwned(lib: Library, cfg: Config, events: seq<Event>, worlds: seq<World>, n: nat)
    requires IsRun(lib, cfg, events, worlds) && n <= |events|
    ensures |worlds| == |events| + 1 && Good(lib, worlds[n].s) && worlds[n].s.Owned()
  {
    hide CanHappen, Good, FileIsCurrent, Store.Owned, ContentAddressed, TagsSound, Excess;
    RunsAreGood(lib, cfg, events, worlds, n);
    GoodParts(lib, worlds[n].s);
  }

  lemma GoesOnTraced(lib: Library, cfg: Config, events: seq<Event>, worlds: seq<World>, n: nat, conn: nat)
    requires IsRun(lib, cfg, events, worlds) && |worlds| == |events| + 1 && n < |events|
    requires conn in worlds[n].waiting && conn in worlds[n + 1].waiting && Traced(events, worlds, n, conn)
    requires !(events[n].BeginGet? && events[n].conn == conn)
    ensures Traced(events, worlds, n + 1, conn)
  {
    hide IsRun, CanHappen, Good, Store.Owned, Known, UnderWay, KeepsFile;
    RunAt(lib, cfg, events, worlds, n);
    EventOnWaiting(lib, cfg, worlds[n], events[n], worlds[n + 1], conn);
    var i :| 0 <= i < n && TracedTo(events, worlds, i, n, conn);
    KnownKey(events, worlds, i, n, conn);
    StaysUnderWay(events, i, n, conn);
    var g := worlds[n].waiting[conn];
    if events[n].ReadGet? && events[n].conn == conn {
      WorldIsOwned(lib, cfg, events, worlds, i);
      WorldIsOwned(lib, cfg, events, worlds, n);
      ReadIsKnown(worlds, i, n, events[i].key, g.id);
    } else {
      if g.Opened? {
        EventKeepsFile(lib, cfg, worlds[n], events[n], worlds[n + 1], g.id);
      }
      StaysKnown(worlds, i, n, events[i].key, g);
    }
    assert TracedTo(events, worlds, i, n + 1, conn);
  }

  lemma KnownKey(events: seq<Event>, worlds: seq<World>, i: nat, n: nat, conn: nat)
    requires |worlds| == |events| + 1 && i < n <= |events| && conn in worlds[n].waiting
    requires TracedTo(events, worlds, i, n, conn)
    ensures events[i].BeginGet? && worlds[n].waiting[conn].key == events[i].key
  {
    hide OffMemory, Store.Visible;
  }

  /** At any point of any run, every waiting connection has a GET under way, and what its
      read gave or can still give is the value its key had when it began. */
  lemma {:induction false} WaitingIsTraced(
      lib: Library, cfg: Config, events: seq<Event>, worlds: seq<World>, n: nat, conn: nat)
    requires IsRun(lib, cfg, events, worlds) && |worlds| == |events| + 1 && n <= |events| && conn in worlds[n].waiting
    ensures Traced(events, worlds, n, conn)
  {
    hide CanHappen, Good, Store.Owned, Traced;
    if n > 0 {
      RunAt(lib, cfg, events, worlds, n - 1);
      EventOnWaiting(lib, cfg, worlds[n - 1], events[n - 1], worlds[n], conn);
      if events[n - 1].BeginGet? && events[n - 1].conn == conn {
        WorldIsOwned(lib, cfg, events, worlds, n - 1);
        JustBegun(events, worlds, n - 1);
      } else {
        WaitingIsTraced(lib, cfg, events, worlds, n - 1, conn);
        GoesOnTraced(lib, cfg, events, worlds, n - 1, conn);
      }
    }
  }

  lemma EndFollowsRead(lib: Library, cfg: Config, w: World, ev: Event, w': World)
    requires CanHappen(lib, cfg, w, ev, w') && ev.EndGet?
    ensures ev.conn in w.waiting && w.waiting[ev.conn] == HasRead(ev.key, ev.value)
    ensures w'.s == FinishGet(w.s, ev.key, ev.value).0
  {
    hide FinishGet;
  }

  /** The GET that ends at event `n` began at event `i`: its key was visible then, it
      answers the value from then or nil, and nil only if the entry was lost meanwhile. */
  ghost predicate AnswersFrom(events: seq<Event>, worlds: seq<World>, i: nat, n: nat)
    requires |worlds| == |events| + 1 && n < |events| && events[n].EndGet?
  {
    var k, reply := events[n].key, FinishGet(worlds[n].s, events[n].key, events[n].value).1;
    && UnderWay(events, i, n, events[n].conn) && events[i].key == k
    && k in worlds[i].s.Visible() && k in worlds[i].s.redis
    && (reply == Payload(worlds[i].s.Visible()[k])
        || (reply == Nil && LostBetween(worlds, i, n, k, worlds[i].s.redis[k].id)))
  }

  /** Whatever other connections, handlers and passes do, every GET that waits for its file
      answers the value that was visible when it began, or nil; and nil only if the entry
      it found has been replaced or removed while it waited. */
  lemma {:induction false} WaitingGetAnswers(
      lib: Library, cfg: Config, events: seq<Event>, worlds: seq<World>, n: nat)
    requires IsRun(lib, cfg, events, worlds) && |worlds| == |events| + 1 && n < |events| && events[n].EndGet?
    ensures exists i :: 0 <= i < n && AnswersFrom(events, worlds, i, n)
  {
    hide CanHappen, Store.RedisValue, MapOf, UnderWay, LostBetween;
    var conn := events[n].conn;
    RunAt(lib, cfg, events, worlds, n);
    EndFollowsRead(lib, cfg, worlds[n], events[n], worlds[n + 1]);
    WaitingIsTraced(lib, cfg, events, worlds, n, conn);
    var i :| 0 <= i < n && TracedTo(events, worlds, i, n, conn);
    KnownKey(events, worlds, i, n, conn);
    hide Store.InsertRedis, Store.RemoveRedis;
    assert AnswersFrom(events, worlds, i, n);
  }

  /** The end of a waiting GET sets its key to what it read, or removes it, and touches no
      other key. It overwrites or undoes an update exactly if the key's visible value is
      not what it read. */
  lemma {:induction false} EndGetLosesUpdateIff(
      lib: Library, cfg: Config, events: seq<Event>, worlds: seq<World>, n: nat)
    requires IsRun(lib, cfg, events, worlds) && |worlds| == |events| + 1 && n < |events| && events[n].EndGet?
    ensures var k, read := events[n].key, events[n].value;
      var before, after := worlds[n].s.Visible(), worlds[n + 1].s.Visible();
      && after == (match read case Some(v) => before[k := v] case None => before - {k})
      && (after == before <==> match read case Some(v) => k in before && before[k] == v case None => k !in before)
  {
    hide CanHappen, IsRun, Good, Store.Owned, FinishGet, Store.Visible;
    RunAt(lib, cfg, events, worlds, n);
    EndFollowsRead(lib, cfg, worlds[n], events[n], worlds[n + 1]);
    WorldIsOwned(lib, cfg, events, worlds, n);
    FinishActs(worlds[n].s, events[n].key, events[n].value);
    match events[n].value {
      case Some(v) => PutChangesIff(worlds[n].s.Visible(), events[n].key, v);
      case None => TakeChangesIff(worlds[n].s.Visible(), events[n].key);
    }
  }

  /** A client's SET of `k` to `v`. */
  predicate ClientSet(ev: Event, k: Bytes, v: Bytes) {
    ev == Run(Command(Set(k, v)))
  }

  /** No value is ever made up: whatever is visible, at any time, a client has set, even
      if waiting GETs have put it back since. */
  lemma {:induction false} VisibleWasSet(
      lib: Library, cfg: Config, events: seq<Event>, worlds: seq<World>, n: nat, k: Bytes)
    requires IsRun(lib, cfg, events, worlds) && |worlds| == |events| + 1 && n <= |events|
    requires k in worlds[n].s.Visible()
    ensures exists j :: 0 <= j < n && ClientSet(events[j], k, worlds[n].s.Visible()[k])
  {
    hide CanHappen, Store.Visible, Undoes, FinishGet, AnswersFrom;
    if n == 0 {
      StartIsEmpty(lib, cfg, events, worlds);
    } else {
      EventOnKey(lib, cfg, events, worlds, n - 1, k);
      if !Sets(events[n - 1], k) {
        VisibleWasSet(lib, cfg, events, worlds, n - 1, k);
      } else if events[n - 1].Run? {
        assert ClientSet(events[n - 1], k, worlds[n].s.Visible()[k]);
      } else {
        WaitingGetAnswers(lib, cfg, events, worlds, n - 1);
        var i :| 0 <= i < n - 1 && AnswersFrom(events, worlds, i, n - 1);
        PutBackIsOld(events, worlds, i, n - 1);
        VisibleWasSet(lib, cfg, events, worlds, i, k);
      }
    }
  }

  lemma StartIsEmpty(lib: Library, cfg: Config, events: seq<Event>, worlds: seq<World>)
    requires IsRun(lib, cfg, events, worlds)
    ensures |worlds| > 0 && worlds[0].s.Visible() == map[]
  {
    hide CanHappen;
    NothingVisible(worlds[0].s);
  }

  lemma PutBackIsOld(events: seq<Event>, worlds: seq<World>, i: nat, n: nat)
    requires |worlds| == |events| + 1 && n < |events| && events[n].EndGet? && i < n && events[n].value.Some?
    requires AnswersFrom(events, worlds, i, n)
    ensures events[n].key in worlds[i].s.Visible() && worlds[i].s.Visible()[events[n].key] == events[n].value.value
  {
    hide Store.Visible, Store.InsertRedis, UnderWay, LostBetween;
  }
}
