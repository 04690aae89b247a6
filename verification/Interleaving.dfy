/** The `insert_*` and `remove_*` helpers of `State` (src/state.rs:251-291,
    310-352) cut into their atomic steps, and any number of threads running them
    in any order. Each map operation and each `fetch_add` is one step. */
module Interleaving {
  import opened Prelude
  import opened DigestText
  import opened UsageSums
  import opened Cache

  datatype Op =
    | InsertBlob(d: Digest, b: Blob)
    | RemoveBlob(d: Digest)
    | InsertManifest(d: Digest, m: Manifest)
    | RemoveManifest(d: Digest)
    | InsertRedis(k: Bytes, v: Bytes)
    | RemoveRedis(k: Bytes)

  /** One atomic step. */
  datatype Micro =
    | Add(bucket: Bucket, n: int)
    /** The `fetch_add` of a new key's length. */
    | ChargeKey(k: Bytes)
    | PutBlob(d: Digest, b: Blob)
    | TakeBlob(d: Digest)
    | PutManifest(d: Digest, m: Manifest)
    | TakeManifest(d: Digest)
    | NewEntry(k: Bytes, v: Bytes)
    | PutEntry(k: Bytes, e: RedisEntry)
    | TakeEntry(k: Bytes)
    | SpawnUnlink(id: nat)

  /** The steps a call starts with; the later ones depend on what the map held. */
  function Code(op: Op): seq<Micro> {
    match op
    case InsertBlob(d, b) => [Add(BlobBucket(b).0, BlobBucket(b).1), PutBlob(d, b)]
    case RemoveBlob(d) => [TakeBlob(d)]
    case InsertManifest(d, m) => [PutManifest(d, m)]
    case RemoveManifest(d) => [TakeManifest(d)]
    case InsertRedis(k, v) => [NewEntry(k, v)]
    case RemoveRedis(k) => [TakeEntry(k)]
  }

  function Discharge(charge: (Bucket, nat)): Micro {
    Add(charge.0, -(charge.1 as int))
  }

  function Unlinking(e: RedisEntry): seq<Micro> {
    if e.OnDisk? then [SpawnUnlink(e.id)] else []
  }

  /** One step on the shared store, and what it leaves its thread to do next. */
  function Exec(s: Store, a: Micro): (Store, seq<Micro>) {
    match a
    case Add(bucket, n) => (s.Charge(In(bucket, n)), [])
    case ChargeKey(k) => (s.Charge(KeyCharge(k)), [])
    case PutBlob(d, b) =>
      (s.(blobs := s.blobs[d := b]), if d in s.blobs then [Discharge(BlobBucket(s.blobs[d]))] else [])
    case TakeBlob(d) =>
      (s.(blobs := s.blobs - {d}), if d in s.blobs then [Discharge(BlobBucket(s.blobs[d]))] else [])
    case PutManifest(d, m) =>
      (s.(manifests := s.manifests[d := m]),
       [Add(ManifestMemory, |m.content| - if d in s.manifests then |s.manifests[d].content| else 0)])
    case TakeManifest(d) =>
      (s.(manifests := s.manifests - {d}),
       if d in s.manifests then [Add(ManifestMemory, -|s.manifests[d].content|)] else [])
    case NewEntry(k, v) =>
      var e := RedisEntry.InMemory(s.nextId, v, s.now);
      (s.(nextId := s.nextId + 1), [Add(RedisValueBucket(e).0, RedisValueBucket(e).1), PutEntry(k, e)])
    case PutEntry(k, e) =>
      (s.(redis := s.redis[k := e]),
       if k in s.redis then [Discharge(RedisValueBucket(s.redis[k]))] + Unlinking(s.redis[k])
       else [ChargeKey(k)])
    case TakeEntry(k) =>
      (s.(redis := s.redis - {k}),
       if k in s.redis
       then [Discharge(RedisValueBucket(s.redis[k])), Add(SmallRedisMemory, -|k|)] + Unlinking(s.redis[k])
       else [])
    case SpawnUnlink(id) => (s.(unlinks := s.unlinks + {id}), [])
  }

  /** A shared store and what each thread has left to do. */
  datatype System = System(s: Store, threads: map<nat, seq<Micro>>)

  datatype Event = Call(thread: nat, op: Op) | Advance(thread: nat)

  /** A thread calls a helper when it is idle, and otherwise takes its next step. */
  function Next(sys: System, ev: Event): System {
    match ev
    case Call(t, op) =>
      if t in sys.threads && sys.threads[t] != [] then sys
      else sys.(threads := sys.threads[t := Code(op)])
    case Advance(t) =>
      if t !in sys.threads || sys.threads[t] == [] then sys
      else
        var (s', follow) := Exec(sys.s, sys.threads[t][0]);
        System(s', sys.threads[t := follow + sys.threads[t][1..]])
  }

  function After(sys: System, events: seq<Event>): System {
    if events == [] then sys else Next(After(sys, events[..|events| - 1]), events[|events| - 1])
  }

  ghost predicate Quiet(sys: System) {
    forall t :: t in sys.threads ==> sys.threads[t] == []
  }

  // ---- The steps are those of the helpers

  /** A thread left alone for a call's steps. */
  function Finish(s: Store, todo: seq<Micro>, steps: nat): (Store, seq<Micro>)
    decreases steps
  {
    if steps == 0 || todo == [] then (s, todo)
    else
      var (s', follow) := Exec(s, todo[0]);
      Finish(s', follow + todo[1..], steps - 1)
  }

  function Helper(s: Store, op: Op): Store {
    match op
    case InsertBlob(d, b) => s.InsertBlob(d, b)
    case RemoveBlob(d) => s.RemoveBlob(d)
    case InsertManifest(d, m) => s.InsertManifest(d, m)
    case RemoveManifest(d) => s.RemoveManifest(d)
    case InsertRedis(k, v) => s.InsertRedis(k, v)
    case RemoveRedis(k) => s.RemoveRedis(k)
  }

  lemma FinishOne(s: Store, a: Micro, steps: nat)
    ensures Finish(s, [a], steps + 1) == Finish(Exec(s, a).0, Exec(s, a).1, steps)
  {
    hide Exec;
    var follow := Exec(s, a).1;
    assert [a][1..] == [];
    assert follow + [] == follow;
  }

  lemma FinishAdd(s: Store, bucket: Bucket, n: int, rest: seq<Micro>, steps: nat)
    ensures Finish(s, [Add(bucket, n)] + rest, steps + 1) == Finish(s.Charge(In(bucket, n)), rest, steps)
  {
    hide In;
    var todo := [Add(bucket, n)] + rest;
    assert todo[1..] == rest;
    assert [] + rest == rest;
  }

  lemma FinishNothing(s: Store, steps: nat)
    ensures Finish(s, [], steps) == (s, [])
  {}

  lemma FinishDischarge(s: Store, charge: (Bucket, nat), rest: seq<Micro>, steps: nat)
    ensures Finish(s, [Discharge(charge)] + rest, steps + 1) ==
      Finish(s.(counters := s.counters.Minus(In(charge.0, charge.1))), rest, steps)
  {
    hide In, Finish, Usage.Minus, Usage.Plus;
    FinishAdd(s, charge.0, -(charge.1 as int), rest, steps);
    Negated(charge.0, charge.1, s.counters);
  }

  lemma FinishUnlinking(s: Store, e: RedisEntry, steps: nat)
    requires steps > 0
    ensures Finish(s, Unlinking(e), steps) == (s.(unlinks := if e.OnDisk? then s.unlinks + {e.id} else s.unlinks), [])
  {
    hide Finish;
    if e.OnDisk? {
      FinishOne(s, SpawnUnlink(e.id), steps - 1);
      FinishNothing(s.(unlinks := s.unlinks + {e.id}), steps - 1);
    } else {
      FinishNothing(s, steps);
    }
  }

  lemma Negated(b: Bucket, n: nat, u: Usage)
    ensures u.Plus(In(b, -(n as int))) == u.Minus(In(b, n))
  {}

  lemma BlobCallsAreHelpers(s: Store, op: Op)
    requires op.InsertBlob? || op.RemoveBlob?
    ensures Finish(s, Code(op), 5) == (Helper(s, op), [])
  {
    hide In, BlobBucket, Finish, Usage.Plus, Usage.Minus;
    var d := op.d;
    var s1 := if op.InsertBlob? then s.Charge(BlobCharge(op.b)) else s;
    var a := if op.InsertBlob? then PutBlob(d, op.b) else TakeBlob(d);
    var s2 := Exec(s1, a).0;
    var left := if op.InsertBlob? then 4 else 5;
    if op.InsertBlob? {
      FinishAdd(s, BlobBucket(op.b).0, BlobBucket(op.b).1, [a], 4);
      assert Code(op) == [Add(BlobBucket(op.b).0, BlobBucket(op.b).1)] + [a];
    }
    FinishOne(s1, a, left - 1);
    if d in s.blobs {
      var charge := BlobBucket(s.blobs[d]);
      assert [Discharge(charge)] + [] == [Discharge(charge)];
      FinishDischarge(s2, charge, [], left - 2);
      FinishNothing(s2.(counters := s2.counters.Minus(In(charge.0, charge.1))), left - 2);
    } else {
      FinishNothing(s2, left - 1);
      TakingNothing(s1.counters, s.blobs, d);
    }
  }

  lemma TakingNothing<K, V>(c: Usage, m: map<K, V>, k: K)
    requires k !in m
    ensures c.Minus(ZERO) == c && m - {k} == m
  {}

  lemma ManifestCallsAreHelpers(s: Store, op: Op)
    requires op.InsertManifest? || op.RemoveManifest?
    ensures Finish(s, Code(op), 5) == (Helper(s, op), [])
  {
    hide Finish;
    var d := op.d;
    var a := Code(op)[0];
    var (s1, follow) := Exec(s, a);
    FinishOne(s, a, 4);
    if follow == [] {
      FinishNothing(s1, 4);
      assert s.manifests - {d} == s.manifests;
    } else {
      assert follow == [follow[0]] + [];
      FinishAdd(s1, ManifestMemory, follow[0].n, [], 3);
      FinishNothing(s1.Charge(In(ManifestMemory, follow[0].n)), 3);
    }
  }

  lemma InsertRedisIsHelper(s: Store, k: Bytes, v: Bytes)
    ensures Finish(s, Code(InsertRedis(k, v)), 5) == (s.InsertRedis(k, v), [])
  {
    hide In, RedisValueBucket, Finish, Usage.Plus, Usage.Minus, Unlinking;
    var e := RedisEntry.InMemory(s.nextId, v, s.now);
    var charge := RedisValueBucket(e);
    FinishOne(s, NewEntry(k, v), 4);
    var s1 := s.(nextId := s.nextId + 1);
    assert [Add(charge.0, charge.1), PutEntry(k, e)] == [Add(charge.0, charge.1)] + [PutEntry(k, e)];
    FinishAdd(s1, charge.0, charge.1, [PutEntry(k, e)], 3);
    var s2 := s1.Charge(ValueCharge(e));
    FinishOne(s2, PutEntry(k, e), 2);
    var s3 := s2.(redis := s2.redis[k := e]);
    if k in s.redis {
      var gone := s.redis[k];
      var before := RedisValueBucket(gone);
      FinishDischarge(s3, before, Unlinking(gone), 1);
      MinusIsPlus(s2.counters, ValueCharge(gone));
      var s4 := s3.(counters := s3.counters.Minus(ValueCharge(gone)));
      FinishUnlinking(s4, gone, 1);
    } else {
      FinishOne(s3, ChargeKey(k), 1);
      FinishNothing(s3.Charge(KeyCharge(k)), 1);
    }
  }

  lemma MinusIsPlus(u: Usage, v: Usage)
    ensures u.Plus(ZERO.Minus(v)) == u.Minus(v)
  {}

  lemma RemoveRedisIsHelper(s: Store, k: Bytes)
    ensures Finish(s, Code(RemoveRedis(k)), 5) == (s.RemoveRedis(k), [])
  {
    hide In, RedisValueBucket, Finish, Usage.Plus, Usage.Minus, Unlinking;
    FinishOne(s, TakeEntry(k), 4);
    var s1 := s.(redis := s.redis - {k});
    if k in s.redis {
      var gone := s.redis[k];
      var charge, key := RedisValueBucket(gone), Discharge((SmallRedisMemory, |k|));
      assert [Discharge(charge), key] + Unlinking(gone) == [Discharge(charge)] + ([key] + Unlinking(gone));
      FinishDischarge(s1, charge, [key] + Unlinking(gone), 3);
      var s2 := s1.(counters := s1.counters.Minus(ValueCharge(gone)));
      FinishDischarge(s2, (SmallRedisMemory, |k|), Unlinking(gone), 2);
      var s3 := s2.(counters := s2.counters.Minus(KeyCharge(k)));
      FinishUnlinking(s3, gone, 2);
      MinusTwice(s.counters, ValueCharge(gone), KeyCharge(k));
    } else {
      FinishNothing(s1, 4);
      assert s.redis - {k} == s.redis;
    }
  }

  /** A call that nobody interrupts takes at most five steps and does what the
      helper does as one operation. */
  lemma {:induction false} UninterruptedCallIsHelper(s: Store, op: Op)
    ensures Finish(s, Code(op), 5) == (Helper(s, op), [])
  {
    hide Finish, Code;
    match op
    case InsertRedis(k, v) => InsertRedisIsHelper(s, k, v);
    case RemoveRedis(k) => RemoveRedisIsHelper(s, k);
    case InsertManifest(_, _) => ManifestCallsAreHelpers(s, op);
    case RemoveManifest(_) => ManifestCallsAreHelpers(s, op);
    case _ => BlobCallsAreHelpers(s, op);
  }

  // ---- In-flight bytes

  /** By how much the counters are ahead of the maps because of one pending step. */
  function AheadOf(a: Micro): Usage {
    match a
    case Add(bucket, n) => ZERO.Minus(In(bucket, n))
    case ChargeKey(k) => ZERO.Minus(KeyCharge(k))
    case PutBlob(_, b) => BlobCharge(b)
    case PutEntry(_, e) => ValueCharge(e)
    case _ => ZERO
  }

  function Ahead(todo: seq<Micro>): Usage {
    if todo == [] then ZERO else AheadOf(todo[0]).Plus(Ahead(todo[1..]))
  }

  ghost function Aheads(threads: map<nat, seq<Micro>>): (r: map<nat, Usage>)
    ensures r.Keys == threads.Keys && forall t :: t in threads ==> r[t] == Ahead(threads[t])
  {
    MapOf(threads.Keys, t requires t in threads => Ahead(threads[t]))
  }

  /** The in-flight deltas of all threads together. */
  ghost function InFlight(sys: System): Usage {
    Total(Aheads(sys.threads))
  }

  lemma {:induction false} AheadJoin(todo: seq<Micro>, more: seq<Micro>)
    ensures Ahead(todo + more) == Ahead(todo).Plus(Ahead(more))
    decreases |todo|
  {
    hide AheadOf;
    if todo == [] {
      assert todo + more == more;
    } else {
      AheadJoin(todo[1..], more);
      assert (todo + more)[1..] == todo[1..] + more;
    }
  }

  lemma AheadOne(a: Micro)
    ensures Ahead([a]) == AheadOf(a)
  {
    hide AheadOf, Usage.Plus;
    assert [a][1..] == [];
    PlusZero(AheadOf(a));
  }

  lemma AheadTwo(a: Micro, b: Micro)
    ensures Ahead([a, b]) == AheadOf(a).Plus(AheadOf(b))
  {
    hide AheadOf, Usage.Plus;
    assert [a, b][1..] == [b];
    AheadOne(b);
  }

  lemma AheadUnlinking(todo: seq<Micro>, e: RedisEntry)
    ensures Ahead(todo + Unlinking(e)) == Ahead(todo)
  {
    hide Ahead, Usage.Plus;
    if e.OnDisk? {
      AheadJoin(todo, [SpawnUnlink(e.id)]);
      AheadOne(SpawnUnlink(e.id));
      PlusZero(Ahead(todo));
    } else {
      assert todo + [] == todo;
    }
  }

  lemma AheadDischarge(charge: (Bucket, nat))
    ensures AheadOf(Discharge(charge)) == In(charge.0, charge.1)
  {}

  /** A map step moves bytes from "already counted" to "in the map" or from "in the
      map" to "not yet taken off", never anything else. */
  lemma SameMaps(s: Store, s': Store, whole: Store)
    requires s'.manifests == whole.manifests && s'.blobs == whole.blobs && s'.redis == whole.redis
    requires whole.Drift() == s.Drift() && s'.counters == s.counters
    ensures s'.Drift() == s.Drift().Minus(whole.counters.Minus(s.counters))
  {
    hide Store.Recomputed, Usage.Minus;
    SumsFollowMaps(s', whole);
    DriftAlgebra(s.counters, whole.counters, s.Recomputed(), whole.Recomputed());
  }

  lemma SumsFollowMaps(s: Store, s': Store)
    requires s'.manifests == s.manifests && s'.blobs == s.blobs && s'.redis == s.redis
    ensures s'.Recomputed() == s.Recomputed()
  {
    hide Total, ManifestCharges, BlobCharges, RedisCharges, Usage.Plus;
  }

  lemma DriftAlgebra(c: Usage, c': Usage, r: Usage, r': Usage)
    requires c'.Minus(r') == c.Minus(r)
    ensures c.Minus(r') == c.Minus(r).Minus(c'.Minus(c))
  {}

  lemma PutBlobBalance(s: Store, d: Digest, b: Blob)
    ensures var (s', follow) := Exec(s, PutBlob(d, b));
      s'.Drift() == s.Drift().Minus(BlobCharge(b)).Plus(Ahead(follow))
  {
    hide Store.Drift, In, BlobBucket;
    InsertBlobKeepsDrift(s, d, b);
    SameMaps(s, Exec(s, PutBlob(d, b)).0, s.InsertBlob(d, b));
    if d in s.blobs {
      AheadOne(Discharge(BlobBucket(s.blobs[d])));
      AheadDischarge(BlobBucket(s.blobs[d]));
    }
  }

  lemma TakeBlobBalance(s: Store, d: Digest)
    ensures var (s', follow) := Exec(s, TakeBlob(d)); s'.Drift() == s.Drift().Plus(Ahead(follow))
  {
    hide Store.Drift, In, BlobBucket;
    RemoveBlobKeepsDrift(s, d);
    if d in s.blobs {
      SameMaps(s, Exec(s, TakeBlob(d)).0, s.RemoveBlob(d));
      AheadOne(Discharge(BlobBucket(s.blobs[d])));
      AheadDischarge(BlobBucket(s.blobs[d]));
    } else {
      assert s.blobs - {d} == s.blobs;
    }
  }

  lemma PutManifestBalance(s: Store, d: Digest, m: Manifest)
    ensures var (s', follow) := Exec(s, PutManifest(d, m)); s'.Drift() == s.Drift().Plus(Ahead(follow))
  {
    hide Store.Drift;
    InsertManifestKeepsDrift(s, d, m);
    SameMaps(s, Exec(s, PutManifest(d, m)).0, s.InsertManifest(d, m));
    AheadOne(Exec(s, PutManifest(d, m)).1[0]);
  }

  lemma TakeManifestBalance(s: Store, d: Digest)
    ensures var (s', follow) := Exec(s, TakeManifest(d)); s'.Drift() == s.Drift().Plus(Ahead(follow))
  {
    hide Store.Drift;
    RemoveManifestKeepsDrift(s, d);
    if d in s.manifests {
      SameMaps(s, Exec(s, TakeManifest(d)).0, s.RemoveManifest(d));
      AheadOne(Exec(s, TakeManifest(d)).1[0]);
    } else {
      assert s.manifests - {d} == s.manifests;
    }
  }

  lemma PutEntryWhole(s: Store, k: Bytes, e: RedisEntry)
    returns (whole: Store)
    ensures whole.manifests == s.manifests && whole.blobs == s.blobs && whole.redis == s.redis[k := e]
    ensures whole.counters == s.counters.Plus(ValueCharge(e))
      .Plus(if k in s.redis then ZERO.Minus(ValueCharge(s.redis[k])) else KeyCharge(k))
    ensures whole.Drift() == s.Drift()
  {
    hide RedisCharge, ValueCharge, KeyCharge, MapOf, Store.Recomputed, AddsUp, Usage.Plus, Usage.Minus;
    whole := s.(redis := s.redis[k := e], counters := s.counters.Plus(ValueCharge(e))
      .Plus(if k in s.redis then ZERO.Minus(ValueCharge(s.redis[k])) else KeyCharge(k)));
    RecomputedAddsUp(s);
    RecomputedAddsUp(whole);
    AddsUpIsSum();
    EntryCharged(s.counters, s.redis, k, e);
    assert RedisCharges(s.redis[k := e]) == RedisCharges(s.redis)[k := RedisCharge(k, e)];
    TotalPut(RedisCharges(s.redis), k, RedisCharge(k, e));
    ReplaceInSum(s.counters, Total(ManifestCharges(s.manifests)), Total(RedisCharges(s.redis)),
                 Total(BlobCharges(s.blobs)), if k in s.redis then RedisCharge(k, s.redis[k]) else ZERO,
                 RedisCharge(k, e));
  }

  lemma PutEntryBalance(s: Store, k: Bytes, e: RedisEntry)
    ensures var (s', follow) := Exec(s, PutEntry(k, e));
      s'.Drift() == s.Drift().Minus(ValueCharge(e)).Plus(Ahead(follow))
  {
    hide Store.Drift, In, RedisValueBucket, Unlinking;
    var whole := PutEntryWhole(s, k, e);
    SameMaps(s, Exec(s, PutEntry(k, e)).0, whole);
    if k in s.redis {
      var charge := RedisValueBucket(s.redis[k]);
      AheadOne(Discharge(charge));
      AheadDischarge(charge);
      AheadUnlinking([Discharge(charge)], s.redis[k]);
    } else {
      AheadOne(ChargeKey(k));
    }
  }

  lemma TakeEntryBalance(s: Store, k: Bytes)
    ensures var (s', follow) := Exec(s, TakeEntry(k)); s'.Drift() == s.Drift().Plus(Ahead(follow))
  {
    hide Store.Drift, In, RedisValueBucket, Unlinking;
    RemoveRedisKeepsDrift(s, k);
    if k in s.redis {
      var charge := RedisValueBucket(s.redis[k]);
      SameMaps(s, Exec(s, TakeEntry(k)).0, s.RemoveRedis(k));
      AheadTwo(Discharge(charge), Discharge((SmallRedisMemory, |k|)));
      AheadDischarge(charge);
      AheadDischarge((SmallRedisMemory, |k|));
      AheadUnlinking([Discharge(charge), Discharge((SmallRedisMemory, |k|))], s.redis[k]);
    } else {
      assert s.redis - {k} == s.redis;
    }
  }

  lemma OtherBalance(s: Store, a: Micro)
    requires a.Add? || a.ChargeKey? || a.NewEntry? || a.SpawnUnlink?
    ensures var (s', follow) := Exec(s, a); s'.Drift() == s.Drift().Minus(AheadOf(a)).Plus(Ahead(follow))
  {
    hide Store.Recomputed, In, Ahead, RedisValueBucket;
    SumsFollowMaps(s, Exec(s, a).0);
    assert Ahead([]) == ZERO by { NothingAhead(); }
    if a.NewEntry? {
      var follow := Exec(s, a).1;
      AheadTwo(follow[0], follow[1]);
      NewEntryAhead(follow[1].e);
    }
  }

  lemma NothingAhead()
    ensures Ahead([]) == ZERO
  {}

  lemma NewEntryAhead(e: RedisEntry)
    ensures var (bucket, n) := RedisValueBucket(e); ZERO.Minus(In(bucket, n)).Plus(ValueCharge(e)) == ZERO
  {}

  /** What a step does to the drift is what it does to its thread's in-flight bytes. */
  lemma ExecBalance(s: Store, a: Micro)
    ensures var (s', follow) := Exec(s, a); s'.Drift() == s.Drift().Minus(AheadOf(a)).Plus(Ahead(follow))
  {
    hide Exec, Store.Drift, Ahead, BlobCharge, ValueCharge, In;
    match a {
      case PutBlob(d, b) => PutBlobBalance(s, d, b);
      case TakeBlob(d) => TakeBlobBalance(s, d);
      case PutManifest(d, m) => PutManifestBalance(s, d, m);
      case TakeManifest(d) => TakeManifestBalance(s, d);
      case PutEntry(k, e) => PutEntryBalance(s, k, e);
      case TakeEntry(k) => TakeEntryBalance(s, k);
      case _ => OtherBalance(s, a);
    }
  }

  lemma AheadsPut(threads: map<nat, seq<Micro>>, t: nat, todo: seq<Micro>)
    ensures Total(Aheads(threads[t := todo])) ==
      Total(Aheads(threads)).Minus(if t in threads then Ahead(threads[t]) else ZERO).Plus(Ahead(todo))
  {
    hide Ahead, MapOf, Total, Usage.Plus, Usage.Minus;
    assert Aheads(threads[t := todo]) == Aheads(threads)[t := Ahead(todo)];
    TotalPut(Aheads(threads), t, Ahead(todo));
  }

  lemma CodeIsBalanced(op: Op)
    ensures Ahead(Code(op)) == ZERO
  {
    match op
    case InsertBlob(d, b) => AheadTwo(Code(op)[0], Code(op)[1]);
    case _ => AheadOne(Code(op)[0]);
  }

  lemma BalanceAlgebra(drift: Usage, drift': Usage, flight: Usage, flight': Usage, a: Usage, follow: Usage, rest: Usage)
    requires drift' == drift.Minus(a).Plus(follow)
    requires flight' == flight.Minus(a.Plus(rest)).Plus(follow.Plus(rest))
    ensures drift'.Minus(flight') == drift.Minus(flight)
  {}

  lemma NextBalance(sys: System, ev: Event)
    ensures Next(sys, ev).s.Drift().Minus(InFlight(Next(sys, ev))) == sys.s.Drift().Minus(InFlight(sys))
  {
    hide Store.Drift, Exec, AheadOf, Code, Total, Aheads;
    var t := ev.thread;
    var idle := t !in sys.threads || sys.threads[t] == [];
    match ev {
      case Call(_, op) =>
        if idle {
          AheadsPut(sys.threads, t, Code(op));
          CodeIsBalanced(op);
        }
      case Advance(_) =>
        if !idle {
          var a, rest := sys.threads[t][0], sys.threads[t][1..];
          var (s', follow) := Exec(sys.s, a);
          ExecBalance(sys.s, a);
          AheadJoin(follow, rest);
          AheadsPut(sys.threads, t, follow + rest);
          BalanceAlgebra(sys.s.Drift(), s'.Drift(), InFlight(sys), InFlight(Next(sys, ev)),
                         AheadOf(a), Ahead(follow), Ahead(rest));
        }
    }
  }

  /** Under any interleaving the counters are the map sums plus the in-flight deltas. */
  lemma {:induction false} CountersAreSumsPlusInFlight(sys: System, events: seq<Event>)
    requires sys.s.Exact() && sys.threads == map[]
    ensures var now := After(sys, events); now.s.counters == now.s.Recomputed().Plus(InFlight(now))
    decreases |events|
  {
    hide Store.Recomputed, InFlight, Next;
    if events == [] {
      NothingInFlight(sys);
    } else {
      CountersAreSumsPlusInFlight(sys, events[..|events| - 1]);
      NextBalance(After(sys, events[..|events| - 1]), events[|events| - 1]);
    }
  }

  lemma NothingInFlight(sys: System)
    requires Quiet(sys)
    ensures InFlight(sys) == ZERO
  {
    hide MapOf, Total;
    ZeroTotal(Aheads(sys.threads));
  }

  lemma {:induction false} ZeroTotal<K>(m: map<K, Usage>)
    requires forall k :: k in m ==> m[k] == ZERO
    ensures Total(m) == ZERO
    decreases |m|
  {
    if m != map[] {
      var k :| k in m;
      TotalTake(m, k);
      ZeroTotal(m - {k});
    }
  }

  /** Once every thread is idle, all seven counters are exact again. */
  lemma {:induction false} ExactWhenQuiet(sys: System, events: seq<Event>)
    requires sys.s.Exact() && sys.threads == map[] && Quiet(After(sys, events))
    ensures After(sys, events).s.Exact()
  {
    hide Store.Recomputed, InFlight, After, Quiet;
    CountersAreSumsPlusInFlight(sys, events);
    NothingInFlight(After(sys, events));
  }

  // ---- How far a counter can fall short

  /** Bytes that are in the map before they are counted: a new key's, and the growth
      of a manifest. Everything else is counted first or taken off last. */
  function OwedOf(a: Micro): Usage {
    match a
    case ChargeKey(k) => KeyCharge(k)
    case Add(bucket, n) => if bucket == ManifestMemory && n > 0 then In(ManifestMemory, n) else ZERO
    case _ => ZERO
  }

  function Owed(todo: seq<Micro>): Usage {
    if todo == [] then ZERO else OwedOf(todo[0]).Plus(Owed(todo[1..]))
  }

  ghost function Oweds(threads: map<nat, seq<Micro>>): (r: map<nat, Usage>)
    ensures r.Keys == threads.Keys && forall t :: t in threads ==> r[t] == Owed(threads[t])
  {
    MapOf(threads.Keys, t requires t in threads => Owed(threads[t]))
  }

  /** What all threads together have put in the maps and not yet counted. */
  ghost function AllOwed(sys: System): Usage {
    Total(Oweds(sys.threads))
  }

  /** In every bucket `owed` makes up for what `ahead` is short of. */
  predicate Covers(owed: Usage, ahead: Usage) {
    && -ahead.manifestMemory <= owed.manifestMemory
    && -ahead.smallBlobMemory <= owed.smallBlobMemory
    && -ahead.largeBlobMemory <= owed.largeBlobMemory
    && -ahead.smallRedisMemory <= owed.smallRedisMemory
    && -ahead.largeRedisMemory <= owed.largeRedisMemory
    && -ahead.blobDisk <= owed.blobDisk
    && -ahead.redisDisk <= owed.redisDisk
  }

  /** Wherever the thread is in its list, it is behind by at most what it owes. */
  predicate NeverBehind(todo: seq<Micro>) {
    Covers(Owed(todo), Ahead(todo)) && (todo != [] ==> NeverBehind(todo[1..]))
  }

  lemma {:induction false} OwedJoin(todo: seq<Micro>, more: seq<Micro>)
    ensures Owed(todo + more) == Owed(todo).Plus(Owed(more))
    decreases |todo|
  {
    hide OwedOf;
    if todo == [] {
      assert todo + more == more;
    } else {
      OwedJoin(todo[1..], more);
      assert (todo + more)[1..] == todo[1..] + more;
    }
  }

  lemma FourSums(a: Usage, b: Usage, c: Usage, d: Usage)
    ensures Covers(c, a) && Covers(d, b) ==> Covers(c.Plus(d), a.Plus(b))
  {}

  lemma {:induction false} NeverBehindJoin(todo: seq<Micro>, more: seq<Micro>)
    requires NeverBehind(todo) && NeverBehind(more)
    ensures NeverBehind(todo + more)
    decreases |todo|
  {
    hide Ahead, Owed, Usage.Plus, Covers;
    AheadJoin(todo, more);
    OwedJoin(todo, more);
    FourSums(Ahead(todo), Ahead(more), Owed(todo), Owed(more));
    if todo == [] {
      assert todo + more == more;
    } else {
      NeverBehindJoin(todo[1..], more);
      assert (todo + more)[1..] == todo[1..] + more;
    }
  }

  lemma OwedOne(a: Micro)
    ensures Owed([a]) == OwedOf(a)
  {
    hide OwedOf, Usage.Plus;
    assert [a][1..] == [];
    PlusZero(OwedOf(a));
  }

  lemma NothingBehind()
    ensures NeverBehind([])
  {}

  lemma NeverBehindOne(a: Micro)
    requires Covers(OwedOf(a), AheadOf(a))
    ensures NeverBehind([a])
  {
    hide Ahead, Owed, AheadOf, OwedOf, Usage.Plus, Covers;
    AheadOne(a);
    OwedOne(a);
    NothingBehind();
    assert [a][1..] == [];
  }

  lemma NeverBehindTwo(a: Micro, b: Micro)
    requires Covers(OwedOf(b), AheadOf(b))
    requires Covers(OwedOf(a).Plus(OwedOf(b)), AheadOf(a).Plus(AheadOf(b)))
    ensures NeverBehind([a, b])
  {
    hide Ahead, Owed, AheadOf, OwedOf, Usage.Plus, Covers;
    AheadTwo(a, b);
    OwedOne(b);
    NeverBehindOne(b);
    assert [a, b][1..] == [b];
    assert Owed([a, b]) == OwedOf(a).Plus(OwedOf(b)) by { OwedTwo(a, b); }
  }

  lemma OwedTwo(a: Micro, b: Micro)
    ensures Owed([a, b]) == OwedOf(a).Plus(OwedOf(b))
  {
    hide OwedOf, Usage.Plus;
    assert [a, b][1..] == [b];
    OwedOne(b);
  }

  lemma PutCovered(bucket: Bucket, n: nat)
    requires bucket != ManifestMemory
    ensures Covers(ZERO, In(bucket, n))
    ensures Covers(ZERO.Plus(ZERO), ZERO.Minus(In(bucket, n)).Plus(In(bucket, n)))
  {
    hide Covers, Usage.Plus, Usage.Minus, Usage.AtMost;
    InNonNegative(bucket, n);
    ChargeCovers(In(bucket, n));
  }

  lemma InNonNegative(bucket: Bucket, n: nat)
    ensures ZERO.AtMost(In(bucket, n))
  {}

  lemma ChargeCovers(u: Usage)
    requires ZERO.AtMost(u)
    ensures Covers(ZERO, u) && Covers(ZERO.Plus(ZERO), ZERO.Minus(u).Plus(u))
  {}

  /** A value is charged before it is inserted; that is why its bucket is never short. */
  lemma CodeNeverBehind(op: Op)
    ensures NeverBehind(Code(op))
  {
    hide NeverBehind, In, BlobBucket, Usage.Plus, Usage.Minus, Covers;
    if op.InsertBlob? {
      BlobBucketIsBlobs(op.b);
      PutCovered(BlobBucket(op.b).0, BlobBucket(op.b).1);
      NeverBehindTwo(Code(op)[0], Code(op)[1]);
    } else {
      assert Covers(ZERO, ZERO) by { NothingOwed(); }
      NeverBehindOne(Code(op)[0]);
    }
  }

  lemma NothingOwed()
    ensures Covers(ZERO, ZERO)
  {}

  lemma BlobBucketIsBlobs(b: Blob)
    ensures BlobBucket(b).0 != ManifestMemory
  {}

  lemma RedisBucketIsRedis(e: RedisEntry)
    ensures RedisValueBucket(e).0 != ManifestMemory
  {}

  lemma UnlinkingNeverBehind(e: RedisEntry)
    ensures NeverBehind(Unlinking(e))
  {
    hide NeverBehind;
    NothingBehind();
    if e.OnDisk? {
      NeverBehindOne(SpawnUnlink(e.id));
    }
  }

  lemma DischargeNeverBehind(charge: (Bucket, nat))
    ensures NeverBehind([Discharge(charge)])
  {
    hide NeverBehind;
    NeverBehindOne(Discharge(charge));
  }

  lemma ManifestAddNeverBehind(n: int)
    ensures NeverBehind([Add(ManifestMemory, n)])
  {
    hide NeverBehind;
    NeverBehindOne(Add(ManifestMemory, n));
  }

  lemma EntryAddsNeverBehind(k: Bytes, e: RedisEntry)
    ensures NeverBehind([Add(RedisValueBucket(e).0, RedisValueBucket(e).1), PutEntry(k, e)])
  {
    hide NeverBehind, In, RedisValueBucket, Usage.Plus, Usage.Minus, Covers;
    RedisBucketIsRedis(e);
    PutCovered(RedisValueBucket(e).0, RedisValueBucket(e).1);
    NeverBehindTwo(Add(RedisValueBucket(e).0, RedisValueBucket(e).1), PutEntry(k, e));
  }

  lemma KeyNeverBehind(k: Bytes)
    ensures NeverBehind([ChargeKey(k)])
  {
    hide NeverBehind;
    NeverBehindOne(ChargeKey(k));
  }

  lemma PutEntryFollow(e: RedisEntry)
    ensures NeverBehind([Discharge(RedisValueBucket(e))] + Unlinking(e))
  {
    hide NeverBehind, Unlinking;
    DischargeNeverBehind(RedisValueBucket(e));
    UnlinkingNeverBehind(e);
    NeverBehindJoin([Discharge(RedisValueBucket(e))], Unlinking(e));
  }

  lemma TakeEntryFollow(e: RedisEntry, k: Bytes)
    ensures NeverBehind([Discharge(RedisValueBucket(e)), Add(SmallRedisMemory, -|k|)] + Unlinking(e))
  {
    hide NeverBehind, Unlinking, RedisValueBucket;
    var value, key := Discharge(RedisValueBucket(e)), Discharge((SmallRedisMemory, |k|));
    DischargeNeverBehind(RedisValueBucket(e));
    DischargeNeverBehind((SmallRedisMemory, |k|));
    NeverBehindJoin([value], [key]);
    assert [value] + [key] == [value, key];
    UnlinkingNeverBehind(e);
    NeverBehindJoin([value, key], Unlinking(e));
  }

  lemma ExecNeverBehind(s: Store, a: Micro)
    ensures NeverBehind(Exec(s, a).1)
  {
    hide NeverBehind, Unlinking, AheadOf;
    NothingBehind();
    match a {
      case PutBlob(d, _) => if d in s.blobs { DischargeNeverBehind(BlobBucket(s.blobs[d])); }
      case TakeBlob(d) => if d in s.blobs { DischargeNeverBehind(BlobBucket(s.blobs[d])); }
      case PutManifest(d, m) =>
        ManifestAddNeverBehind(|m.content| - if d in s.manifests then |s.manifests[d].content| else 0);
      case TakeManifest(d) => if d in s.manifests { ManifestAddNeverBehind(-|s.manifests[d].content|); }
      case NewEntry(k, v) => EntryAddsNeverBehind(k, RedisEntry.InMemory(s.nextId, v, s.now));
      case PutEntry(k, _) =>
        KeyNeverBehind(k);
        if k in s.redis { PutEntryFollow(s.redis[k]); }
      case TakeEntry(k) => if k in s.redis { TakeEntryFollow(s.redis[k], k); }
      case _ =>
    }
  }

  lemma {:induction false} ThreadsNeverBehind(sys: System, events: seq<Event>, t: nat)
    requires sys.threads == map[] && t in After(sys, events).threads
    ensures NeverBehind(After(sys, events).threads[t])
    decreases |events|
  {
    hide NeverBehind, Exec, Code;
    if events != [] {
      var before, ev := After(sys, events[..|events| - 1]), events[|events| - 1];
      if t in before.threads {
        ThreadsNeverBehind(sys, events[..|events| - 1], t);
      }
      if ev.thread == t {
        if ev.Call? {
          CodeNeverBehind(ev.op);
        } else if t in before.threads && before.threads[t] != [] {
          var todo := before.threads[t];
          ExecNeverBehind(before.s, todo[0]);
          assert NeverBehind(todo[1..]) by { TailNeverBehind(todo); }
          NeverBehindJoin(Exec(before.s, todo[0]).1, todo[1..]);
        }
      }
    }
  }

  lemma TailNeverBehind(todo: seq<Micro>)
    requires NeverBehind(todo) && todo != []
    ensures NeverBehind(todo[1..])
  {}

  lemma {:induction false} SumsCover<K>(a: map<K, Usage>, b: map<K, Usage>)
    requires a.Keys == b.Keys && forall k :: k in a ==> Covers(b[k], a[k])
    ensures Covers(Total(b), Total(a))
    decreases |a|
  {
    hide Usage.Plus, Covers, Total;
    if a == map[] {
      assert b == map[];
      TotalEmpty(a);
      TotalEmpty(b);
      NothingOwed();
    } else {
      var k :| k in a;
      TotalTake(a, k);
      TotalTake(b, k);
      SumsCover(a - {k}, b - {k});
      FourSums(a[k], Total(a - {k}), b[k], Total(b - {k}));
    }
  }

  lemma ShortAlgebra(counters: Usage, sums: Usage, flight: Usage, owed: Usage)
    requires counters == sums.Plus(flight) && Covers(owed, flight)
    ensures sums.AtMost(counters.Plus(owed))
  {}

  /** Under any interleaving no counter falls short of its sum by more than what the
      threads owe it: the lengths of new keys whose charge is pending, and the growth
      of manifests whose charge is pending. */
  lemma {:induction false} ShortByAtMostWhatIsOwed(sys: System, events: seq<Event>)
    requires sys.s.Exact() && sys.threads == map[]
    ensures var now := After(sys, events); now.s.Recomputed().AtMost(now.s.counters.Plus(AllOwed(now)))
  {
    hide Store.Recomputed, After, Ahead, Owed, Total, MapOf, Usage.Plus, Usage.AtMost, Covers;
    var now := After(sys, events);
    CountersAreSumsPlusInFlight(sys, events);
    forall t | t in now.threads ensures Covers(Owed(now.threads[t]), Ahead(now.threads[t])) {
      ThreadsNeverBehind(sys, events, t);
    }
    SumsCover(Aheads(now.threads), Oweds(now.threads));
    ShortAlgebra(now.s.counters, now.s.Recomputed(), InFlight(now), AllOwed(now));
  }

  /** Only the manifest bucket and the small redis bucket are ever owed anything. */
  predicate OwedOnlyTwo(u: Usage) {
    u == ZERO.(manifestMemory := u.manifestMemory, smallRedisMemory := u.smallRedisMemory)
  }

  lemma {:induction false} OwedIsOnlyTwo(todo: seq<Micro>)
    ensures OwedOnlyTwo(Owed(todo))
    decreases |todo|
  {
    if todo != [] {
      OwedIsOnlyTwo(todo[1..]);
    }
  }

  lemma AllOwedIsOnlyTwo(sys: System)
    ensures OwedOnlyTwo(AllOwed(sys))
  {
    hide MapOf, Owed;
    forall t | t in sys.threads ensures OwedOnlyTwo(Owed(sys.threads[t])) {
      OwedIsOnlyTwo(sys.threads[t]);
    }
    TotalKeeps(Oweds(sys.threads), u => OwedOnlyTwo(u));
  }

  lemma FiveAlgebra(counters: Usage, sums: Usage, owed: Usage)
    requires sums.AtMost(counters.Plus(owed)) && OwedOnlyTwo(owed)
    ensures sums.smallBlobMemory <= counters.smallBlobMemory && sums.largeBlobMemory <= counters.largeBlobMemory
    ensures sums.largeRedisMemory <= counters.largeRedisMemory
    ensures sums.blobDisk <= counters.blobDisk && sums.redisDisk <= counters.redisDisk
  {}

  /** Under any interleaving the three blob buckets, the large redis bucket and the
      redis disk bucket never count less than the maps hold. */
  lemma {:induction false} FiveBucketsNeverUnderCount(sys: System, events: seq<Event>)
    requires sys.s.Exact() && sys.threads == map[]
    ensures var now := After(sys, events).s;
      && now.Recomputed().smallBlobMemory <= now.counters.smallBlobMemory
      && now.Recomputed().largeBlobMemory <= now.counters.largeBlobMemory
      && now.Recomputed().largeRedisMemory <= now.counters.largeRedisMemory
      && now.Recomputed().blobDisk <= now.counters.blobDisk
      && now.Recomputed().redisDisk <= now.counters.redisDisk
  {
    hide Store.Recomputed, After, AllOwed, Usage.Plus, Usage.AtMost, OwedOnlyTwo;
    var now := After(sys, events);
    ShortByAtMostWhatIsOwed(sys, events);
    AllOwedIsOnlyTwo(now);
    FiveAlgebra(now.s.counters, now.s.Recomputed(), AllOwed(now));
  }

  /** A counter is short exactly when the in-flight deltas of its bucket are negative. */
  lemma {:induction false} ShortIffInFlightNegative(sys: System, events: seq<Event>)
    requires sys.s.Exact() && sys.threads == map[]
    ensures var now := After(sys, events);
      && (now.s.counters.smallRedisMemory < now.s.Recomputed().smallRedisMemory <==> InFlight(now).smallRedisMemory < 0)
      && (now.s.counters.manifestMemory < now.s.Recomputed().manifestMemory <==> InFlight(now).manifestMemory < 0)
  {
    hide Store.Recomputed, After, InFlight;
    CountersAreSumsPlusInFlight(sys, events);
  }

  // ---- A run in which a counter is short

  lemma Advanced(sys: System, t: nat, a: Micro, rest: seq<Micro>)
    requires t in sys.threads && sys.threads[t] == [a] + rest
    ensures var (s', follow) := Exec(sys.s, a);
      Next(sys, Advance(t)) == System(s', sys.threads[t := follow + rest])
  {
    assert ([a] + rest)[1..] == rest;
  }

  /** The run of one thread that inserts a new key, up to its last step. */
  function LateCharge(t: nat, k: Bytes, v: Bytes): seq<Event> {
    [Call(t, InsertRedis(k, v)), Advance(t), Advance(t), Advance(t)]
  }

  lemma AfterMore(sys: System, events: seq<Event>, ev: Event)
    ensures After(sys, events + [ev]) == Next(After(sys, events), ev)
  {
    hide Next;
    assert (events + [ev])[..|events|] == events;
  }

  lemma AfterFour(sys: System, a: Event, b: Event, c: Event, d: Event)
    ensures After(sys, [a, b, c, d]) == Next(Next(Next(Next(sys, a), b), c), d)
  {
    hide Next, After;
    AfterMore(sys, [a, b, c], d);
    AfterMore(sys, [a, b], c);
    AfterMore(sys, [a], b);
    AfterMore(sys, [], a);
    assert After(sys, []) == sys by { AfterNothing(sys); }
    assert [] + [a] == [a] && [a] + [b] == [a, b] && [a, b] + [c] == [a, b, c] && [a, b, c] + [d] == [a, b, c, d];
  }

  lemma AfterNothing(sys: System)
    ensures After(sys, []) == sys
  {}

  lemma LateChargeThreads(s: Store, t: nat, k: Bytes, v: Bytes)
    requires k !in s.redis
    ensures After(System(s, map[]), LateCharge(t, k, v)).threads == map[t := [ChargeKey(k)]]
  {
    hide Next, In, RedisValueBucket;
    var sys := System(s, map[]);
    AfterFour(sys, Call(t, InsertRedis(k, v)), Advance(t), Advance(t), Advance(t));
    var e := RedisEntry.InMemory(s.nextId, v, s.now);
    var charge := RedisValueBucket(e);
    var first := System(s, map[t := [NewEntry(k, v)]]);
    assert Next(sys, Call(t, InsertRedis(k, v))) == first by { CalledFirst(s, t, InsertRedis(k, v)); }
    assert [NewEntry(k, v)] + [] == [NewEntry(k, v)];
    Advanced(first, t, NewEntry(k, v), []);
    var second := Next(first, Advance(t));
    assert second.threads[t] == [Add(charge.0, charge.1)] + [PutEntry(k, e)];
    Advanced(second, t, Add(charge.0, charge.1), [PutEntry(k, e)]);
    var third := Next(second, Advance(t));
    assert third.threads[t] == [PutEntry(k, e)] + [];
    Advanced(third, t, PutEntry(k, e), []);
    assert third.s.redis == s.redis && third.threads.Keys == {t};
    assert [ChargeKey(k)] + [] == [ChargeKey(k)];
    assert Next(third, Advance(t)).threads == map[t := [ChargeKey(k)]];
  }

  lemma CalledFirst(s: Store, t: nat, op: Op)
    ensures Next(System(s, map[]), Call(t, op)) == System(s, map[t := Code(op)])
  {}

  /** In this run, of one thread and from exact counters, the small redis bucket ends
      short by exactly the length of the new key. */
  lemma {:induction false} NewKeyIsChargedLate(s: Store, t: nat, k: Bytes, v: Bytes)
    requires s.Exact() && k !in s.redis
    ensures var now := After(System(s, map[]), LateCharge(t, k, v)).s;
      now.counters == now.Recomputed().Minus(KeyCharge(k))
  {
    hide Store.Recomputed, After, KeyCharge, Ahead, MapOf, Total, Usage.Minus, Usage.Plus;
    var sys := System(s, map[]);
    var now := After(sys, LateCharge(t, k, v));
    LateChargeThreads(s, t, k, v);
    CountersAreSumsPlusInFlight(sys, LateCharge(t, k, v));
    AheadOne(ChargeKey(k));
    assert Aheads(now.threads) == map[t := ZERO.Minus(KeyCharge(k))];
    TotalOfOne(Aheads(now.threads), t, ZERO.Minus(KeyCharge(k)));
    MinusIsPlus(now.s.Recomputed(), KeyCharge(k));
  }
}
