/** One eviction pass (src/eviction.rs:106-539) as a state machine. A machine
    state holds the store and the pass's local variables; an event pops one
    candidate from one heap. `Step` says what a pop does, in closed form over
    the whole list of digests a manifest refers to. */
module EvictionMachine {
  import opened Prelude
  import opened DigestText
  import opened UsageSums
  import opened References
  import opened Cache

  /** Blobs younger than this are not deleted. */
  const BLOB_GRACE_SECONDS: nat := 5 * 3600

  datatype Candidate =
    | ManifestCandidate(lastAccessed: nat, digest: Digest)
    | RedisCandidate(lastAccessed: nat, key: Bytes, size: nat)

  datatype BlobTier = SmallMem | LargeMem | Disk

  /** Per-blob bookkeeping for a single pass. */
  datatype BlobBk = BlobBk(tier: BlobTier, refs: nat, unevictedRefs: nat, lastAccessed: nat)

  datatype Machine = Machine(
    s: Store,
    acc: Usage,
    bk: map<Digest, BlobBk>,
    small: multiset<Candidate>,
    large: multiset<Candidate>,
    disk: multiset<Candidate>)

  datatype Event =
    | PopSmall(c: Candidate)
    | PopLarge(c: Candidate)
    | PopDisk(c: Candidate)

  function TierOf(b: Blob): BlobTier {
    match b
    case InMemory(_, content, _, _) => if |content| > MEMORY_TIER_THRESHOLD then LargeMem else SmallMem
    case OnDisk(_, _, _, _) => Disk
  }

  /** The age test of the cascade (src/eviction.rs:458). */
  predicate CascadeExpired(now: nat, lastAccessed: nat) {
    lastAccessed <= SaturatingSub(now, BLOB_GRACE_SECONDS)
  }

  /** The age test of the final sweep (src/eviction.rs:486). */
  predicate SweepExpired(now: nat, lastAccessed: nat) {
    SaturatingSub(now, lastAccessed) >= BLOB_GRACE_SECONDS
  }

  // ---- Operations on the store

  /** A blob after its bytes went to its file. */
  function ToDisk(b: Blob): Blob {
    match b
    case InMemory(id, content, mediaType, lastAccessed) => Blob.OnDisk(id, |content|, mediaType, lastAccessed)
    case OnDisk(_, _, _, _) => b
  }

  predicate IsLargeInMemory(b: Blob) {
    b.InMemory? && |b.content| > MEMORY_TIER_THRESHOLD
  }

  predicate AllLargeInMemory(s: Store, w: set<Digest>) {
    forall d :: d in w ==> d in s.blobs && IsLargeInMemory(s.blobs[d])
  }

  /** The files that hold the blobs `w` once they are spilled. */
  ghost function SpillFiles(s: Store, w: set<Digest>): (files: map<nat, Bytes>)
    requires s.DistinctIds() && AllLargeInMemory(s, w)
    ensures forall d :: d in w ==> s.blobs[d].id in files && files[s.blobs[d].id] == s.blobs[d].content
    ensures forall id :: id in files ==> exists d :: d in w && s.blobs[d].id == id
  {
    if w == {} then
      map[]
    else
      var d :| d in w;
      SpillFiles(s, w - {d})[s.blobs[d].id := s.blobs[d].content]
  }

  ghost function BlobTotal(s: Store, w: set<Digest>): Usage {
    Total(BlobCharges(Restrict(s.blobs, w)))
  }

  ghost function SpillIn(bs: map<Digest, Blob>, w: set<Digest>): (r: map<Digest, Blob>)
    ensures r.Keys == bs.Keys && forall d :: d in bs ==> r[d] == if d in w then ToDisk(bs[d]) else bs[d]
  {
    MapOf(bs.Keys, d requires d in bs => if d in w then ToDisk(bs[d]) else bs[d])
  }

  function MoveCounters(c: Usage, n: int): Usage {
    c.(largeBlobMemory := c.largeBlobMemory - n, blobDisk := c.blobDisk + n)
  }

  /** Move the large in-memory blobs `w` to disk. */
  ghost function SpillBlobs(s: Store, w: set<Digest>): Store
    requires s.DistinctIds() && AllLargeInMemory(s, w)
  {
    var n := BlobTotal(s, w).largeBlobMemory;
    s.(blobs := SpillIn(s.blobs, w),
       disk := s.disk + SpillFiles(s, w),
       counters := MoveCounters(s.counters, n))
  }

  /** The ids of the on-disk blobs among `w`. */
  function DeletedIds(s: Store, w: set<Digest>): set<nat> {
    set d | d in w && d in s.blobs && s.blobs[d].OnDisk? :: s.blobs[d].id
  }

  /** Remove the blobs `w` and the files of those that were on disk. */
  ghost function DeleteBlobs(s: Store, w: set<Digest>): Store {
    s.(blobs := s.blobs - w,
       disk := s.disk - DeletedIds(s, w),
       counters := s.counters.Minus(BlobTotal(s, w)))
  }

  /** Remove a manifest and every tag that points at it. */
  function UntagManifest(s: Store, d: Digest): Store {
    var s' := s.RemoveManifest(d);
    s'.(tags := s.tags - set t | t in s.tags && s.tags[t] == d)
  }

  function FlagManifest(s: Store, d: Digest): Store
    requires d in s.manifests
  {
    s.(manifests := s.manifests[d := s.manifests[d].(evicted := true)])
  }

  /** Move an in-memory redis value to disk. The entry is put in the map
      directly, so the store's own counters do not see the move. */
  function SpillRedis(s: Store, k: Bytes, size: nat, lastAccessed: nat): Store
    requires k in s.redis && s.redis[k].InMemory?
  {
    var e := s.redis[k];
    s.WriteFile(e.id, e.value).(redis := s.redis[k := RedisEntry.OnDisk(e.id, size, lastAccessed)])
  }

  // ---- Reference bookkeeping

  /** One `saturating_sub(1)` on `unevicted_refs` per occurrence in `refs`. */
  ghost function DropUnevicted(bk: map<Digest, BlobBk>, refs: seq<Digest>): (bk': map<Digest, BlobBk>)
    ensures bk'.Keys == bk.Keys
    ensures forall r :: r in bk ==>
      bk'[r] == bk[r].(unevictedRefs := SaturatingSub(bk[r].unevictedRefs, multiset(refs)[r]))
  {
    MapOf(bk.Keys, r requires r in bk =>
      bk[r].(unevictedRefs := SaturatingSub(bk[r].unevictedRefs, multiset(refs)[r])))
  }

  /** One `saturating_sub(1)` on `refs` per occurrence in `refs`. */
  ghost function DropRefs(bk: map<Digest, BlobBk>, refs: seq<Digest>): (bk': map<Digest, BlobBk>)
    ensures bk'.Keys == bk.Keys
    ensures forall r :: r in bk ==> bk'[r] == bk[r].(refs := SaturatingSub(bk[r].refs, multiset(refs)[r]))
  {
    MapOf(bk.Keys, r requires r in bk => bk[r].(refs := SaturatingSub(bk[r].refs, multiset(refs)[r])))
  }

  /** The bookkeeping after a manifest is flagged: unless it already was, its
      occurrences no longer count as un-evicted. */
  ghost function SpilledBk(bk: map<Digest, BlobBk>, evicted: bool, refs: seq<Digest>): map<Digest, BlobBk> {
    if evicted then bk else DropUnevicted(bk, refs)
  }

  /** The bookkeeping after a manifest is dropped. */
  ghost function DroppedBk(bk: map<Digest, BlobBk>, evicted: bool, refs: seq<Digest>): map<Digest, BlobBk> {
    DropRefs(SpilledBk(bk, evicted, refs), refs)
  }

  /** What a spilled manifest sends to disk: its large in-memory blobs that no
      count of an un-evicted manifest holds. */
  function ToSpill(s: Store, bk: map<Digest, BlobBk>, refs: seq<Digest>): set<Digest> {
    set r | r in refs && r in bk && r in s.blobs &&
      bk[r].unevictedRefs == 0 && bk[r].tier == LargeMem && s.blobs[r].InMemory?
  }

  /** What a dropped manifest takes with it. */
  function ToDelete(s: Store, bk: map<Digest, BlobBk>, refs: seq<Digest>): set<Digest> {
    set r | r in refs && r in bk && r in s.blobs &&
      bk[r].refs == 0 && CascadeExpired(s.now, bk[r].lastAccessed)
  }

  // ---- What a pop does

  ghost function DropManifest(lib: Library, m: Machine, d: Digest): Machine {
    if d !in m.s.manifests then
      m
    else
      var man := m.s.manifests[d];
      var refs := ReferencedDigests(lib, man.content);
      var bk := DroppedBk(m.bk, man.evicted, refs);
      var w := ToDelete(m.s, bk, refs);
      m.(s := DeleteBlobs(UntagManifest(m.s, d), w),
         bk := bk,
         acc := m.acc.Saturating(ManifestCharge(man)).Saturating(BlobTotal(m.s, w)))
  }

  /** Only the value is taken off the accumulator: the key's bytes stay on it. */
  function DropRedis(m: Machine, k: Bytes, value: Usage): Machine {
    if k in m.s.redis then
      m.(s := m.s.RemoveRedis(k), acc := m.acc.Saturating(value))
    else
      m
  }

  function Moved(acc: Usage, n: int): Usage {
    acc.(largeBlobMemory := SaturatingSub(acc.largeBlobMemory, n), blobDisk := acc.blobDisk + n)
  }

  predicate LargeTierMatches(m: Machine) {
    forall r :: r in m.bk && m.bk[r].tier == LargeMem && r in m.s.blobs && m.s.blobs[r].InMemory? ==>
      IsLargeInMemory(m.s.blobs[r])
  }

  lemma ToSpillIsLarge(m: Machine, evicted: bool, refs: seq<Digest>)
    requires LargeTierMatches(m)
    ensures AllLargeInMemory(m.s, ToSpill(m.s, SpilledBk(m.bk, evicted, refs), refs))
  {
    hide IsLargeInMemory;
  }

  ghost function SpillManifest(lib: Library, m: Machine, c: Candidate): Machine
    requires c.ManifestCandidate? && m.s.DistinctIds() && LargeTierMatches(m)
  {
    var d := c.digest;
    if d !in m.s.manifests then
      m
    else
      var man := m.s.manifests[d];
      var refs := ReferencedDigests(lib, man.content);
      var bk := SpilledBk(m.bk, man.evicted, refs);
      var w := ToSpill(m.s, bk, refs);
      var s1 := FlagManifest(m.s, d);
      m.(s := SpillBlobs(s1, w),
         bk := bk,
         acc := Moved(m.acc, BlobTotal(s1, w).largeBlobMemory),
         disk := m.disk + multiset{c})
  }

  function SpillRedisCandidate(m: Machine, c: Candidate): Machine
    requires c.RedisCandidate?
  {
    if c.key in m.s.redis && m.s.redis[c.key].InMemory? then
      m.(s := SpillRedis(m.s, c.key, c.size, c.lastAccessed),
         acc := m.acc.(largeRedisMemory := SaturatingSub(m.acc.largeRedisMemory, c.size),
                       redisDisk := m.acc.redisDisk + c.size),
         disk := m.disk + multiset{c})
    else
      m
  }

  ghost function Step(lib: Library, m: Machine, ev: Event): Machine
    requires m.s.DistinctIds() && LargeTierMatches(m)
  {
    match ev
    case PopSmall(c) =>
      var m1 := m.(small := m.small - multiset{c});
      (match c
       case ManifestCandidate(_, d) => DropManifest(lib, m1, d)
       case RedisCandidate(_, k, size) => DropRedis(m1, k, In(SmallRedisMemory, size)))
    case PopLarge(c) =>
      var m1 := m.(large := m.large - multiset{c});
      (match c
       case ManifestCandidate(_, _) => SpillManifest(lib, m1, c)
       case RedisCandidate(_, _, _) => SpillRedisCandidate(m1, c))
    case PopDisk(c) =>
      var m1 := m.(disk := m.disk - multiset{c});
      (match c
       case ManifestCandidate(_, d) => DropManifest(lib, m1, d)
       case RedisCandidate(_, k, size) => DropRedis(m1, k, In(RedisDisk, size)))
  }

  // ---- When a pop happens

  /** `c` is a candidate the heap may pop: none in it is older. */
  predicate Oldest(heap: multiset<Candidate>, c: Candidate) {
    c in heap && forall x :: x in heap ==> c.lastAccessed <= x.lastAccessed
  }

  predicate PicksSmall(cfg: Config, m: Machine) {
    cfg.OverSmall(m.acc) && m.small != multiset{}
  }

  predicate PicksLarge(cfg: Config, m: Machine) {
    !PicksSmall(cfg, m) && cfg.OverMemory(m.acc) && m.large != multiset{}
  }

  predicate PicksDisk(cfg: Config, m: Machine) {
    !PicksSmall(cfg, m) && !PicksLarge(cfg, m) && cfg.OverDisk(m.acc) && m.disk != multiset{}
  }

  predicate Enabled(cfg: Config, m: Machine, ev: Event) {
    match ev
    case PopSmall(c) => PicksSmall(cfg, m) && Oldest(m.small, c)
    case PopLarge(c) => PicksLarge(cfg, m) && Oldest(m.large, c)
    case PopDisk(c) => PicksDisk(cfg, m) && Oldest(m.disk, c)
  }

  /** The loop's `break`. */
  predicate Done(cfg: Config, m: Machine) {
    !PicksSmall(cfg, m) && !PicksLarge(cfg, m) && !PicksDisk(cfg, m)
  }

  // ---- Where a pass starts

  ghost predicate RefersToTier(lib: Library, s: Store, d: Digest, tier: BlobTier)
    requires d in s.manifests
  {
    exists r :: r in ReferencedDigests(lib, s.manifests[d].content) && r in s.blobs && TierOf(s.blobs[r]) == tier
  }

  function CandidateOf(s: Store, d: Digest): Candidate
    requires d in s.manifests
  {
    ManifestCandidate(s.manifests[d].lastUsed, d)
  }

  function RedisCandidateOf(s: Store, k: Bytes): Candidate
    requires k in s.redis
  {
    RedisCandidate(s.redis[k].lastAccessed, k, RedisValueBucket(s.redis[k]).1)
  }

  ghost function SmallCandidates(s: Store): set<Candidate> {
    (set d | d in s.manifests :: CandidateOf(s, d)) +
    (set k | k in s.redis && RedisValueBucket(s.redis[k]).0 == SmallRedisMemory :: RedisCandidateOf(s, k))
  }

  ghost function LargeCandidates(lib: Library, s: Store): set<Candidate> {
    (set d | d in s.manifests && RefersToTier(lib, s, d, LargeMem) :: CandidateOf(s, d)) +
    (set k | k in s.redis && RedisValueBucket(s.redis[k]).0 == LargeRedisMemory :: RedisCandidateOf(s, k))
  }

  ghost function DiskCandidates(lib: Library, s: Store): set<Candidate> {
    (set d | d in s.manifests && RefersToTier(lib, s, d, Disk) :: CandidateOf(s, d)) +
    (set k | k in s.redis && RedisValueBucket(s.redis[k]).0 == RedisDisk :: RedisCandidateOf(s, k))
  }

  ghost function RefLists(lib: Library, ms: map<Digest, Manifest>): (r: map<Digest, seq<Digest>>)
    ensures r.Keys == ms.Keys && forall d :: d in ms ==> r[d] == ReferencedDigests(lib, ms[d].content)
  {
    MapOf(ms.Keys, d requires d in ms => ReferencedDigests(lib, ms[d].content))
  }

  function Unevicted(ms: map<Digest, Manifest>): map<Digest, Manifest> {
    ms - set d | d in ms && ms[d].evicted
  }

  /** How often surviving manifests refer to `r`, counting repetitions. */
  ghost function RefCount(lib: Library, ms: map<Digest, Manifest>, r: Digest): nat {
    AllRefs(RefLists(lib, ms))[r]
  }

  ghost function InitialBlobBk(lib: Library, s: Store, r: Digest): BlobBk
    requires r in s.blobs
  {
    BlobBk(TierOf(s.blobs[r]), RefCount(lib, s.manifests, r), RefCount(lib, Unevicted(s.manifests), r),
           s.blobs[r].lastAccessed)
  }

  ghost function InitialBk(lib: Library, s: Store): (bk: map<Digest, BlobBk>)
    ensures bk.Keys == s.blobs.Keys && forall r :: r in s.blobs ==> bk[r] == InitialBlobBk(lib, s, r)
  {
    MapOf(s.blobs.Keys, r requires r in s.blobs => InitialBlobBk(lib, s, r))
  }

  ghost function Initial(lib: Library, s: Store): Machine {
    Machine(s, s.Recomputed(), InitialBk(lib, s),
            multiset(SmallCandidates(s)), multiset(LargeCandidates(lib, s)), multiset(DiskCandidates(lib, s)))
  }

  // ---- Termination

  function Measure(m: Machine): nat {
    |m.small| + 2 * |m.large| + |m.disk|
  }

  ghost predicate SameHeaps(m: Machine, m': Machine) {
    m'.small == m.small && m'.large == m.large && m'.disk == m.disk
  }

  lemma DropManifestHeaps(lib: Library, m: Machine, d: Digest)
    ensures SameHeaps(m, DropManifest(lib, m, d))
  {}

  lemma DropRedisHeaps(m: Machine, k: Bytes, u: Usage)
    ensures SameHeaps(m, DropRedis(m, k, u))
  {}

  lemma SpillManifestHeaps(lib: Library, m: Machine, c: Candidate)
    requires c.ManifestCandidate? && m.s.DistinctIds() && LargeTierMatches(m)
    ensures var m' := SpillManifest(lib, m, c);
      m'.small == m.small && m'.large == m.large && (m'.disk == m.disk || m'.disk == m.disk + multiset{c})
  {}

  lemma SpillRedisHeaps(m: Machine, c: Candidate)
    requires c.RedisCandidate?
    ensures var m' := SpillRedisCandidate(m, c);
      m'.small == m.small && m'.large == m.large && (m'.disk == m.disk || m'.disk == m.disk + multiset{c})
  {}

  /** Which heaps a pop changes: its own, and the disk heap when a candidate of
      the large heap goes to disk. */
  lemma StepHeaps(lib: Library, m: Machine, ev: Event)
    requires m.s.DistinctIds() && LargeTierMatches(m)
    ensures Step(lib, m, ev).small == if ev.PopSmall? then m.small - multiset{ev.c} else m.small
    ensures Step(lib, m, ev).large == if ev.PopLarge? then m.large - multiset{ev.c} else m.large
    ensures ev.PopSmall? ==> Step(lib, m, ev).disk == m.disk
    ensures ev.PopDisk? ==> Step(lib, m, ev).disk == m.disk - multiset{ev.c}
    ensures ev.PopLarge? ==> Step(lib, m, ev).disk == m.disk || Step(lib, m, ev).disk == m.disk + multiset{ev.c}
  {
    hide DropManifest, DropRedis, SpillManifest, SpillRedisCandidate, In;
    match ev {
      case PopSmall(c) =>
        var m1 := m.(small := m.small - multiset{c});
        match c {
          case ManifestCandidate(_, d) => DropManifestHeaps(lib, m1, d);
          case RedisCandidate(_, k, size) => DropRedisHeaps(m1, k, In(SmallRedisMemory, size));
        }
      case PopLarge(c) =>
        var m1 := m.(large := m.large - multiset{c});
        match c {
          case ManifestCandidate(_, _) => SpillManifestHeaps(lib, m1, c);
          case RedisCandidate(_, _, _) => SpillRedisHeaps(m1, c);
        }
      case PopDisk(c) =>
        var m1 := m.(disk := m.disk - multiset{c});
        match c {
          case ManifestCandidate(_, d) => DropManifestHeaps(lib, m1, d);
          case RedisCandidate(_, k, size) => DropRedisHeaps(m1, k, In(RedisDisk, size));
        }
    }
  }

  /** Every pop makes progress, stale ones included: a pop from the large heap
      may put its candidate on the disk heap, but nothing else is ever pushed. */
  lemma {:induction false} StepDecreasesMeasure(lib: Library, cfg: Config, m: Machine, ev: Event)
    requires m.s.DistinctIds() && LargeTierMatches(m) && Enabled(cfg, m, ev)
    ensures Measure(Step(lib, m, ev)) < Measure(m)
  {
    StepHeaps(lib, m, ev);
    hide Step;
  }

  // ---- The end of a pass

  /** What the final sweep removes. */
  function ToSweep(m: Machine): set<Digest> {
    set r | r in m.bk && r in m.s.blobs && m.bk[r].refs == 0 && SweepExpired(m.s.now, m.bk[r].lastAccessed)
  }

  /** Sweep, then store the accumulators over six of the seven counters. */
  ghost function Finish(m: Machine): Store {
    var s := DeleteBlobs(m.s, ToSweep(m));
    s.(counters := m.acc.(manifestMemory := s.counters.manifestMemory))
  }

  /** The states a pass goes through. */
  ghost predicate IsTrace(lib: Library, cfg: Config, s0: Store, events: seq<Event>, states: seq<Machine>) {
    && |states| == |events| + 1
    && states[0] == Initial(lib, s0)
    && (forall i :: 0 <= i < |events| ==> TraceStep(lib, cfg, states[i], events[i], states[i + 1]))
  }

  ghost predicate TraceStep(lib: Library, cfg: Config, m: Machine, ev: Event, m': Machine) {
    m.s.DistinctIds() && LargeTierMatches(m) && Enabled(cfg, m, ev) && m' == Step(lib, m, ev)
  }

  /** `s1` is what one pass over `s0` can leave behind. */
  ghost predicate IsPass(lib: Library, cfg: Config, s0: Store, events: seq<Event>, states: seq<Machine>, s1: Store) {
    && IsTrace(lib, cfg, s0, events, states)
    && Done(cfg, states[|events|])
    && s1 == Finish(states[|events|])
  }
}
