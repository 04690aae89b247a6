/** The seven usage buckets as one vector, and order-independent sums of such
    vectors over a finite map. */
module UsageSums {
  import opened Prelude

  datatype Bucket =
    | ManifestMemory
    | SmallBlobMemory
    | LargeBlobMemory
    | SmallRedisMemory
    | LargeRedisMemory
    | BlobDisk
    | RedisDisk

  datatype Usage = Usage(
    manifestMemory: int,
    smallBlobMemory: int,
    largeBlobMemory: int,
    smallRedisMemory: int,
    largeRedisMemory: int,
    blobDisk: int,
    redisDisk: int)
  {
    function Plus(u: Usage): Usage {
      Usage(manifestMemory + u.manifestMemory,
            smallBlobMemory + u.smallBlobMemory,
            largeBlobMemory + u.largeBlobMemory,
            smallRedisMemory + u.smallRedisMemory,
            largeRedisMemory + u.largeRedisMemory,
            blobDisk + u.blobDisk,
            redisDisk + u.redisDisk)
    }

    function Minus(u: Usage): Usage {
      Usage(manifestMemory - u.manifestMemory,
            smallBlobMemory - u.smallBlobMemory,
            largeBlobMemory - u.largeBlobMemory,
            smallRedisMemory - u.smallRedisMemory,
            largeRedisMemory - u.largeRedisMemory,
            blobDisk - u.blobDisk,
            redisDisk - u.redisDisk)
    }

    /** Bucket-wise `saturating_sub`. */
    function Saturating(u: Usage): Usage {
      Usage(SaturatingSub(manifestMemory, u.manifestMemory),
            SaturatingSub(smallBlobMemory, u.smallBlobMemory),
            SaturatingSub(largeBlobMemory, u.largeBlobMemory),
            SaturatingSub(smallRedisMemory, u.smallRedisMemory),
            SaturatingSub(largeRedisMemory, u.largeRedisMemory),
            SaturatingSub(blobDisk, u.blobDisk),
            SaturatingSub(redisDisk, u.redisDisk))
    }

    predicate AtMost(u: Usage) {
      && manifestMemory <= u.manifestMemory
      && smallBlobMemory <= u.smallBlobMemory
      && largeBlobMemory <= u.largeBlobMemory
      && smallRedisMemory <= u.smallRedisMemory
      && largeRedisMemory <= u.largeRedisMemory
      && blobDisk <= u.blobDisk
      && redisDisk <= u.redisDisk
    }

    /** `State::small_memory_usage`. */
    function Small(): int {
      manifestMemory + smallBlobMemory + smallRedisMemory
    }

    /** `State::total_memory_usage`. */
    function TotalMemory(): int {
      largeBlobMemory + largeRedisMemory + Small()
    }

    /** `State::total_disk_usage`. */
    function TotalDisk(): int {
      blobDisk + redisDisk
    }
  }

  const ZERO: Usage := Usage(0, 0, 0, 0, 0, 0, 0)

  /** `n` bytes in one bucket and nothing in the others. */
  function In(b: Bucket, n: int): Usage {
    match b
    case ManifestMemory => ZERO.(manifestMemory := n)
    case SmallBlobMemory => ZERO.(smallBlobMemory := n)
    case LargeBlobMemory => ZERO.(largeBlobMemory := n)
    case SmallRedisMemory => ZERO.(smallRedisMemory := n)
    case LargeRedisMemory => ZERO.(largeRedisMemory := n)
    case BlobDisk => ZERO.(blobDisk := n)
    case RedisDisk => ZERO.(redisDisk := n)
  }

  /** The sum of a finite family of vectors, taken in some order. */
  ghost function Total<K>(m: map<K, Usage>): Usage {
    if m == map[] then
      ZERO
    else
      var k :| k in m;
      m[k].Plus(Total(m - {k}))
  }

  /** Bucket by bucket, `u` is the sum of `a`, `b` and `c`. */
  predicate AddsUp(u: Usage, a: Usage, b: Usage, c: Usage) {
    && u.manifestMemory == a.manifestMemory + b.manifestMemory + c.manifestMemory
    && u.smallBlobMemory == a.smallBlobMemory + b.smallBlobMemory + c.smallBlobMemory
    && u.largeBlobMemory == a.largeBlobMemory + b.largeBlobMemory + c.largeBlobMemory
    && u.smallRedisMemory == a.smallRedisMemory + b.smallRedisMemory + c.smallRedisMemory
    && u.largeRedisMemory == a.largeRedisMemory + b.largeRedisMemory + c.largeRedisMemory
    && u.blobDisk == a.blobDisk + b.blobDisk + c.blobDisk
    && u.redisDisk == a.redisDisk + b.redisDisk + c.redisDisk
  }

  lemma AddsUpIsSum()
    ensures forall u, a, b, c :: AddsUp(u, a, b, c) ==> u == a.Plus(b).Plus(c)
  {}

  lemma PlusRotate(u: Usage, v: Usage, w: Usage)
    ensures u.Plus(v.Plus(w)) == v.Plus(u.Plus(w)) == u.Plus(v).Plus(w)
  {}

  /** Taking `out` away from one of three summands takes it away from the sum. */
  lemma TakeFromSum(a: Usage, t: Usage, c: Usage, out: Usage, into: Usage)
    ensures a.Plus(t.Minus(out)).Plus(c) == a.Plus(t).Plus(c).Minus(out)
    ensures t.Minus(out).Plus(a).Plus(c) == t.Plus(a).Plus(c).Minus(out)
    ensures a.Plus(c).Plus(t.Minus(out)) == a.Plus(c).Plus(t).Minus(out)
    ensures a.Plus(t.Minus(out).Plus(into)).Plus(c) == a.Plus(t).Plus(c).Minus(out).Plus(into)
    ensures a.Plus(c).Plus(t.Minus(out).Plus(into)) == a.Plus(c).Plus(t).Minus(out).Plus(into)
  {}

  /** Replacing `out` by `in` in one of three summands and in the counter alike. */
  lemma ReplaceInSum(counter: Usage, a: Usage, t: Usage, c: Usage, out: Usage, into: Usage)
    ensures counter.Plus(into).Minus(out).Minus(a.Plus(t.Minus(out).Plus(into)).Plus(c)) ==
      counter.Minus(a.Plus(t).Plus(c))
    ensures counter.Plus(into).Minus(out).Minus(t.Minus(out).Plus(into).Plus(a).Plus(c)) ==
      counter.Minus(t.Plus(a).Plus(c))
    ensures counter.Plus(into).Minus(out).Minus(a.Plus(c).Plus(t.Minus(out).Plus(into))) ==
      counter.Minus(a.Plus(c).Plus(t))
  {}

  /** Taking `out` from one of three summands and from the counter alike. */
  lemma TakeFromBoth(counter: Usage, a: Usage, t: Usage, c: Usage, out: Usage)
    ensures counter.Minus(out).Minus(a.Plus(t.Minus(out)).Plus(c)) == counter.Minus(a.Plus(t).Plus(c))
    ensures counter.Minus(out).Minus(t.Minus(out).Plus(a).Plus(c)) == counter.Minus(t.Plus(a).Plus(c))
    ensures counter.Minus(out).Minus(a.Plus(c).Plus(t.Minus(out))) == counter.Minus(a.Plus(c).Plus(t))
  {}

  /** The order does not matter: any key can be taken out first. */
  lemma {:induction false} TotalTake<K>(m: map<K, Usage>, k: K)
    requires k in m
    ensures Total(m) == m[k].Plus(Total(m - {k}))
    decreases |m|
  {
    var j :| j in m && Total(m) == m[j].Plus(Total(m - {j}));
    if j != k {
      TotalTake(m - {j}, k);
      TotalTake(m - {k}, j);
      assert m - {j} - {k} == m - {k} - {j};
      PlusRotate(m[j], m[k], Total(m - {j} - {k}));
    }
  }

  /** Storing a charge under a key replaces the charge that was there. */
  lemma TotalPut<K>(m: map<K, Usage>, k: K, u: Usage)
    ensures Total(m[k := u]) == Total(m).Minus(if k in m then m[k] else ZERO).Plus(u)
  {
    TotalTake(m[k := u], k);
    assert m[k := u] - {k} == m - {k};
    if k in m {
      TotalTake(m, k);
    } else {
      assert m - {k} == m;
    }
  }

  lemma TotalDrop<K>(m: map<K, Usage>, k: K)
    ensures Total(m - {k}) == Total(m).Minus(if k in m then m[k] else ZERO)
  {
    if k in m {
      TotalTake(m, k);
    } else {
      assert m - {k} == m;
    }
  }

  lemma TotalEmpty<K>(m: map<K, Usage>)
    requires m == map[]
    ensures Total(m) == ZERO
  {}

  function Restrict<K, V>(m: map<K, V>, ks: set<K>): map<K, V> {
    m - (m.Keys - ks)
  }

  lemma RestrictWithout<K, V>(m: map<K, V>, ks: set<K>, k: K)
    requires k in m && k in ks
    ensures Restrict(m, ks) - {k} == Restrict(m - {k}, ks)
    ensures m - ks == (m - {k}) - ks
  {}

  lemma RestrictNothing<K, V>(m: map<K, V>, ks: set<K>)
    requires Restrict(m, ks) == map[]
    ensures m - ks == m
  {
    assert forall k :: k in m && k in ks ==> k in Restrict(m, ks);
  }

  lemma ZeroPlus(u: Usage)
    ensures ZERO.Plus(u) == u
  {}

  lemma PlusZero(u: Usage)
    ensures u.Plus(ZERO) == u == u.Minus(ZERO)
  {}

  lemma RestrictKeys<K, V>(m: map<K, V>, ks: set<K>, k: K)
    ensures k in Restrict(m, ks) <==> k in m && k in ks
    ensures k in Restrict(m, ks) ==> Restrict(m, ks)[k] == m[k]
  {}

  /** A family splits into the part under `ks` and the rest. */
  lemma {:induction false} TotalSplit<K>(m: map<K, Usage>, ks: set<K>)
    ensures Total(m) == Total(Restrict(m, ks)).Plus(Total(m - ks))
    decreases |m|
  {
    hide Total, Restrict, Usage.Plus;
    var r := Restrict(m, ks);
    if r == map[] {
      TotalEmpty(r);
      RestrictNothing(m, ks);
      ZeroPlus(Total(m));
    } else {
      var k :| k in r;
      var m' := m - {k};
      RestrictKeys(m, ks, k);
      RestrictWithout(m, ks, k);
      TotalTake(m, k);
      TotalTake(r, k);
      TotalSplit(m', ks);
      PlusRotate(m[k], Total(Restrict(m', ks)), Total(m' - ks));
    }
  }

  /** A property of vectors that addition keeps passes from the charges to their sum. */
  lemma {:induction false} TotalKeeps<K>(m: map<K, Usage>, p: Usage -> bool)
    requires p(ZERO) && forall u, v :: p(u) && p(v) ==> p(u.Plus(v))
    requires forall k :: k in m ==> p(m[k])
    ensures p(Total(m))
    decreases |m|
  {
    if m != map[] {
      var k :| k in m;
      TotalTake(m, k);
      TotalKeeps(m - {k}, p);
    }
  }

  lemma NoPartBelowZero(u: Usage, v: Usage)
    requires ZERO.AtMost(u) && ZERO.AtMost(v)
    ensures ZERO.AtMost(u.Plus(v)) && (u.Plus(v) == ZERO <==> u == ZERO && v == ZERO)
  {}

  /** Charges that are never negative add up to nothing only if each is nothing. */
  lemma {:induction false} TotalZeroIff<K>(m: map<K, Usage>)
    requires forall k :: k in m ==> ZERO.AtMost(m[k])
    ensures ZERO.AtMost(Total(m))
    ensures Total(m) == ZERO <==> forall k :: k in m ==> m[k] == ZERO
    decreases |m|
  {
    hide Usage.Plus, Usage.AtMost;
    if m == map[] {
      assert ZERO.AtMost(ZERO) by { ZeroAtMostZero(); }
      TotalEmpty(m);
    } else {
      var k :| k in m;
      TotalTake(m, k);
      TotalZeroIff(m - {k});
      NoPartBelowZero(m[k], Total(m - {k}));
      assert forall j :: j in m <==> j == k || j in m - {k};
    }
  }

  lemma ZeroAtMostZero()
    ensures ZERO.AtMost(ZERO)
  {}

  lemma {:induction false} TotalOfOne<K>(m: map<K, Usage>, k: K, u: Usage)
    requires m == map[k := u]
    ensures Total(m) == u
  {
    TotalTake(m, k);
    assert m - {k} == map[];
    TotalEmpty(m - {k});
  }

  lemma MinusTwice(c: Usage, u: Usage, v: Usage)
    ensures c.Minus(u).Minus(v) == c.Minus(u.Plus(v)) == c.Minus(v.Plus(u))
  {}

  lemma {:induction false} TotalOfTwo<K>(m: map<K, Usage>, k: K, u: Usage, l: K, v: Usage)
    requires k != l && m == map[k := u, l := v]
    ensures Total(m) == u.Plus(v)
  {
    hide Usage.Plus;
    TotalTake(m, k);
    assert m - {k} == map[l := v];
    TotalOfOne(m - {k}, l, v);
  }

  lemma SumsAtMost(u: Usage, v: Usage, u': Usage, v': Usage)
    requires u.AtMost(u') && v.AtMost(v')
    ensures u.Plus(v).AtMost(u'.Plus(v'))
  {}

  lemma {:induction false} TotalAtMost<K>(m: map<K, Usage>, m': map<K, Usage>)
    requires m'.Keys == m.Keys && forall k :: k in m ==> m[k].AtMost(m'[k])
    ensures Total(m).AtMost(Total(m'))
    decreases |m|
  {
    hide Usage.Plus, Usage.AtMost, Total;
    if m == map[] {
      assert m' == map[];
      TotalEmpty(m);
      TotalEmpty(m');
      ZeroAtMostZero();
    } else {
      var k :| k in m;
      TotalTake(m, k);
      TotalTake(m', k);
      TotalAtMost(m - {k}, m' - {k});
      SumsAtMost(m[k], Total(m - {k}), m'[k], Total(m' - {k}));
    }
  }
}
