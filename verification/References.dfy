/** Manifest bodies: the JSON walk of `referenced_digests` (src/eviction.rs:22-53)
    and the multiset of digests a set of manifests refers to. */
module References {
  import opened Prelude
  import opened DigestText

  /** One member of a JSON object. `Object` lists its members in the order in which
      the JSON library's object type iterates them, which need not be the order of
      the document. `MembersInAnyOrder`: how often a digest is found does not depend
      on that order. */
  datatype Field = Field(name: Text, value: Json)

  datatype Json =
    | Null
    | Bool(flag: bool)
    | Number(literal: Text)
    | String(text: Text)
    | Array(items: seq<Json>)
    | Object(fields: seq<Field>)

  /** The two library functions the cache calls and this model leaves open:
      SHA-256 and the JSON parser. Every theorem holds for any choice of them. */
  datatype Library = Library(sha256: Bytes -> Digest, json: Bytes -> Option<Json>)

  const DIGEST_KEY: Text := Ascii("digest")

  /** What a field contributes itself, before its value is walked. */
  function FieldDigest(f: Field): seq<Digest> {
    if f.name == DIGEST_KEY && f.value.String? && Parse(f.value.text).Some? then
      [Parse(f.value.text).value]
    else
      []
  }

  /** Every digest below `v`, in the order of the walk, with repetitions: members as
      they are iterated, a member's own digest before those below its value. */
  function Walked(v: Json): seq<Digest>
    decreases v, 1
  {
    match v
    case Object(fields) => WalkedFields(fields)
    case Array(items) => WalkedItems(items)
    case _ => []
  }

  function WalkedItems(items: seq<Json>): seq<Digest>
    decreases items, 0
  {
    if items == [] then [] else WalkedItems(items[..|items| - 1]) + Walked(items[|items| - 1])
  }

  function WalkedFields(fields: seq<Field>): seq<Digest>
    decreases fields, 0
  {
    if fields == [] then
      []
    else
      var f := fields[|fields| - 1];
      WalkedFields(fields[..|fields| - 1]) + FieldDigest(f) + Walked(f.value)
  }

  function ReferencedDigests(lib: Library, content: Bytes): seq<Digest> {
    match lib.json(content)
    case None => []
    case Some(v) => Walked(v)
  }

  /** `walk`: push every digest below `v` onto `out`. */
  method Walk(v: Json, out: seq<Digest>) returns (out': seq<Digest>)
    ensures out' == out + Walked(v)
    decreases v
  {
    hide Parse, WalkedFields, WalkedItems;
    out' := out;
    WalkedNothing();
    match v {
      case Object(fields) =>
        for i := 0 to |fields|
          invariant out' == out + WalkedFields(fields[..i])
        {
          var f := fields[i];
          ghost var before := WalkedFields(fields[..i]);
          WalkedFieldsGrow(fields, i);
          if f.name == DIGEST_KEY && f.value.String? {
            var d := FromStr(f.value.text);
            if d.Some? {
              out' := out' + [d.value];
            }
          }
          assert out' == out + (before + FieldDigest(f));
          out' := Walk(f.value, out');
        }
        assert fields[..|fields|] == fields;
      case Array(items) =>
        for i := 0 to |items|
          invariant out' == out + WalkedItems(items[..i])
        {
          WalkedItemsGrow(items, i);
          out' := Walk(items[i], out');
        }
        assert items[..|items|] == items;
      case _ =>
    }
  }

  lemma WalkedNothing()
    ensures WalkedFields([]) == [] && WalkedItems([]) == []
  {}

  lemma WalkedFieldsGrow(fields: seq<Field>, i: nat)
    requires i < |fields|
    ensures WalkedFields(fields[..i + 1]) ==
      WalkedFields(fields[..i]) + FieldDigest(fields[i]) + Walked(fields[i].value)
  {
    hide Walked, FieldDigest;
    assert fields[..i + 1][..i] == fields[..i];
  }

  lemma WalkedItemsGrow(items: seq<Json>, i: nat)
    requires i < |items|
    ensures WalkedItems(items[..i + 1]) == WalkedItems(items[..i]) + Walked(items[i])
  {
    hide Walked;
    assert items[..i + 1][..i] == items[..i];
  }

  method CollectDigests(lib: Library, content: Bytes) returns (out: seq<Digest>)
    ensures out == ReferencedDigests(lib, content)
  {
    var v := lib.json(content);
    if v.None? {
      return [];
    }
    out := Walk(v.value, []);
  }

  /** `f` is a `digest` field that holds `d`. */
  predicate Names(f: Field, d: Digest) {
    f.name == Ascii("digest") && f.value.String? && Parse(f.value.text) == Some(d)
  }

  /** `d` is the value of a `digest` field somewhere below `v`. */
  ghost predicate Mentions(v: Json, d: Digest)
    decreases v
  {
    match v
    case Object(fields) =>
      exists i :: 0 <= i < |fields| && (Names(fields[i], d) || Mentions(fields[i].value, d))
    case Array(items) => exists i :: 0 <= i < |items| && Mentions(items[i], d)
    case _ => false
  }

  /** The walk finds exactly the digests the document mentions, at any depth. */
  lemma {:induction false} WalkedIffMentioned(v: Json, d: Digest)
    ensures d in Walked(v) <==> Mentions(v, d)
    decreases v, 1
  {
    match v {
      case Object(fields) => WalkedFieldsIffMentioned(fields, d);
      case Array(items) => WalkedItemsIffMentioned(items, d);
      case _ =>
    }
  }

  lemma {:induction false} WalkedItemsIffMentioned(items: seq<Json>, d: Digest)
    ensures d in WalkedItems(items) <==> exists i :: 0 <= i < |items| && Mentions(items[i], d)
    decreases items, 0
  {
    if items != [] {
      var n := |items| - 1;
      WalkedItemsIffMentioned(items[..n], d);
      WalkedIffMentioned(items[n], d);
    }
  }

  lemma {:induction false} WalkedFieldsIffMentioned(fields: seq<Field>, d: Digest)
    ensures d in WalkedFields(fields) <==>
      exists i :: 0 <= i < |fields| && (Names(fields[i], d) || Mentions(fields[i].value, d))
    decreases fields, 0
  {
    hide FieldDigest, Names, Mentions, Walked;
    if fields != [] {
      var n := |fields| - 1;
      WalkedFieldsIffMentioned(fields[..n], d);
      WalkedIffMentioned(fields[n].value, d);
      FieldDigestIsNamed(fields[n], d);
    }
  }

  lemma FieldDigestIsNamed(f: Field, d: Digest)
    ensures d in FieldDigest(f) <==> Names(f, d)
  {
    hide Parse;
  }

  /** An image manifest's walk is its config digest followed by its layers in
      order, a repeated layer counted as often as it is listed. */
  lemma {:induction false} ImageManifestReferences(config: Digest, layers: seq<Digest>)
    ensures Walked(ImageManifest(config, layers)) == [config] + layers
  {
    var cf, lf := Field(Ascii("config"), Descriptor(config)), Field(Ascii("layers"), Array(Descriptors(layers)));
    assert [cf, lf][..1] == [cf] && [cf][..0] == [];
    assert Ascii("config")[0] != DIGEST_KEY[0] && Ascii("layers")[0] != DIGEST_KEY[0];
    DescriptorWalk(config);
    DescriptorsWalk(layers);
    assert WalkedFields([cf]) == WalkedFields([]) + [] + Walked(cf.value);
    assert Walked(lf.value) == layers;
    assert WalkedFields([cf, lf]) == WalkedFields([cf]) + [] + Walked(lf.value);
  }

  /** What one member contributes. */
  ghost function Found(f: Field): multiset<Digest> {
    multiset(FieldDigest(f)) + multiset(Walked(f.value))
  }

  lemma FoundLast(fields: seq<Field>)
    requires fields != []
    ensures var n := |fields| - 1;
      multiset(WalkedFields(fields)) == multiset(WalkedFields(fields[..n])) + Found(fields[n])
  {
    hide Walked, FieldDigest;
  }

  function Without(fields: seq<Field>, i: nat): seq<Field>
    requires i < |fields|
  {
    fields[..i] + fields[i + 1..]
  }

  lemma WithoutLast(fields: seq<Field>)
    requires fields != []
    ensures Without(fields, |fields| - 1) == fields[..|fields| - 1]
  {}

  lemma WithoutEarlier(fields: seq<Field>, i: nat)
    requires i < |fields| - 1
    ensures var n, rest := |fields| - 1, Without(fields, i);
      |rest| == n && rest[n - 1] == fields[n] && rest[..n - 1] == Without(fields[..n], i)
  {}

  lemma WithoutBag(fields: seq<Field>, i: nat)
    requires i < |fields|
    ensures multiset(Without(fields, i)) == multiset(fields) - multiset{fields[i]}
  {
    assert fields == fields[..i] + [fields[i]] + fields[i + 1..];
  }

  lemma {:induction false} FoundTake(fields: seq<Field>, i: nat)
    requires i < |fields|
    ensures multiset(WalkedFields(fields)) == Found(fields[i]) + multiset(WalkedFields(Without(fields, i)))
    decreases |fields|
  {
    hide WalkedFields, Found, Without;
    var n := |fields| - 1;
    FoundLast(fields);
    if i == n {
      WithoutLast(fields);
    } else {
      WithoutEarlier(fields, i);
      FoundTake(fields[..n], i);
      FoundLast(Without(fields, i));
    }
  }

  /** However the members of an object are ordered, the walk finds each digest
      equally often. */
  lemma {:induction false} MembersInAnyOrder(fields: seq<Field>, fields': seq<Field>)
    requires multiset(fields) == multiset(fields')
    ensures multiset(Walked(Object(fields))) == multiset(Walked(Object(fields')))
    decreases |fields|
  {
    hide WalkedFields, Found, Without;
    assert |fields| == |multiset(fields)| == |multiset(fields')| == |fields'|;
    if fields == [] {
      assert fields' == [];
    } else {
      var f := fields[0];
      assert f in multiset(fields');
      var i: nat :| i < |fields'| && fields'[i] == f;
      WithoutBag(fields, 0);
      WithoutBag(fields', i);
      WithoutShorter(fields, 0);
      MembersInAnyOrder(Without(fields, 0), Without(fields', i));
      FoundTake(fields, 0);
      FoundTake(fields', i);
    }
  }

  lemma WithoutShorter(fields: seq<Field>, i: nat)
    requires i < |fields|
    ensures |Without(fields, i)| < |fields|
  {}

  function Descriptor(d: Digest): Json {
    Object([Field(DIGEST_KEY, String(Print(d)))])
  }

  function Descriptors(ds: seq<Digest>): seq<Json> {
    seq(|ds|, i requires 0 <= i < |ds| => Descriptor(ds[i]))
  }

  function ImageManifest(config: Digest, layers: seq<Digest>): Json {
    Object([Field(Ascii("config"), Descriptor(config)), Field(Ascii("layers"), Array(Descriptors(layers)))])
  }

  lemma DescriptorWalk(d: Digest)
    ensures Walked(Descriptor(d)) == [d]
  {
    var f := Field(DIGEST_KEY, String(Print(d)));
    ParsePrint(d);
    assert [f][..0] == [];
    assert WalkedFields([f]) == FieldDigest(f) + Walked(f.value);
  }

  lemma {:induction false} DescriptorsWalk(ds: seq<Digest>)
    ensures WalkedItems(Descriptors(ds)) == ds
    decreases |ds|
  {
    if ds != [] {
      var n := |ds| - 1;
      DescriptorsWalk(ds[..n]);
      DescriptorWalk(ds[n]);
      assert Descriptors(ds)[..n] == Descriptors(ds[..n]);
      assert ds == ds[..n] + [ds[n]];
    }
  }

  /** The multiset of all digests a family of reference lists holds. */
  ghost function AllRefs<K>(m: map<K, seq<Digest>>): multiset<Digest> {
    if m == map[] then
      multiset{}
    else
      var k :| k in m;
      multiset(m[k]) + AllRefs(m - {k})
  }

  lemma {:induction false} AllRefsTake<K>(m: map<K, seq<Digest>>, k: K)
    requires k in m
    ensures AllRefs(m) == multiset(m[k]) + AllRefs(m - {k})
    decreases |m|
  {
    var j :| j in m && AllRefs(m) == multiset(m[j]) + AllRefs(m - {j});
    if j != k {
      AllRefsTake(m - {j}, k);
      AllRefsTake(m - {k}, j);
      assert m - {j} - {k} == m - {k} - {j};
    }
  }

  /** A digest is counted iff some list holds it. */
  lemma {:induction false} AllRefsMember<K>(m: map<K, seq<Digest>>, d: Digest)
    ensures d in AllRefs(m) <==> exists k :: k in m && d in m[k]
    decreases |m|
  {
    if m != map[] {
      var k :| k in m;
      AllRefsTake(m, k);
      AllRefsMember(m - {k}, d);
      assert forall j :: j in m <==> j == k || j in m - {k};
    }
  }
}
