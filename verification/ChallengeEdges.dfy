/** The parts of a challenge header that no well-behaved server sends, and the freedoms
    that one has (src/docker.rs:572-643). */
module ChallengeEdges {
  import opened Prelude
  import opened Challenge

  // ---- Which of several parameters counts

  /** `v` is the value of the parameter at `i`, which is the last one named `k`. */
  predicate IsLast(params: seq<(Text, Text)>, k: Text, v: Text, i: nat) {
    i < |params| && params[i] == (k, v) && forall j :: i < j < |params| ==> params[j].0 != k
  }

  lemma IsLastOfShorter(params: seq<(Text, Text)>, k: Text, v: Text, i: nat)
    requires params != []
    ensures var n := |params| - 1;
      IsLast(params, k, v, i) <==>
        if params[n].0 == k then i == n && params[n].1 == v else IsLast(params[..n], k, v, i)
  {
    var n := |params| - 1;
    if i < n {
      assert params[..n][i] == params[i];
      if params[n].0 != k && IsLast(params[..n], k, v, i) {
        forall j | i < j < |params| ensures params[j].0 != k {
          assert j < n ==> params[..n][j] == params[j];
        }
      }
    }
  }

  /** The value that counts for a name is that of its last parameter. */
  lemma {:induction false} LastOfIff(params: seq<(Text, Text)>, k: Text, v: Text)
    ensures LastOf(params, k) == Some(v) <==> exists i: nat :: IsLast(params, k, v, i)
    decreases |params|
  {
    hide IsLast;
    if params == [] {
      assert forall i: nat :: !IsLast(params, k, v, i) by { NoneIsLast(k, v); }
    } else {
      var n := |params| - 1;
      LastOfIff(params[..n], k, v);
      forall i: nat
        ensures IsLast(params, k, v, i) <==>
          if params[n].0 == k then i == n && params[n].1 == v else IsLast(params[..n], k, v, i)
      {
        IsLastOfShorter(params, k, v, i);
      }
      assert params[n] == (k, v) ==> IsLast(params, k, v, n);
    }
  }

  lemma NoneIsLast(k: Text, v: Text)
    ensures forall i: nat :: !IsLast([], k, v, i)
  {}

  /** No value counts for a name that no parameter has. */
  lemma {:induction false} NoneNamed(params: seq<(Text, Text)>, k: Text)
    ensures LastOf(params, k) == None <==> forall i :: 0 <= i < |params| ==> params[i].0 != k
    decreases |params|
  {
    if params != [] {
      NoneNamed(params[..|params| - 1], k);
    }
  }

  // ---- Letter case and white space

  predicate Blanks(t: Text) {
    forall i :: 0 <= i < |t| ==> t[i] == SPACE || t[i] == TAB
  }

  lemma BlankAtStart(t: Text)
    requires t != [] && (t[0] == SPACE || t[0] == TAB)
    ensures SpaceAtStart(t) == 1 && TrimStart(t) == TrimStart(t[1..])
  {}

  lemma BlankAtEnd(t: Text)
    requires t != [] && (t[|t| - 1] == SPACE || t[|t| - 1] == TAB)
    ensures SpaceAtEnd(t) == 1 && TrimEnd(t) == TrimEnd(t[..|t| - 1])
  {}

  lemma NothingToTrim(t: Text)
    ensures SpaceAtStart(t) == 0 ==> TrimStart(t) == t
    ensures SpaceAtEnd(t) == 0 ==> TrimEnd(t) == t
  {
    hide SpaceAtStart, SpaceAtEnd;
  }

  lemma {:induction false} TrimStartPads(p: Text, t: Text)
    requires Blanks(p) && SpaceAtStart(t) == 0
    ensures TrimStart(p + t) == t
    decreases |p|
  {
    hide TrimStart, SpaceAtStart;
    if p == [] {
      assert p + t == t;
      NothingToTrim(t);
    } else {
      BlankAtStart(p + t);
      assert (p + t)[1..] == p[1..] + t;
      TrimStartPads(p[1..], t);
    }
  }

  lemma {:induction false} TrimEndPads(t: Text, q: Text)
    requires Blanks(q) && SpaceAtEnd(t) == 0
    ensures TrimEnd(t + q) == t
    decreases |q|
  {
    hide TrimEnd, SpaceAtEnd;
    if q == [] {
      assert t + q == t;
      NothingToTrim(t);
    } else {
      var n := |q| - 1;
      BlankAtEnd(t + q);
      assert (t + q)[..|t + q| - 1] == t + q[..n];
      TrimEndPads(t, q[..n]);
    }
  }

  /** Blanks around a text that neither starts nor ends with white space are trimmed off. */
  lemma TrimPads(p: Text, t: Text, q: Text)
    requires Blanks(p) && Blanks(q) && t != [] && SpaceAtStart(t) == 0 && SpaceAtEnd(t) == 0
    requires SpaceAtStart(t + q) == 0
    ensures Trim(p + (t + q)) == t
  {
    TrimStartPads(p, t + q);
    TrimEndPads(t, q);
  }

  /** `k'` is `k` with some letters in upper case. */
  predicate SameButCase(k': Text, k: Text) {
    |k'| == |k| && forall i :: 0 <= i < |k| ==> k'[i] == k[i] || (97 <= k[i] <= 122 && k'[i] == k[i] - 32)
  }

  lemma LoweredKey(k: Text, k': Text)
    requires PlainKey(k) && SameButCase(k', k)
    ensures Lower(k') == k
  {}

  /** The bytes of `t`, which stands in `s` at `i`, stop no scan but the next one does. */
  lemma UntilAfter(s: Text, i: nat, t: Text, p: byte -> bool)
    requires At(s, i, t) && (forall c :: c in t ==> !p(c)) && (i + |t| < |s| ==> p(s[i + |t|]))
    ensures i + |t| <= |s| && Until(s, i, p) == i + |t|
  {
    hide At;
    AtEnd(s, i, t);
    forall j | i <= j < i + |t| ensures !p(s[j]) {
      AtByte(s, i, t, j - i);
    }
    UntilIs(s, i, p, i + |t|);
  }

  /** Where the scan finds a key and a bare value that stand in `s` behind separators. */
  lemma BareScan(s: Text, pre: Text, key: Text, value: Text)
    requires At(s, 0, pre) && At(s, |pre|, key) && At(s, |pre| + |key| + 1, value) && SeparatorsFrom(pre, 0)
    requires key != [] && NotSeparator(key[0]) && forall c :: c in key ==> !EndsKey(c)
    requires s[|pre| + |key|] == EQUALS && COMMA !in value && value != [] && value[0] != QUOTE
    requires var end := |pre| + |key| + 1 + |value|; end == |s| || s[end] == COMMA
    ensures var keyEnd := |pre| + |key|;
      var end := keyEnd + 1 + |value|;
      Scan(s, 0) == Some((Slice(|pre|, keyEnd, keyEnd + 1, end, false), end))
  {
    hide At, Until, QuoteEnd;
    var keyEnd := |pre| + |key|;
    AtByte(s, |pre|, key, 0);
    AtByte(s, keyEnd + 1, value, 0);
    AtEnd(s, keyEnd + 1, value);
    UntilAfter(s, 0, pre, NotSeparator);
    UntilAfter(s, |pre|, key, EndsKey);
    UntilAfter(s, keyEnd + 1, value, EndsValue);
  }

  /** A parameter whose value is not quoted is read in any letter case of its key, and with
      blanks behind the key, before the value and behind it. */
  lemma {:induction false} BareParamReads(
      s: Text, pre: Text, k: Text, k': Text, a: Text, b: Text, v: Text, c: Text)
    requires PlainKey(k) && k != [] && SameButCase(k', k) && Blanks(a) && Blanks(b) && Blanks(c)
    requires v != [] && (forall i :: 0 <= i < |v| ==> 33 <= v[i] <= 126) && COMMA !in v
    requires b == [] ==> v[0] != QUOTE
    requires SeparatorsFrom(pre, 0) && At(s, 0, pre) && At(s, |pre|, k' + a)
    requires At(s, |pre| + |k' + a| + 1, b + (v + c)) && s[|pre| + |k' + a|] == EQUALS
    requires var end := |pre| + |k' + a| + 1 + |b + (v + c)|; end == |s| || s[end] == COMMA
    ensures Scan(s, 0).Some? && TextOf(s, Scan(s, 0).value.0) == (k, v)
    ensures Scan(s, 0).value.1 == |pre| + |k' + a| + 1 + |b + (v + c)|
  {
    hide Trim, Lower, PlainKey, SeparatorsFrom, Scan, At, TextOf, SpaceAtStart, SpaceAtEnd;
    KeyBytes(k, k');
    VisibleEnds(k', a);
    VisibleEnds(v, c);
    PaddedBytes(k', a, b, v, c);
    assert forall x :: x in k' + a ==> x in k' || x in a;
    BareScan(s, pre, k' + a, b + (v + c));
    TrimPads([], k', a);
    assert [] + (k' + a) == k' + a;
    TrimPads(b, v, c);
    LoweredKey(k, k');
    TextIs(s, |pre|, k' + a, b + (v + c));
  }

  lemma TextIs(s: Text, at: nat, key: Text, value: Text)
    requires At(s, at, key) && At(s, at + |key| + 1, value)
    ensures var x := Slice(at, at + |key|, at + |key| + 1, at + |key| + 1 + |value|, false);
      TextOf(s, x) == (Lower(Trim(key)), Trim(value))
  {
    hide Trim, Lower;
  }

  lemma PaddedBytes(k: Text, a: Text, b: Text, v: Text, c: Text)
    requires k != [] && (forall i :: 0 <= i < |k| ==> 33 <= k[i] <= 126 && !EndsKey(k[i])) && Blanks(a)
    requires Blanks(b) && v != [] && COMMA !in v && Blanks(c) && (b == [] ==> v[0] != QUOTE)
    ensures NotSeparator((k + a)[0]) && forall x :: x in k + a ==> !EndsKey(x)
    ensures COMMA !in b + (v + c) && (b + (v + c))[0] != QUOTE
  {
    assert (k + a)[0] == k[0];
    assert (b + (v + c))[0] == if b == [] then v[0] else b[0];
  }

  lemma KeyBytes(k: Text, k': Text)
    requires PlainKey(k) && SameButCase(k', k)
    ensures forall i :: 0 <= i < |k'| ==> 33 <= k'[i] <= 126 && !EndsKey(k'[i])
  {}

  lemma VisibleEnds(t: Text, q: Text)
    requires t != [] && Blanks(q) && forall i :: 0 <= i < |t| ==> 33 <= t[i] <= 126
    ensures SpaceAtStart(t) == 0 && SpaceAtEnd(t) == 0 && SpaceAtStart(t + q) == 0
  {
    assert (t + q)[0] == t[0];
  }

  /** Parameters may be separated by any mixture of commas, spaces and tabs behind a comma,
      and a key may hold any visible ASCII but upper-case letters, `=` and `,`. */
  lemma {:induction false} AnySeparatorsDo(ps: seq<Param>, ows: Text)
    requires forall c :: c in ows ==> c == 9 || c == 32 || c == 44
    requires forall p :: p in ps ==>
      && (forall c :: c in p.key ==> 33 <= c <= 126 && !(65 <= c <= 90) && c != 61 && c != 44)
      && (if p.Quoted? then WellQuoted(p.value)
          else Trim(p.value) == p.value && 44 !in p.value && (p.value != [] ==> p.value[0] != 34))
    ensures Params(Render(ps, ows)) == Pairs(ps)
  {
    hide Params, Render, Pairs, Trim, WellQuoted;
    forall i | 0 <= i < |ows| ensures !NotSeparator(ows[i]) {
      assert ows[i] in ows;
    }
    forall p | p in ps ensures PlainKey(p.key) {
      forall i | 0 <= i < |p.key| ensures 33 <= p.key[i] <= 126 && !(65 <= p.key[i] <= 90) && !EndsKey(p.key[i]) {
        assert p.key[i] in p.key;
      }
    }
    RenderRoundTrip(ps, ows);
  }

  // ---- White space

  /** The UTF-8 form of a character of the basic plane. */
  function Utf8(c: nat): Text
    requires c < 0x10000
  {
    if c < 0x80 then [c]
    else if c < 0x800 then [0xC0 + c / 64, 0x80 + c % 64]
    else [0xE0 + c / 4096, 0x80 + c / 64 % 64, 0x80 + c % 64]
  }

  /** The characters Unicode calls white space. */
  predicate IsWhite(c: nat) {
    || 0x9 <= c <= 0xD || c == 0x20 || c == 0x85 || c == 0xA0 || c == 0x1680 || 0x2000 <= c <= 0x200A
    || c == 0x2028 || c == 0x2029 || c == 0x202F || c == 0x205F || c == 0x3000
  }

  lemma Utf8Three(c: nat)
    requires 0x800 <= c < 0x10000
    ensures var t := Utf8(c);
      && |t| == 3 && t[0] >= 0xE0 && 0x80 <= t[1] < 0xC0 && 0x80 <= t[2] < 0xC0
      && c == (t[0] as int - 0xE0) * 4096 + (t[1] as int - 0x80) * 64 + (t[2] as int - 0x80)
  {
    assert c / 64 == c / 64 / 64 * 64 + c / 64 % 64;
    assert c / 64 / 64 == c / 4096;
  }

  lemma Utf8Two(c: nat)
    requires 0x80 <= c < 0x800
    ensures var t := Utf8(c);
      && |t| == 2 && 0xC2 <= t[0] < 0xE0 && 0x80 <= t[1] < 0xC0
      && c == (t[0] as int - 0xC0) * 64 + (t[1] as int - 0x80)
  {}

  /** Exactly the white-space characters are trimmed, at either end. */
  lemma {:induction false} WhiteSpaceIff(c: nat, t: Text)
    requires c < 0x10000
    ensures SpaceAtStart(Utf8(c) + t) == if IsWhite(c) then |Utf8(c)| else 0
    ensures SpaceAtEnd(t + Utf8(c)) == if IsWhite(c) then |Utf8(c)| else 0
  {
    var u := Utf8(c);
    var s, e := u + t, t + u;
    assert forall i :: 0 <= i < |u| ==> s[i] == u[i] && e[|t| + i] == u[i];
    if c >= 0x800 {
      Utf8Three(c);
      hide Utf8;
      ThreeIff(c, u[0], u[1], u[2]);
    } else if c >= 0x80 {
      Utf8Two(c);
      hide Utf8;
    }
  }

  lemma ThreeIff(c: nat, x: byte, y: byte, z: byte)
    requires c == (x as int - 0xE0) * 4096 + (y as int - 0x80) * 64 + (z as int - 0x80) && c >= 0x800
    requires x >= 0xE0 && 0x80 <= y < 0xC0 && 0x80 <= z < 0xC0
    ensures IsSpace3(x, y, z) <==> IsWhite(c)
  {}

  // ---- Malformed lists

  /** A list without an equals sign has no parameters. */
  lemma {:induction false} NoEqualsNoParams(s: Text)
    requires EQUALS !in s
    ensures Params(s) == []
  {
    hide Until;
  }

  /** A quoted value whose quote is never closed runs to the end of the header. */
  lemma {:induction false} OpenQuoteRunsToTheEnd(k: Text, v: Text)
    requires PlainKey(k) && k != [] && WellQuoted(v)
    ensures var s := k + [EQUALS, QUOTE] + v;
      Params(s) == [(k, v)]
  {
    var s := k + [EQUALS, QUOTE] + v;
    hide Trim, Lower, QuoteEnd, TextOf, WellQuoted;
    assert forall j :: 0 <= j < |k| ==> s[j] == k[j];
    UntilIs(s, 0, NotSeparator, 0);
    UntilIs(s, 0, EndsKey, |k|);
    assert s[|k| + 2..] == v;
    OpenQuote(s, |k| + 2, v);
    var x := Slice(0, |k|, |k| + 2, |s|, true);
    assert Scan(s, 0) == Some((x, |s|));
    NothingAtEnd(s);
    assert Slices(s, 0) == [x] + Slices(s, |s|) == [x];
    OpenText(s, k, v, x);
    assert [x][1..] == [];
  }

  lemma OpenText(s: Text, k: Text, v: Text, x: Slice)
    requires PlainKey(k) && s == k + [EQUALS, QUOTE] + v && x == Slice(0, |k|, |k| + 2, |s|, true)
    ensures TextOf(s, x) == (k, v)
  {
    hide Trim, Lower;
    assert s[0..|k|] == k && s[|k| + 2..|s|] == v;
    PlainKeyText(k);
  }

  lemma {:induction false} OpenQuote(s: Text, i: nat, v: Text)
    requires i <= |s| && s[i..] == v && WellQuoted(v)
    ensures QuoteEnd(s, i) == |s|
    decreases |v|
  {
    if v != [] {
      assert s[i] == v[0];
      var n := if v[0] == BACKSLASH then 2 else 1;
      assert s[i + n..] == v[n..];
      OpenQuote(s, i + n, v[n..]);
    }
  }

  // ---- The scheme

  /** Only `Bearer` and `bearer` are understood, and only with a realm. */
  lemma {:induction false} OtherSchemesAreNone(header: Text)
    ensures var t := Trim(header);
      Bearer(header).Some? ==> |t| >= 6 && (t[..6] == Ascii("Bearer") || t[..6] == Ascii("bearer"))
  {
    hide Trim, Params, LastOf, TrimStart;
  }

  /** With either spelling, and any blanks around the list, the list is what counts. */
  lemma {:induction false} EitherSpelling(list: Text, a: Text, b: Text, c: Text, lower: bool)
    requires Blanks(a) && Blanks(b) && Blanks(c)
    requires list != [] && SpaceAtStart(list) == 0 && SpaceAtEnd(list) == 0
    ensures Bearer(a + ((if lower then Ascii("bearer") else Ascii("Bearer")) + b + list + c)) ==
      var params := Params(list);
      match LastOf(params, Ascii("realm"))
      case None => None
      case Some(realm) => Some(BearerChallenge(realm, LastOf(params, Ascii("service")), LastOf(params, Ascii("scope"))))
  {
    hide Params, LastOf, Trim, TrimStart, TrimEnd;
    var scheme := if lower then Ascii("bearer") else Ascii("Bearer");
    var body := scheme + b + list;
    SchemeBytes();
    assert body[0] == scheme[0];
    assert SpaceAtStart(body) == 0 && SpaceAtStart(body + c) == 0 by { assert (body + c)[0] == scheme[0]; }
    EndOfList(scheme + b, list);
    TrimPads(a, body, c);
    assert body[..6] == scheme && body[6..] == b + list;
    assert scheme <= body;
    TrimStartPads(b, list);
  }

  lemma SchemeBytes()
    ensures Ascii("Bearer")[0] == 66 && Ascii("bearer")[0] == 98
  {}

  lemma EndOfList(head: Text, list: Text)
    requires list != [] && SpaceAtEnd(list) == 0 && head != [] && (head[|head| - 1] < 0x80)
    ensures SpaceAtEnd(head + list) == 0
  {
    var s, n := head + list, |head + list|;
    assert s[n - 1] == list[|list| - 1];
    assert n >= 2 ==> s[n - 2] == (if |list| >= 2 then list[|list| - 2] else head[|head| - 1]);
    assert |list| >= 3 ==> s[n - 3] == list[|list| - 3];
    assert |list| == 2 ==> s[n - 3] == head[|head| - 1];
  }
}
