/** The `WWW-Authenticate` parameter scanner (src/docker.rs:572-643). Strings are
    their UTF-8 bytes, which is how the scanner indexes them. */
module Challenge {
  import opened Prelude

  const TAB: byte := 9
  const SPACE: byte := 32
  const QUOTE: byte := 34
  const COMMA: byte := 44
  const EQUALS: byte := 61
  const BACKSLASH: byte := 92

  // ---- Library functions on strings

  /** How many bytes the white-space character (Unicode `White_Space`) takes that
      `s` starts with; zero when it starts with no white space. */
  function SpaceAtStart(s: Text): (n: nat)
    ensures n <= |s|
  {
    if |s| >= 1 && IsAsciiSpace(s[0]) then 1
    else if |s| >= 2 && IsSpace2(s[0], s[1]) then 2
    else if |s| >= 3 && IsSpace3(s[0], s[1], s[2]) then 3
    else 0
  }

  function SpaceAtEnd(s: Text): (n: nat)
    ensures n <= |s|
  {
    var n := |s|;
    if n >= 1 && IsAsciiSpace(s[n - 1]) then 1
    else if n >= 2 && IsSpace2(s[n - 2], s[n - 1]) then 2
    else if n >= 3 && IsSpace3(s[n - 3], s[n - 2], s[n - 1]) then 3
    else 0
  }

  predicate IsAsciiSpace(c: byte) {
    9 <= c <= 13 || c == SPACE
  }

  /** The white-space characters of two bytes: U+0085 and U+00A0. */
  predicate IsSpace2(a: byte, b: byte) {
    a == 0xC2 && (b == 0x85 || b == 0xA0)
  }

  /** Those of three bytes: U+1680, U+2000 to U+200A, U+2028, U+2029, U+202F, U+205F, U+3000. */
  predicate IsSpace3(a: byte, b: byte, c: byte) {
    || (a == 0xE1 && b == 0x9A && c == 0x80)
    || (a == 0xE2 && b == 0x80 && (0x80 <= c <= 0x8A || c == 0xA8 || c == 0xA9 || c == 0xAF))
    || (a == 0xE2 && b == 0x81 && c == 0x9F)
    || (a == 0xE3 && b == 0x80 && c == 0x80)
  }

  function TrimStart(s: Text): Text
    decreases |s|
  {
    if SpaceAtStart(s) == 0 then s else TrimStart(s[SpaceAtStart(s)..])
  }

  function TrimEnd(s: Text): Text
    decreases |s|
  {
    if SpaceAtEnd(s) == 0 then s else TrimEnd(s[..|s| - SpaceAtEnd(s)])
  }

  function Trim(s: Text): Text {
    TrimEnd(TrimStart(s))
  }

  function Lower(s: Text): Text {
    seq(|s|, i requires 0 <= i < |s| => if 65 <= s[i] <= 90 then s[i] + 32 else s[i])
  }

  // ---- The scanner as a function

  predicate NotSeparator(c: byte) {
    c != SPACE && c != TAB && c != COMMA
  }

  predicate EndsKey(c: byte) {
    c == EQUALS || c == COMMA
  }

  predicate EndsValue(c: byte) {
    c == COMMA
  }

  /** The first position from `i` on whose byte satisfies `p`, or the end. */
  function Until(s: Text, i: nat, p: byte -> bool): (r: nat)
    requires i <= |s|
    ensures i <= r <= |s|
    ensures forall j :: i <= j < r ==> !p(s[j])
    ensures r < |s| ==> p(s[r])
    decreases |s| - i
  {
    if i == |s| || p(s[i]) then i else Until(s, i + 1, p)
  }

  /** The closing quote of a quoted string whose text starts at `i`, or the end. */
  function QuoteEnd(s: Text, i: nat): (r: nat)
    requires i <= |s|
    ensures i <= r <= |s|
    ensures r < |s| ==> s[r] == QUOTE
    decreases |s| - i
  {
    if i == |s| || s[i] == QUOTE then i
    else if s[i] == BACKSLASH && i + 1 < |s| then QuoteEnd(s, i + 2)
    else QuoteEnd(s, i + 1)
  }

  /** Where one parameter's key and value are. */
  datatype Slice = Slice(keyStart: nat, keyEnd: nat, valueStart: nat, valueEnd: nat, quoted: bool)

  predicate InRange(s: Text, x: Slice) {
    x.keyStart <= x.keyEnd < x.valueStart <= x.valueEnd <= |s|
  }

  /** The first parameter at or after `i`, and where the scan goes on. */
  function Scan(s: Text, i: nat): (r: Option<(Slice, nat)>)
    requires i <= |s|
    ensures r.Some? ==> InRange(s, r.value.0) && i < r.value.1 <= |s|
  {
    var keyStart := Until(s, i, NotSeparator);
    var keyEnd := Until(s, keyStart, EndsKey);
    if keyEnd == |s| || s[keyEnd] != EQUALS then
      None
    else if keyEnd + 1 < |s| && s[keyEnd + 1] == QUOTE then
      var end := QuoteEnd(s, keyEnd + 2);
      Some((Slice(keyStart, keyEnd, keyEnd + 2, end, true), if end < |s| then end + 1 else end))
    else
      var end := Until(s, keyEnd + 1, EndsValue);
      Some((Slice(keyStart, keyEnd, keyEnd + 1, end, false), end))
  }

  function Slices(s: Text, i: nat): (r: seq<Slice>)
    requires i <= |s|
    ensures forall x :: x in r ==> InRange(s, x)
    decreases |s| - i
  {
    match Scan(s, i)
    case None => []
    case Some(found) => [found.0] + Slices(s, found.1)
  }

  /** A quoted value is taken raw, a bare one without the white space around it. */
  function TextOf(s: Text, x: Slice): (Text, Text)
    requires InRange(s, x)
  {
    var value := s[x.valueStart..x.valueEnd];
    (Lower(Trim(s[x.keyStart..x.keyEnd])), if x.quoted then value else Trim(value))
  }

  function Texts(s: Text, xs: seq<Slice>): (r: seq<(Text, Text)>)
    requires forall x :: x in xs ==> InRange(s, x)
    ensures |r| == |xs|
  {
    if xs == [] then [] else [TextOf(s, xs[0])] + Texts(s, xs[1..])
  }

  function Params(s: Text): seq<(Text, Text)> {
    Texts(s, Slices(s, 0))
  }

  // ---- The scanner as the loop it is

  /** The loops that stop at the first byte of some kind. */
  method Advance(input: Text, start: nat, stop: byte -> bool) returns (i: nat)
    requires start <= |input|
    ensures i == Until(input, start, stop)
  {
    i := start;
    while i < |input| && !stop(input[i])
      invariant start <= i <= |input| && Until(input, start, stop) == Until(input, i, stop)
    {
      i := i + 1;
    }
  }

  method AdvanceToQuote(input: Text, start: nat) returns (i: nat)
    requires start <= |input|
    ensures i == QuoteEnd(input, start)
  {
    i := start;
    while i < |input| && input[i] != QUOTE
      invariant start <= i <= |input| && QuoteEnd(input, start) == QuoteEnd(input, i)
    {
      if input[i] == BACKSLASH && i + 1 < |input| {
        i := i + 2;
      } else {
        i := i + 1;
      }
    }
  }

  /** The body of the scanning loop: `None` when the loop breaks off. */
  method ScanParam(input: Text, start: nat) returns (r: Option<(Text, Text)>, i: nat)
    requires start <= |input|
    ensures match Scan(input, start)
      case None => r == None
      case Some(found) => r == Some(TextOf(input, found.0)) && i == found.1
  {
    hide Trim, Lower, Until, QuoteEnd;
    i := Advance(input, start, NotSeparator);
    var keyStart := i;
    i := Advance(input, i, EndsKey);
    if i >= |input| || input[i] != EQUALS {
      return None, i;
    }
    var k := Lower(Trim(input[keyStart..i]));
    i := i + 1;
    var v;
    if i < |input| && input[i] == QUOTE {
      i := i + 1;
      var valueStart := i;
      i := AdvanceToQuote(input, i);
      v := input[valueStart..i];
      if i < |input| {
        i := i + 1;
      }
    } else {
      var valueStart := i;
      i := Advance(input, i, EndsValue);
      v := Trim(input[valueStart..i]);
    }
    r := Some((k, v));
  }

  method IterChallengeParams(input: Text) returns (out: seq<(Text, Text)>)
    ensures out == Params(input)
  {
    hide Scan, TextOf;
    out := [];
    var i := 0;
    while i < |input|
      invariant i <= |input| && Params(input) == out + Texts(input, Slices(input, i))
    {
      ghost var before, found := out, Scan(input, i);
      var param, next := ScanParam(input, i);
      if param.None? {
        assert out + [] == out;
        return;
      }
      out := out + [param.value];
      i := next;
      TextsCons(input, found.value.0, Slices(input, i));
      assert before + ([param.value] + Texts(input, Slices(input, i))) == out + Texts(input, Slices(input, i));
    }
    NothingAtEnd(input);
    assert out + [] == out;
  }

  lemma NothingAtEnd(s: Text)
    ensures Scan(s, |s|) == None
  {}

  lemma TextsCons(s: Text, x: Slice, xs: seq<Slice>)
    requires InRange(s, x) && forall y :: y in xs ==> InRange(s, y)
    ensures (forall y :: y in [x] + xs ==> InRange(s, y)) && Texts(s, [x] + xs) == [TextOf(s, x)] + Texts(s, xs)
  {
    assert ([x] + xs)[1..] == xs;
  }

  // ---- Every slice can be cut out of the string

  /** After an ASCII byte a character starts: true of every UTF-8 string. */
  predicate CharactersFollowAscii(s: Text) {
    forall j :: 0 < j < |s| && s[j - 1] < 0x80 ==> !Continues(s[j])
  }

  predicate Continues(c: byte) {
    0x80 <= c < 0xC0
  }

  /** A string may be cut at `i`. */
  predicate Boundary(s: Text, i: nat) {
    i == |s| || (i < |s| && !Continues(s[i]))
  }

  predicate Cuttable(s: Text, x: Slice) {
    Boundary(s, x.keyStart) && Boundary(s, x.keyEnd) && Boundary(s, x.valueStart) && Boundary(s, x.valueEnd)
  }

  lemma UntilBoundary(s: Text, i: nat, p: byte -> bool)
    requires i <= |s| && CharactersFollowAscii(s)
    requires (forall c :: p(c) ==> !Continues(c)) || (Boundary(s, i) && forall c :: !p(c) ==> c < 0x80)
    ensures Boundary(s, Until(s, i, p))
  {
    var r := Until(s, i, p);
    assert r > i && r < |s| && (forall c :: !p(c) ==> c < 0x80) ==> s[r - 1] < 0x80;
  }

  lemma ScanIsSound(s: Text, i: nat)
    requires i <= |s| && CharactersFollowAscii(s) && Boundary(s, i) && Scan(s, i).Some?
    ensures var (x, next) := Scan(s, i).value;
      i <= x.keyStart && InRange(s, x) && Cuttable(s, x) && x.valueEnd <= next && Boundary(s, next)
  {
    var keyStart := Until(s, i, NotSeparator);
    UntilBoundary(s, i, NotSeparator);
    var keyEnd := Until(s, keyStart, EndsKey);
    UntilBoundary(s, keyStart, EndsKey);
    UntilBoundary(s, keyEnd + 1, EndsValue);
  }

  /** On any string the slices are in range, in order, apart from each other, and
      start and end between characters, so that no slicing can fail. */
  lemma {:induction false} SlicesAreSound(s: Text, i: nat)
    requires i <= |s| && CharactersFollowAscii(s) && Boundary(s, i)
    ensures forall x :: x in Slices(s, i) ==> i <= x.keyStart && InRange(s, x) && Cuttable(s, x)
    ensures forall j, k :: 0 <= j < k < |Slices(s, i)| ==> Slices(s, i)[j].valueEnd <= Slices(s, i)[k].keyStart
    decreases |s| - i
  {
    hide Scan, CharactersFollowAscii, Boundary, Cuttable;
    if Scan(s, i).Some? {
      var next := Scan(s, i).value.1;
      ScanIsSound(s, i);
      SlicesAreSound(s, next);
      forall k | 0 <= k < |Slices(s, next)| ensures next <= Slices(s, next)[k].keyStart {
        assert Slices(s, next)[k] in Slices(s, next);
      }
    }
  }

  // ---- Rendered parameters are read back

  datatype Param = Quoted(key: Text, value: Text) | Token(key: Text, value: Text)

  /** Visible ASCII without upper-case letters, `=` and `,`: covers every lower-case token. */
  predicate PlainKey(k: Text) {
    forall i :: 0 <= i < |k| ==> 33 <= k[i] <= 126 && !(65 <= k[i] <= 90) && !EndsKey(k[i])
  }

  /** The inside of a quoted string: every backslash escapes something, no quote is bare. */
  predicate WellQuoted(v: Text)
    decreases |v|
  {
    if v == [] then true
    else if v[0] == BACKSLASH then |v| >= 2 && WellQuoted(v[2..])
    else v[0] != QUOTE && WellQuoted(v[1..])
  }

  predicate Renderable(p: Param) {
    && PlainKey(p.key)
    && match p
       case Quoted(_, v) => WellQuoted(v)
       case Token(_, v) => COMMA !in v && Trim(v) == v && (v != [] ==> v[0] != QUOTE)
  }

  function RenderOne(p: Param): Text {
    match p
    case Quoted(k, v) => k + [EQUALS, QUOTE] + v + [QUOTE]
    case Token(k, v) => k + [EQUALS] + v
  }

  /** Parameters joined by a comma and optional white space `ows`. */
  function Render(ps: seq<Param>, ows: Text): Text {
    if ps == [] then []
    else if |ps| == 1 then RenderOne(ps[0])
    else RenderOne(ps[0]) + [COMMA] + ows + Render(ps[1..], ows)
  }

  function Pairs(ps: seq<Param>): seq<(Text, Text)> {
    if ps == [] then [] else [(ps[0].key, ps[0].value)] + Pairs(ps[1..])
  }

  lemma PlainKeyText(k: Text)
    requires PlainKey(k)
    ensures Lower(Trim(k)) == k
  {
    if k != [] {
      assert SpaceAtStart(k) == 0 && SpaceAtEnd(k) == 0;
    }
    assert Trim(k) == k;
    assert Lower(k) == k;
  }

  lemma {:induction false} QuoteEndIs(s: Text, i: nat, v: Text)
    requires i + |v| < |s| && s[i..i + |v|] == v && s[i + |v|] == QUOTE && WellQuoted(v)
    ensures QuoteEnd(s, i) == i + |v|
    decreases |v|
  {
    if v != [] {
      assert s[i] == v[0];
      var n := if v[0] == BACKSLASH then 2 else 1;
      assert s[i + n..i + |v|] == v[n..];
      QuoteEndIs(s, i + n, v[n..]);
    }
  }

  lemma UntilIs(s: Text, i: nat, p: byte -> bool, r: nat)
    requires i <= r <= |s| && (forall j :: i <= j < r ==> !p(s[j])) && (r < |s| ==> p(s[r]))
    ensures Until(s, i, p) == r
  {}

  /** `x` is the slice of `p` rendered at `at`. */
  function SliceAt(p: Param, at: nat): Slice {
    var k := |p.key|;
    match p
    case Quoted(_, v) => Slice(at, at + k, at + k + 2, at + k + 2 + |v|, true)
    case Token(_, v) => Slice(at, at + k, at + k + 1, at + k + 1 + |v|, false)
  }

  predicate SeparatorsFrom(pre: Text, i: nat) {
    i <= |pre| && forall j :: i <= j < |pre| ==> !NotSeparator(pre[j])
  }

  /** `t` stands in `s` at `i`. */
  predicate At(s: Text, i: nat, t: Text) {
    i + |t| <= |s| && s[i..i + |t|] == t
  }

  lemma AtSplit(s: Text, i: nat, t: Text, u: Text)
    requires At(s, i, t + u)
    ensures At(s, i, t) && At(s, i + |t|, u)
  {
    var both := s[i..i + |t| + |u|];
    assert both[..|t|] == t && both[|t|..] == u;
    assert both[..|t|] == s[i..i + |t|] && both[|t|..] == s[i + |t|..i + |t| + |u|];
  }

  lemma AtByte(s: Text, i: nat, t: Text, j: nat)
    requires At(s, i, t) && j < |t|
    ensures s[i + j] == t[j]
  {
    assert s[i..i + |t|][j] == t[j];
  }

  lemma KeyRead(s: Text, pre: Text, k: Text, i: nat)
    requires SeparatorsFrom(pre, i) && PlainKey(k) && At(s, 0, pre) && At(s, |pre|, k)
    requires |pre| + |k| < |s| && s[|pre| + |k|] == EQUALS
    ensures i <= |pre| && Until(s, i, NotSeparator) == |pre| && Until(s, |pre|, EndsKey) == |pre| + |k|
    ensures Lower(Trim(k)) == k
  {
    hide Trim, Lower, At;
    forall j | i <= j < |pre| ensures !NotSeparator(s[j]) {
      AtByte(s, 0, pre, j);
    }
    forall j | |pre| <= j < |pre| + |k| ensures NotSeparator(s[j]) && !EndsKey(s[j]) {
      AtByte(s, |pre|, k, j - |pre|);
    }
    UntilIs(s, i, NotSeparator, |pre|);
    UntilIs(s, |pre|, EndsKey, |pre| + |k|);
    PlainKeyText(k);
  }

  lemma QuotedParts(s: Text, at: nat, k: Text, v: Text)
    requires At(s, at, k + [EQUALS, QUOTE] + v + [QUOTE])
    ensures At(s, at, k) && s[at + |k|] == EQUALS && s[at + |k| + 1] == QUOTE
    ensures At(s, at + |k| + 2, v) && at + |k| + 2 + |v| < |s| && s[at + |k| + 2 + |v|] == QUOTE
  {
    hide At;
    AtSplit(s, at, k + [EQUALS, QUOTE] + v, [QUOTE]);
    AtSplit(s, at, k + [EQUALS, QUOTE], v);
    AtSplit(s, at, k, [EQUALS, QUOTE]);
    AtByte(s, at + |k|, [EQUALS, QUOTE], 0);
    AtByte(s, at + |k|, [EQUALS, QUOTE], 1);
    AtByte(s, at + |k| + 2 + |v|, [QUOTE], 0);
  }

  /** `p` is what the scan of `s` finds first from `i` on, at `at`. */
  predicate Finds(s: Text, i: nat, p: Param, at: nat)
    requires i <= |s|
  {
    && Scan(s, i) == Some((SliceAt(p, at), at + |RenderOne(p)|))
    && TextOf(s, SliceAt(p, at)) == (p.key, p.value)
  }

  lemma QuotedScan(s: Text, i: nat, at: nat, p: Param)
    requires p.Quoted? && i <= at && at + |RenderOne(p)| <= |s|
    requires Until(s, i, NotSeparator) == at && Until(s, at, EndsKey) == at + |p.key|
    requires s[at + |p.key|] == EQUALS && s[at + |p.key| + 1] == QUOTE
    requires QuoteEnd(s, at + |p.key| + 2) == at + |p.key| + 2 + |p.value|
    ensures Scan(s, i) == Some((SliceAt(p, at), at + |RenderOne(p)|))
  {
    hide Until, QuoteEnd;
  }

  /** What `Renderable` and `RenderOne` say of a parameter. */
  lemma Rendered(p: Param)
    requires Renderable(p)
    ensures PlainKey(p.key)
    ensures p.Quoted? ==> RenderOne(p) == p.key + [EQUALS, QUOTE] + p.value + [QUOTE] && WellQuoted(p.value)
    ensures p.Token? ==> RenderOne(p) == p.key + [EQUALS] + p.value && COMMA !in p.value && Trim(p.value) == p.value
    ensures p.Token? && p.value != [] ==> p.value[0] != QUOTE
    ensures |RenderOne(p)| == |p.key| + |p.value| + if p.Quoted? then 3 else 1
  {
    hide PlainKey, WellQuoted, Trim;
  }

  lemma AtEnd(s: Text, i: nat, t: Text)
    requires At(s, i, t)
    ensures i + |t| <= |s|
  {}

  lemma QuotedValue(s: Text, i: nat, v: Text)
    requires At(s, i, v) && i + |v| < |s| && s[i + |v|] == QUOTE && WellQuoted(v)
    ensures QuoteEnd(s, i) == i + |v|
  {
    hide QuoteEnd, WellQuoted;
    QuoteEndIs(s, i, v);
  }

  lemma SliceText(s: Text, p: Param, at: nat)
    requires At(s, at, p.key) && At(s, at + |p.key| + if p.Quoted? then 2 else 1, p.value)
    requires Lower(Trim(p.key)) == p.key && (p.Token? ==> Trim(p.value) == p.value)
    ensures InRange(s, SliceAt(p, at)) && TextOf(s, SliceAt(p, at)) == (p.key, p.value)
  {
    hide Lower, Trim;
  }

  lemma QuotedRead(s: Text, pre: Text, p: Param, i: nat)
    requires p.Quoted? && SeparatorsFrom(pre, i) && Renderable(p) && At(s, 0, pre) && At(s, |pre|, RenderOne(p))
    ensures i <= |s| && Finds(s, i, p, |pre|)
  {
    hide At, RenderOne, TextOf, Trim, Lower, Until, QuoteEnd, PlainKey, WellQuoted, Scan, SeparatorsFrom, Renderable;
    Rendered(p);
    AtEnd(s, |pre|, RenderOne(p));
    QuotedParts(s, |pre|, p.key, p.value);
    KeyRead(s, pre, p.key, i);
    QuotedValue(s, |pre| + |p.key| + 2, p.value);
    QuotedScan(s, i, |pre|, p);
    SliceText(s, p, |pre|);
  }

  lemma TokenScan(s: Text, i: nat, at: nat, p: Param)
    requires p.Token? && i <= at && at + |RenderOne(p)| <= |s|
    requires Until(s, i, NotSeparator) == at && Until(s, at, EndsKey) == at + |p.key|
    requires s[at + |p.key|] == EQUALS && (at + |p.key| + 1 < |s| ==> s[at + |p.key| + 1] != QUOTE)
    requires Until(s, at + |p.key| + 1, EndsValue) == at + |p.key| + 1 + |p.value|
    ensures Scan(s, i) == Some((SliceAt(p, at), at + |RenderOne(p)|))
  {
    hide Until, QuoteEnd;
  }

  lemma TokenParts(s: Text, at: nat, k: Text, v: Text)
    requires At(s, at, k + [EQUALS] + v) && COMMA !in v && (v != [] ==> v[0] != QUOTE)
    requires at + |k| + 1 + |v| < |s| ==> s[at + |k| + 1 + |v|] == COMMA
    ensures At(s, at, k) && s[at + |k|] == EQUALS && At(s, at + |k| + 1, v)
    ensures (at + |k| + 1 < |s| ==> s[at + |k| + 1] != QUOTE)
    ensures Until(s, at + |k| + 1, EndsValue) == at + |k| + 1 + |v|
  {
    hide At;
    AtSplit(s, at, k + [EQUALS], v);
    AtSplit(s, at, k, [EQUALS]);
    AtByte(s, at + |k|, [EQUALS], 0);
    forall j | 0 <= j < |v| ensures s[at + |k| + 1 + j] == v[j] {
      AtByte(s, at + |k| + 1, v, j);
    }
    forall j | at + |k| + 1 <= j < at + |k| + 1 + |v| ensures s[j] != COMMA {
      assert s[j] == v[j - (at + |k| + 1)];
    }
    UntilIs(s, at + |k| + 1, EndsValue, at + |k| + 1 + |v|);
  }

  lemma TokenRead(s: Text, pre: Text, p: Param, i: nat)
    requires p.Token? && SeparatorsFrom(pre, i) && Renderable(p) && At(s, 0, pre) && At(s, |pre|, RenderOne(p))
    requires |pre| + |RenderOne(p)| < |s| ==> s[|pre| + |RenderOne(p)|] == COMMA
    ensures i <= |s| && Finds(s, i, p, |pre|)
  {
    hide At, RenderOne, TextOf, Trim, Lower, Until, PlainKey, WellQuoted, Scan, SeparatorsFrom, Renderable;
    Rendered(p);
    AtEnd(s, |pre|, RenderOne(p));
    TokenParts(s, |pre|, p.key, p.value);
    KeyRead(s, pre, p.key, i);
    TokenScan(s, i, |pre|, p);
    SliceText(s, p, |pre|);
  }

  lemma OneRead(pre: Text, p: Param, rest: Text, i: nat)
    requires SeparatorsFrom(pre, i) && Renderable(p) && (rest == [] || rest[0] == COMMA)
    ensures var s := pre + RenderOne(p) + rest; i <= |s| && Finds(s, i, p, |pre|)
  {
    hide RenderOne, Renderable, Finds, SeparatorsFrom;
    var s := pre + RenderOne(p) + rest;
    assert s[0..|pre|] == pre;
    if p.Quoted? {
      QuotedRead(s, pre, p, i);
    } else {
      TokenRead(s, pre, p, i);
    }
  }

  lemma TextsStep(s: Text, i: nat, p: Param, at: nat)
    requires i <= |s| && Finds(s, i, p, at)
    ensures Texts(s, Slices(s, i)) == [(p.key, p.value)] + Texts(s, Slices(s, at + |RenderOne(p)|))
  {
    hide Scan, TextOf, RenderOne;
    TextsCons(s, SliceAt(p, at), Slices(s, at + |RenderOne(p)|));
  }

  lemma SeparatorsAfter(pre: Text, one: Text, sep: Text)
    requires SeparatorsFrom(sep, 0)
    ensures SeparatorsFrom(pre + one + sep, |pre| + |one|)
  {
    var s := pre + one + sep;
    forall j | |pre| + |one| <= j < |s| ensures !NotSeparator(s[j]) {
      assert s[j] == sep[j - |pre| - |one|];
    }
  }

  lemma {:induction false} RenderRead(pre: Text, i: nat, ps: seq<Param>, ows: Text)
    requires SeparatorsFrom(pre, i) && SeparatorsFrom(ows, 0) && forall p :: p in ps ==> Renderable(p)
    ensures var s := pre + Render(ps, ows); Texts(s, Slices(s, i)) == Pairs(ps)
    decreases |ps|
  {
    hide TextOf, Renderable, RenderOne, Finds, Scan, SeparatorsFrom;
    var s := pre + Render(ps, ows);
    if ps == [] {
      NothingLeft(pre, i);
      assert s == pre;
    } else {
      var p := ps[0];
      var one, sep, more := RenderOne(p), if |ps| == 1 then [] else [COMMA] + ows, Render(ps[1..], ows);
      SeparatorsJoin(ows);
      RenderParts(pre, ps, ows);
      OneRead(pre, p, sep + more, i);
      TextsStep(s, i, p, |pre|);
      SeparatorsAfter(pre, one, sep);
      RenderRead(pre + one + sep, |pre| + |one|, ps[1..], ows);
    }
  }

  lemma RenderParts(pre: Text, ps: seq<Param>, ows: Text)
    requires ps != []
    ensures var one, sep, more := RenderOne(ps[0]), if |ps| == 1 then [] else [COMMA] + ows, Render(ps[1..], ows);
      && pre + Render(ps, ows) == pre + one + (sep + more) == pre + one + sep + more
      && (sep + more == [] || (sep + more)[0] == COMMA)
  {
    hide RenderOne, Render;
    var one, sep, more := RenderOne(ps[0]), if |ps| == 1 then [] else [COMMA] + ows, Render(ps[1..], ows);
    RenderIs(ps, ows);
    Regrouped(pre, one, sep, more);
    Regrouped(one, [COMMA], ows, more);
    if |ps| > 1 {
      assert (sep + more)[0] == sep[0];
    } else {
      assert one + [] + [] == one;
    }
  }

  lemma RenderIs(ps: seq<Param>, ows: Text)
    requires ps != []
    ensures |ps| == 1 ==> Render(ps, ows) == RenderOne(ps[0]) && Render(ps[1..], ows) == []
    ensures |ps| > 1 ==> Render(ps, ows) == RenderOne(ps[0]) + [COMMA] + ows + Render(ps[1..], ows)
  {
    hide RenderOne;
  }

  lemma Regrouped(a: Text, b: Text, c: Text, d: Text)
    ensures a + b + c + d == a + (b + c + d) == a + b + (c + d) == a + (b + c) + d
  {}

  lemma SeparatorsJoin(ows: Text)
    requires SeparatorsFrom(ows, 0)
    ensures SeparatorsFrom([], 0) && SeparatorsFrom([COMMA] + ows, 0)
  {}

  lemma NothingLeft(s: Text, i: nat)
    requires SeparatorsFrom(s, i)
    ensures i <= |s| && Scan(s, i) == None
  {
    UntilIs(s, i, NotSeparator, |s|);
  }

  /** Any list of lower-case keys with quoted or bare values, joined by commas and
      optional white space, is read back exactly, values raw. */
  lemma {:induction false} RenderRoundTrip(ps: seq<Param>, ows: Text)
    requires SeparatorsFrom(ows, 0) && forall p :: p in ps ==> Renderable(p)
    ensures Params(Render(ps, ows)) == Pairs(ps)
  {
    RenderRead([], 0, ps, ows);
    assert [] + Render(ps, ows) == Render(ps, ows);
  }

  // ---- Bearer challenges

  datatype BearerChallenge = BearerChallenge(realm: Text, service: Option<Text>, scope: Option<Text>)

  /** The value of the last parameter named `k`. */
  function LastOf(params: seq<(Text, Text)>, k: Text): Option<Text> {
    if params == [] then None
    else if params[|params| - 1].0 == k then Some(params[|params| - 1].1)
    else LastOf(params[..|params| - 1], k)
  }

  function StripBearer(s: Text): Option<Text> {
    if Ascii("Bearer") <= s || Ascii("bearer") <= s then Some(s[6..]) else None
  }

  function Bearer(header: Text): Option<BearerChallenge> {
    match StripBearer(Trim(header))
    case None => None
    case Some(rest) =>
      var params := Params(TrimStart(rest));
      match LastOf(params, Ascii("realm"))
      case None => None
      case Some(realm) => Some(BearerChallenge(realm, LastOf(params, Ascii("service")), LastOf(params, Ascii("scope"))))
  }

  method ParseBearerChallenge(header: Text) returns (r: Option<BearerChallenge>)
    ensures r == Bearer(header)
  {
    hide Params, Trim, TrimStart;
    var rest := StripBearer(Trim(header));
    if rest.None? {
      return None;
    }
    var realm, service, scope := None, None, None;
    var params := IterChallengeParams(TrimStart(rest.value));
    BearerKeysDiffer();
    for i := 0 to |params|
      invariant realm == LastOf(params[..i], Ascii("realm"))
      invariant service == LastOf(params[..i], Ascii("service"))
      invariant scope == LastOf(params[..i], Ascii("scope"))
    {
      assert params[..i + 1][..i] == params[..i];
      var (k, v) := params[i];
      if k == Ascii("realm") {
        realm := Some(v);
      } else if k == Ascii("service") {
        service := Some(v);
      } else if k == Ascii("scope") {
        scope := Some(v);
      }
    }
    assert params[..|params|] == params;
    if realm.None? {
      return None;
    }
    r := Some(BearerChallenge(realm.value, service, scope));
  }

  lemma BearerKeysDiffer()
    ensures Ascii("realm") != Ascii("service") && Ascii("realm") != Ascii("scope") && Ascii("service") != Ascii("scope")
  {
    assert Ascii("service")[1] == 101 && Ascii("scope")[1] == 99;
  }

  lemma BearerPrefix()
    ensures |Ascii("Bearer ")| == 7 && Ascii("Bearer") <= Ascii("Bearer ") && Ascii("Bearer ")[0] == 66
    ensures Ascii("Bearer ")[6..] == [SPACE]
  {}

  /** A trimmed list of parameters behind `Bearer ` is understood: a challenge when
      some parameter is named `realm`, with the last one of each name. */
  lemma {:induction false} BearerRoundTrip(ps: seq<Param>, ows: Text)
    requires SeparatorsFrom(ows, 0) && (forall p :: p in ps ==> Renderable(p)) && ps != []
    requires ps[0].key != [] && SpaceAtEnd(Render(ps, ows)) == 0
    ensures Bearer(Ascii("Bearer ") + Render(ps, ows)) ==
      match LastOf(Pairs(ps), Ascii("realm"))
      case None => None
      case Some(realm) =>
        Some(BearerChallenge(realm, LastOf(Pairs(ps), Ascii("service")), LastOf(Pairs(ps), Ascii("scope"))))
  {
    hide Params, Render, Pairs, Trim, TrimStart, LastOf, StripBearer, SpaceAtEnd, Ascii, PlainKey;
    var body := Render(ps, ows);
    var header := Ascii("Bearer ") + body;
    assert Renderable(ps[0]);
    FirstByte(ps, ows);
    BearerTrim(header, body);
    assert ([SPACE] + body)[0] == SPACE;
    RenderRoundTrip(ps, ows);
  }

  lemma FirstByte(ps: seq<Param>, ows: Text)
    requires ps != [] && ps[0].key != [] && PlainKey(ps[0].key)
    ensures Render(ps, ows) != [] && 33 <= Render(ps, ows)[0] <= 126
  {
    assert Render(ps, ows)[0] == ps[0].key[0];
  }

  lemma BearerTrim(header: Text, body: Text)
    requires header == Ascii("Bearer ") + body && body != [] && 33 <= body[0] <= 126 && SpaceAtEnd(body) == 0
    ensures StripBearer(Trim(header)) == Some([SPACE] + body) && TrimStart([SPACE] + body) == body
  {
    BearerPrefix();
    assert header[0] == 66 && SpaceAtStart(header) == 0;
    EndOfTail(Ascii("Bearer "), body);
    assert Trim(header) == header;
    assert header[6..] == [SPACE] + body;
    assert ([SPACE] + body)[1..] == body && SpaceAtStart(body) == 0;
  }

  lemma EndOfTail(pre: Text, body: Text)
    requires body != [] && SpaceAtEnd(body) == 0 && 33 <= body[0] <= 126
    ensures SpaceAtEnd(pre + body) == 0
  {
    var s := pre + body;
    assert s[|s| - 1] == body[|body| - 1];
    assert |body| >= 2 ==> s[|s| - 2] == body[|body| - 2];
    assert |body| >= 3 ==> s[|s| - 3] == body[|body| - 3];
  }
}
