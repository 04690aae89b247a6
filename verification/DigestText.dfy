/** A 32-byte SHA-256 digest and its `sha256:<64 hex digits>` text form (src/digest.rs). */
module DigestText {
  import opened Prelude

  type Bytes32 = s: Bytes | |s| == 32 witness seq(32, _ => 0)

  datatype Digest = Digest(raw: Bytes32)

  const PREFIX: Text := Ascii("sha256:")

  const DIGEST_TEXT_LENGTH: nat := 71

  /** `char::to_digit(16)`: both letter cases are accepted. */
  function HexValue(c: byte): Option<nat> {
    if 48 <= c <= 57 then Some(c - 48)
    else if 97 <= c <= 102 then Some(c - 87)
    else if 65 <= c <= 70 then Some(c - 55)
    else None
  }

  /** The digit `{:x}` prints for `n`: always lower case. */
  function HexDigit(n: nat): byte
    requires n < 16
  {
    if n < 10 then n + 48 else n + 87
  }

  function LowerHex(c: byte): byte {
    if 65 <= c <= 70 then c + 32 else c
  }

  predicate IsDigestText(s: Text) {
    && |s| == DIGEST_TEXT_LENGTH
    && s[..7] == PREFIX
    && forall i :: 7 <= i < DIGEST_TEXT_LENGTH ==> HexValue(s[i]).Some?
  }

  function ByteAt(s: Text, i: nat): byte
    requires IsDigestText(s) && i < 32
  {
    HexValue(s[7 + 2 * i]).value * 16 + HexValue(s[8 + 2 * i]).value
  }

  /** What `str::parse::<Digest>()` returns. */
  function Parse(s: Text): Option<Digest> {
    if IsDigestText(s) then
      Some(Digest(seq(32, i requires 0 <= i < 32 => ByteAt(s, i))))
    else
      None
  }

  /** The `j`-th hex digit of a digest: high half of a byte, then low half. */
  function DigitAt(d: Digest, j: nat): byte
    requires j < 64
  {
    HexDigit(if j % 2 == 0 then d.raw[j / 2] / 16 else d.raw[j / 2] % 16)
  }

  /** What `Digest::to_string()` returns. */
  function Print(d: Digest): Text {
    PREFIX + seq(64, j requires 0 <= j < 64 => DigitAt(d, j))
  }

  /** `from_str`: strip the prefix, check the length, fill the array pair by pair. */
  method FromStr(s: Text) returns (r: Option<Digest>)
    ensures r == Parse(s)
  {
    if |s| < 7 || s[..7] != PREFIX {
      return None;
    }
    var hex := s[7..];
    if |hex| != 64 {
      return None;
    }
    var out := new byte[32](_ => 0);
    var i := 0;
    while i < 32
      invariant 0 <= i <= 32
      invariant forall j :: 7 <= j < 7 + 2 * i ==> HexValue(s[j]).Some?
      invariant forall j :: 0 <= j < i ==> HexValue(s[7 + 2 * j]).Some? && HexValue(s[8 + 2 * j]).Some?
      invariant forall j :: 0 <= j < i ==> out[j] == HexValue(s[7 + 2 * j]).value * 16 + HexValue(s[8 + 2 * j]).value
    {
      var hi := HexValue(hex[2 * i]);
      if hi.None? {
        assert HexValue(s[7 + 2 * i]).None?;
        return None;
      }
      var lo := HexValue(hex[2 * i + 1]);
      if lo.None? {
        assert HexValue(s[8 + 2 * i]).None?;
        return None;
      }
      out[i] := hi.value * 16 + lo.value;
      i := i + 1;
    }
    assert IsDigestText(s);
    assert out[..] == Parse(s).value.raw;
    r := Some(Digest(out[..]));
  }

  /** `fmt`: write the prefix, then two digits per byte. */
  method Display(d: Digest) returns (t: Text)
    ensures t == Print(d)
  {
    t := PREFIX;
    ghost var digits := [];
    for i := 0 to 32
      invariant |digits| == 2 * i && t == PREFIX + digits
      invariant forall j :: 0 <= j < 2 * i ==> digits[j] == DigitAt(d, j)
    {
      ghost var more := [HexDigit(d.raw[i] / 16), HexDigit(d.raw[i] % 16)];
      assert DigitAt(d, 2 * i) == more[0] && DigitAt(d, 2 * i + 1) == more[1];
      t := t + [HexDigit(d.raw[i] / 16), HexDigit(d.raw[i] % 16)];
      assert t == PREFIX + (digits + more);
      digits := digits + more;
    }
    assert digits == seq(64, j requires 0 <= j < 64 => DigitAt(d, j));
  }

  lemma HexRoundTrip(n: nat)
    requires n < 16
    ensures HexValue(HexDigit(n)) == Some(n)
  {}

  lemma PrintedDigits(d: Digest)
    ensures IsDigestText(Print(d))
    ensures forall j :: 0 <= j < 64 ==> Print(d)[7 + j] == DigitAt(d, j)
  {
    var t := Print(d);
    forall i | 7 <= i < DIGEST_TEXT_LENGTH ensures HexValue(t[i]).Some? {
      assert t[i] == DigitAt(d, i - 7);
    }
  }

  lemma PrintedByte(d: Digest, i: nat)
    requires i < 32 && IsDigestText(Print(d))
    ensures ByteAt(Print(d), i) == d.raw[i]
  {
    hide HexValue, HexDigit;
    PrintedDigits(d);
    var t := Print(d);
    assert t[7 + 2 * i] == DigitAt(d, 2 * i) && t[7 + (2 * i + 1)] == DigitAt(d, 2 * i + 1);
    HexRoundTrip(d.raw[i] / 16);
    HexRoundTrip(d.raw[i] % 16);
  }

  /** Parsing inverts printing. */
  lemma {:induction false} ParsePrint(d: Digest)
    ensures Parse(Print(d)) == Some(d)
  {
    hide IsDigestText, ByteAt, Print;
    PrintedDigits(d);
    forall i | 0 <= i < 32 ensures ByteAt(Print(d), i) == d.raw[i] {
      PrintedByte(d, i);
    }
    assert Parse(Print(d)).value.raw == d.raw;
  }

  /** Distinct digests print differently. */
  lemma {:induction false} PrintInjective(d: Digest, e: Digest)
    requires Print(d) == Print(e)
    ensures d == e
  {
    ParsePrint(d);
    ParsePrint(e);
  }

  lemma LowerHexDigits(hi: byte, lo: byte)
    requires HexValue(hi).Some? && HexValue(lo).Some?
    ensures var b := HexValue(hi).value * 16 + HexValue(lo).value;
      HexDigit(b / 16) == LowerHex(hi) && HexDigit(b % 16) == LowerHex(lo)
  {}

  /** Printing inverts parsing up to the case of the hex digits. */
  lemma {:induction false} PrintParse(s: Text, i: nat)
    requires Parse(s).Some? && i < DIGEST_TEXT_LENGTH
    ensures Print(Parse(s).value)[i] == if i < 7 then s[i] else LowerHex(s[i])
  {
    hide HexValue, HexDigit, LowerHex;
    var d := Parse(s).value;
    PrintedDigits(d);
    if i < 7 {
      assert PREFIX[i] == s[..7][i];
    } else {
      var j := (i - 7) / 2;
      assert d.raw[j] == ByteAt(s, j);
      assert Print(d)[7 + (i - 7)] == DigitAt(d, i - 7);
      LowerHexDigits(s[7 + 2 * j], s[8 + 2 * j]);
    }
  }

  /** A text is a digest if and only if it is `sha256:` and 64 hexadecimal digits, in
      either letter case. */
  lemma {:induction false} ParsesIff(s: Text)
    ensures Parse(s).Some? <==>
      && |s| == 71 && s[..7] == Ascii("sha256:")
      && forall i :: 7 <= i < 71 ==> 48 <= s[i] <= 57 || 65 <= s[i] <= 70 || 97 <= s[i] <= 102
  {
    hide ByteAt;
  }

  /** A digest prints as `sha256:` and 64 lower-case hexadecimal digits. */
  lemma {:induction false} PrintedForm(d: Digest)
    ensures |Print(d)| == 71 && Print(d)[..7] == Ascii("sha256:")
    ensures forall i :: 7 <= i < 71 ==> 48 <= Print(d)[i] <= 57 || 97 <= Print(d)[i] <= 102
  {
    PrintedDigits(d);
    forall i | 7 <= i < 71 ensures 48 <= Print(d)[i] <= 57 || 97 <= Print(d)[i] <= 102 {
      assert Print(d)[7 + (i - 7)] == DigitAt(d, i - 7);
    }
  }
}
