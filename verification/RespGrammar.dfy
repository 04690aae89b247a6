/** Exactly which bytes are a command (src/redis.rs:255-327): the framing accepts nothing
    but the grammar below, and all of it. */
module RespGrammar {
  import opened Prelude
  import opened Resp

  // ---- Numbers

  function Zeros(k: nat): (z: Bytes)
    ensures |z| == k
  {
    seq(k, _ => 48)
  }

  lemma {:induction false} DecimalHasNoZeros(n: nat)
    ensures Decimal(n)[0] == 48 ==> n == 0 && |Decimal(n)| == 1
  {
    if n >= 10 {
      DecimalHasNoZeros(n / 10);
    }
  }

  lemma DecimalGrows(v: nat, c: byte)
    requires v > 0 && IsDigit(c)
    ensures Decimal(10 * v + (c - 48)) == Decimal(v) + [c]
  {}

  /** A string of digits is some zeros and the printed form of its value. */
  lemma {:induction false} DigitsAreZerosAndNumber(ds: Bytes) returns (k: nat)
    requires ds != [] && forall i :: 0 <= i < |ds| ==> IsDigit(ds[i])
    ensures ds == Zeros(k) + Decimal(DecimalValue(ds))
    decreases |ds|
  {
    var n := |ds| - 1;
    var init, c := ds[..n], ds[n];
    assert ds == init + [c];
    if init == [] {
      k := 0;
      assert DecimalValue(ds) == c - 48;
    } else {
      var j := DigitsAreZerosAndNumber(init);
      var v := DecimalValue(init);
      assert DecimalValue(ds) == 10 * v + (c - 48);
      if v == 0 {
        k := j + 1;
        assert Decimal(0) == [48];
        assert Zeros(j) + [48] == Zeros(j + 1);
      } else {
        k := j;
        DecimalGrows(v, c);
        assert Zeros(j) + Decimal(v) + [c] == Zeros(j) + (Decimal(v) + [c]);
      }
    }
  }

  lemma {:induction false} ZerosCountNothing(k: nat, ds: Bytes)
    requires forall i :: 0 <= i < |ds| ==> IsDigit(ds[i])
    ensures forall i :: 0 <= i < |Zeros(k) + ds| ==> IsDigit((Zeros(k) + ds)[i])
    ensures DecimalValue(Zeros(k) + ds) == DecimalValue(ds)
    decreases k + |ds|
  {
    var all := Zeros(k) + ds;
    if ds != [] {
      assert all[..|all| - 1] == Zeros(k) + ds[..|ds| - 1];
      ZerosCountNothing(k, ds[..|ds| - 1]);
    } else if k > 0 {
      assert all[..|all| - 1] == Zeros(k - 1) + [];
      ZerosCountNothing(k - 1, []);
    }
  }

  /** A length is an optional plus sign, any number of zeros and a printed number below
      2 to the 64, and nothing else. */
  lemma {:induction false} LengthIff(s: Bytes, n: nat)
    ensures ParseLen(s) == Some(n) <==>
      n < 0x1_0000_0000_0000_0000
      && exists k: nat :: s == Zeros(k) + Decimal(n) || s == [43] + (Zeros(k) + Decimal(n))
  {
    hide DecimalValue, Decimal;
    if ParseLen(s) == Some(n) {
      var digits := Unsigned(s);
      var k := DigitsAreZerosAndNumber(digits);
      assert s == digits || s == [43] + digits;
    }
    if k: nat :| s == Zeros(k) + Decimal(n) || s == [43] + (Zeros(k) + Decimal(n)) {
      var digits := Zeros(k) + Decimal(n);
      ZerosCountNothing(k, Decimal(n));
      assert s == [43] + digits ==> s[1..] == digits;
      assert IsDigit(digits[0]);
    }
  }

  // ---- Lines

  /** A line is what stands before the first line feed, if that follows a carriage return. */
  lemma {:induction false} HeaderIff(input: Bytes, pos: nat, line: Bytes, next: nat)
    requires pos <= |input|
    ensures ReadHeader(input, pos) == Header(line, next) <==>
      next == pos + |line| + 2 && next <= |input| && input[pos..next] == line + [13, 10] && 10 !in line
  {
    var end := NewlineAt(input, pos);
    if ReadHeader(input, pos) == Header(line, next) {
      assert input[pos..next] == line + [13, 10];
      forall i | 0 <= i < |line| ensures line[i] != 10 {
        assert line[i] == input[pos + i];
      }
    }
    if next == pos + |line| + 2 && next <= |input| && input[pos..next] == line + [13, 10] && 10 !in line {
      LineEndsAt(input, pos, line);
    }
  }

  lemma LineEndsAt(input: Bytes, pos: nat, line: Bytes)
    requires pos + |line| + 2 <= |input| && input[pos..pos + |line| + 2] == line + [13, 10] && 10 !in line
    ensures NewlineAt(input, pos) == pos + |line| + 1
    ensures ReadHeader(input, pos) == Header(line, pos + |line| + 2)
  {
    var text, end := input[pos..pos + |line| + 2], pos + |line| + 1;
    forall i | pos <= i < end ensures input[i] != LF {
      assert input[i] == text[i - pos];
    }
    assert input[end] == text[|line| + 1] && input[end - 1] == text[|line|];
    NewlineIs(input, pos, end);
    assert input[pos..end - 1] == text[..|line|] == line;
  }

  // ---- Bulk strings

  /** `text` is a bulk string: a dollar sign, the length of `arg`, and `arg`, each with its
      line end. */
  ghost predicate IsBulk(text: Bytes, arg: Bytes) {
    exists digits :: text == BulkText(digits, arg) && 10 !in digits && ParseLen(digits) == Some(|arg|)
  }

  function BulkText(digits: Bytes, arg: Bytes): (text: Bytes)
    ensures |text| == |digits| + |arg| + 5
  {
    ([36] + digits + [13, 10]) + (arg + [13, 10])
  }

  lemma BulkTextParts(input: Bytes, pos: nat, digits: Bytes, arg: Bytes)
    requires pos + |digits| + |arg| + 5 <= |input|
    ensures var next := pos + |digits| + 3;
      input[pos..next + |arg| + 2] == BulkText(digits, arg) <==>
        && input[pos..next] == ([36] + digits) + [13, 10]
        && input[next..next + |arg|] == arg && input[next + |arg|..next + |arg| + 2] == [13, 10]
  {
    var next := pos + |digits| + 3;
    var text := input[pos..next + |arg| + 2];
    var a, b, c := input[pos..next], input[next..next + |arg|], input[next + |arg|..next + |arg| + 2];
    assert text == a + (b + c);
    var head := [36] + digits + [13, 10];
    if text == BulkText(digits, arg) {
      assert a == text[..|head|] == head;
      assert b + c == text[|head|..] == arg + [13, 10];
      assert b == (b + c)[..|arg|] && c == (b + c)[|arg|..];
    }
  }

  /** The bulk reader accepts bulk strings and nothing else. */
  lemma {:induction false} BulkIff(input: Bytes, pos: nat, arg: Bytes, next: nat)
    requires pos <= |input|
    ensures ReadBulk(input, pos) == Bulk(arg, next) <==> pos <= next <= |input| && IsBulk(input[pos..next], arg)
  {
    hide ReadHeader, ParseLen, BulkText;
    if ReadBulk(input, pos) == Bulk(arg, next) {
      var h := ReadHeader(input, pos);
      HeaderIff(input, pos, h.line, h.next);
      var digits := h.line[1..];
      assert h.line == [36] + digits;
      BulkTextParts(input, pos, digits, arg);
      assert 10 !in digits;
      assert IsBulk(input[pos..next], arg);
    }
    if pos <= next <= |input| && IsBulk(input[pos..next], arg) {
      var digits :| input[pos..next] == BulkText(digits, arg) && 10 !in digits && ParseLen(digits) == Some(|arg|);
      BulkTextParts(input, pos, digits, arg);
      HeaderIff(input, pos, [36] + digits, pos + |digits| + 3);
      assert ([36] + digits)[1..] == digits;
    }
  }

  /** `text` is bulk strings of `args`, one after the other. */
  ghost predicate AreBulks(text: Bytes, args: seq<Bytes>)
    decreases |args|
  {
    if args == [] then text == []
    else exists i :: 0 <= i <= |text| && IsBulk(text[..i], args[0]) && AreBulks(text[i..], args[1..])
  }

  lemma {:induction false} BulksIff(
      input: Bytes, pos: nat, n: nat, done: seq<Bytes>, args: seq<Bytes>, next: nat)
    requires pos <= |input|
    ensures ReadBulks(input, pos, n, done) == Bulks(done + args, next) && |args| == n <==>
      |args| == n && pos <= next <= |input| && AreBulks(input[pos..next], args)
    decreases n
  {
    hide ReadBulk, IsBulk;
    if n == 0 {
      assert args == [] ==> done + args == done;
    } else if |args| == n {
      BulksStep(input, pos, n, done, args, next);
    }
  }

  /** The first of several bulk strings, and the others. */
  lemma FirstBulk(input: Bytes, pos: nat, mid: nat, next: nat, args: seq<Bytes>)
    requires pos <= mid <= next <= |input| && args != []
    requires IsBulk(input[pos..mid], args[0]) && AreBulks(input[mid..next], args[1..])
    ensures AreBulks(input[pos..next], args)
  {
    hide IsBulk;
    var text, i := input[pos..next], mid - pos;
    assert text[..i] == input[pos..mid] && text[i..] == input[mid..next];
  }

  lemma FirstBulkOf(input: Bytes, pos: nat, next: nat, args: seq<Bytes>) returns (mid: nat)
    requires pos <= next <= |input| && args != [] && AreBulks(input[pos..next], args)
    ensures pos <= mid <= next && IsBulk(input[pos..mid], args[0]) && AreBulks(input[mid..next], args[1..])
  {
    hide IsBulk;
    var text := input[pos..next];
    var i :| 0 <= i <= |text| && IsBulk(text[..i], args[0]) && AreBulks(text[i..], args[1..]);
    assert text[..i] == input[pos..pos + i] && text[i..] == input[pos + i..next];
    mid := pos + i;
  }

  lemma {:induction false} BulksStep(
      input: Bytes, pos: nat, n: nat, done: seq<Bytes>, args: seq<Bytes>, next: nat)
    requires pos <= |input| && |args| == n > 0
    ensures ReadBulks(input, pos, n, done) == Bulks(done + args, next) <==>
      pos <= next <= |input| && AreBulks(input[pos..next], args)
    decreases n, 0
  {
    hide ReadBulk, IsBulk, AreBulks;
    var first, tail := args[0], args[1..];
    assert done + args == done + [first] + tail;
    if ReadBulks(input, pos, n, done) == Bulks(done + args, next) {
      var b := ReadBulk(input, pos);
      LongerBy(input, b.next, n - 1, done + [b.arg]);
      assert (done + args)[|done|] == first && (done + [b.arg])[|done|] == b.arg;
      BulkIff(input, pos, first, b.next);
      BulksIff(input, b.next, n - 1, done + [first], tail, next);
      FirstBulk(input, pos, b.next, next, args);
    }
    if pos <= next <= |input| && AreBulks(input[pos..next], args) {
      var mid := FirstBulkOf(input, pos, next, args);
      BulkIff(input, pos, first, mid);
      BulksIff(input, mid, n - 1, done + [first], tail, next);
    }
  }

  lemma {:induction false} LongerBy(input: Bytes, pos: nat, n: nat, done: seq<Bytes>)
    requires pos <= |input|
    ensures var r := ReadBulks(input, pos, n, done);
      r.Bulks? ==> |r.args| == |done| + n && r.args[..|done|] == done
    decreases n
  {
    hide ReadBulk;
    if n > 0 && ReadBulk(input, pos).Bulk? {
      var b := ReadBulk(input, pos);
      LongerBy(input, b.next, n - 1, done + [b.arg]);
      var r := ReadBulks(input, pos, n, done);
      if r.Bulks? {
        assert r.args[..|done|] == r.args[..|done| + 1][..|done|];
      }
    }
  }

  // ---- Commands

  /** `text` is an array of bulk strings: a star, the number of `args`, and `args`. */
  ghost predicate IsArray(text: Bytes, args: seq<Bytes>) {
    exists digits: Bytes, i: nat ::
      && i <= |text| && text[..i] == ([42] + digits) + [13, 10] && 10 !in digits
      && ParseLen(digits) == Some(|args|) && AreBulks(text[i..], args)
  }

  /** On a stream that goes on with a star, the reader takes a command exactly if an array of
      bulk strings comes next, and takes exactly that. */
  lemma {:induction false} ArrayIff(inline: Tokenizer, input: Bytes, pos: nat, args: seq<Bytes>, next: nat)
    requires pos < |input| && input[pos] == 42
    ensures ReadCommand(inline, input, pos) == Command(args, next) <==>
      pos <= next <= |input| && IsArray(input[pos..next], args)
  {
    hide ReadHeader, ParseLen, AreBulks, ReadBulks;
    if ReadCommand(inline, input, pos) == Command(args, next) {
      var h := ReadHeader(input, pos);
      HeaderIff(input, pos, h.line, h.next);
      StarLine(input, pos, h.line, h.next);
      var digits := h.line[1..];
      LongerBy(input, h.next, ParseLen(digits).value, []);
      BulksIff(input, h.next, |args|, [], args, next);
      assert [] + args == args;
      var text, i := input[pos..next], h.next - pos;
      assert text[..i] == input[pos..h.next] && text[i..] == input[h.next..next];
      assert IsArray(text, args);
    }
    if pos <= next <= |input| && IsArray(input[pos..next], args) {
      var text := input[pos..next];
      var digits: Bytes, i: nat :|
        && i <= |text| && text[..i] == ([42] + digits) + [13, 10] && 10 !in digits
        && ParseLen(digits) == Some(|args|) && AreBulks(text[i..], args);
      assert text[..i] == input[pos..pos + i] && text[i..] == input[pos + i..next];
      HeaderIff(input, pos, [42] + digits, pos + i);
      assert ([42] + digits)[1..] == digits && ([42] + digits)[0] == 42;
      BulksIff(input, pos + i, |args|, [], args, next);
      assert [] + args == args;
    }
  }

  lemma StarLine(input: Bytes, pos: nat, line: Bytes, next: nat)
    requires pos < next <= |input| && next == pos + |line| + 2 && input[pos] == 42
    requires input[pos..next] == line + [13, 10] && 10 !in line
    ensures line != [] && line == [42] + line[1..] && 10 !in line[1..]
  {
    assert (line + [13, 10])[0] == input[pos..next][0] == 42;
    LineFirst(line);
  }

  lemma LineFirst(line: Bytes)
    ensures (line + [13, 10])[0] == if line == [] then 13 else line[0]
  {}

  /** On a stream that goes on with anything else, the reader takes one line: the words the
      tokenizer finds in it, or no words if it is empty. */
  lemma {:induction false} LineIff(inline: Tokenizer, input: Bytes, pos: nat, args: seq<Bytes>, next: nat)
    requires pos < |input| && input[pos] != 42
    ensures ReadCommand(inline, input, pos) == Command(args, next) <==>
      exists line :: IsLine(input, pos, line, next) && (if line == [] then args == [] else inline(line) == Some(args))
  {
    hide ReadHeader;
    if ReadCommand(inline, input, pos) == Command(args, next) {
      var h := ReadHeader(input, pos);
      HeaderIff(input, pos, h.line, h.next);
      OtherLine(input, pos, h.line, h.next);
      assert IsLine(input, pos, h.line, next);
    }
    if line :| IsLine(input, pos, line, next) && (if line == [] then args == [] else inline(line) == Some(args)) {
      HeaderIff(input, pos, line, next);
      OtherLine(input, pos, line, next);
    }
  }

  predicate IsLine(input: Bytes, pos: nat, line: Bytes, next: nat) {
    next == pos + |line| + 2 && next <= |input| && input[pos..next] == line + [13, 10] && 10 !in line
  }

  lemma OtherLine(input: Bytes, pos: nat, line: Bytes, next: nat)
    requires pos < |input| && IsLine(input, pos, line, next)
    ensures line != [] ==> line[0] == input[pos]
  {
    LineFirst(line);
    assert input[pos..next][0] == input[pos];
  }
}
