/** RESP framing (src/redis.rs:252-360): reading commands off a byte stream and
    writing replies. */
module Resp {
  import opened Prelude

  const CR: byte := 13
  const LF: byte := 10
  const CRLF: Bytes := [CR, LF]
  const STAR: byte := 42
  const DOLLAR: byte := 36
  const PLUS: byte := 43

  const USIZE_LIMIT: nat := 0x1_0000_0000_0000_0000

  datatype Error = UnexpectedEof | BadCrlf | BadLength | BadInline | ExpectedBulk | MissingCrlf

  datatype Header = NoHeader | Header(line: Bytes, next: nat) | BadHeader(error: Error)

  datatype Bulk = Bulk(arg: Bytes, next: nat) | BadBulk(error: Error)

  datatype Bulks = Bulks(args: seq<Bytes>, next: nat) | BadBulks(error: Error)

  datatype Parsed = End | Command(args: seq<Bytes>, next: nat) | Failed(error: Error)

  /** Splits an inline command at white space; `None` when it is not UTF-8. */
  type Tokenizer = Bytes -> Option<seq<Bytes>>

  // ---- Length prefixes

  predicate IsDigit(c: byte) {
    48 <= c <= 57
  }

  function DecimalValue(s: Bytes): nat
    requires forall i :: 0 <= i < |s| ==> IsDigit(s[i])
  {
    if s == [] then 0
    else
      assert IsDigit(s[|s| - 1]);
      10 * DecimalValue(s[..|s| - 1]) + (s[|s| - 1] as int - 48)
  }

  predicate AllDigits(s: Bytes) {
    forall i :: 0 <= i < |s| ==> IsDigit(s[i])
  }

  /** `s` without a leading plus sign. */
  function Unsigned(s: Bytes): Bytes {
    if |s| > 1 && s[0] == PLUS then s[1..] else s
  }

  /** `parse_len`: what `str::parse::<usize>` accepts. */
  function ParseLen(s: Bytes): Option<nat> {
    var digits := Unsigned(s);
    if digits != [] && AllDigits(digits) && DecimalValue(digits) < USIZE_LIMIT then Some(DecimalValue(digits)) else None
  }

  /** `{}` of an integer. */
  function Decimal(n: nat): (s: Bytes)
    ensures s != [] && forall i :: 0 <= i < |s| ==> IsDigit(s[i])
    ensures DecimalValue(s) == n
  {
    if n < 10 then [n + 48]
    else
      var s := Decimal(n / 10) + [n % 10 + 48];
      assert s[..|s| - 1] == Decimal(n / 10);
      s
  }

  /** A printed length parses back, whatever it is. */
  lemma {:induction false} ParseDecimal(n: nat)
    requires n < USIZE_LIMIT
    ensures ParseLen(Decimal(n)) == Some(n)
  {
    assert Decimal(n)[0] != PLUS;
  }

  // ---- What one read takes off the stream

  /** The first line feed at or after `pos`, or the end of the input. */
  function NewlineAt(input: Bytes, pos: nat): (r: nat)
    requires pos <= |input|
    ensures pos <= r <= |input|
    ensures forall i :: pos <= i < r ==> input[i] != LF
    ensures r < |input| ==> input[r] == LF
    decreases |input| - pos
  {
    if pos == |input| || input[pos] == LF then pos else NewlineAt(input, pos + 1)
  }

  function ReadHeader(input: Bytes, pos: nat): (h: Header)
    requires pos <= |input|
    ensures h.Header? ==> pos + 2 <= h.next <= |input|
  {
    var end := NewlineAt(input, pos);
    if pos == |input| then NoHeader
    else if end == |input| then BadHeader(UnexpectedEof)
    else if end == pos || input[end - 1] != CR then BadHeader(BadCrlf)
    else Header(input[pos..end - 1], end + 1)
  }

  function ReadBulk(input: Bytes, pos: nat): (b: Bulk)
    requires pos <= |input|
    ensures b.Bulk? ==> pos < b.next <= |input|
  {
    match ReadHeader(input, pos)
    case NoHeader => BadBulk(UnexpectedEof)
    case BadHeader(e) => BadBulk(e)
    case Header(line, next) =>
      if line == [] || line[0] != DOLLAR then BadBulk(ExpectedBulk)
      else
        match ParseLen(line[1..])
        case None => BadBulk(BadLength)
        case Some(len) =>
          if next + len + 2 > |input| then BadBulk(UnexpectedEof)
          else if input[next + len..next + len + 2] != CRLF then BadBulk(MissingCrlf)
          else Bulk(input[next..next + len], next + len + 2)
  }

  /** `n` bulk strings in a row, appended to `args`. */
  function ReadBulks(input: Bytes, pos: nat, n: nat, args: seq<Bytes>): (b: Bulks)
    requires pos <= |input|
    ensures b.Bulks? ==> pos <= b.next <= |input|
    decreases n
  {
    if n == 0 then Bulks(args, pos)
    else
      match ReadBulk(input, pos)
      case BadBulk(e) => BadBulks(e)
      case Bulk(arg, next) => ReadBulks(input, next, n - 1, args + [arg])
  }

  function ReadCommand(inline: Tokenizer, input: Bytes, pos: nat): (c: Parsed)
    requires pos <= |input|
    ensures c.Command? ==> pos < c.next <= |input|
  {
    match ReadHeader(input, pos)
    case NoHeader => End
    case BadHeader(e) => Failed(e)
    case Header(line, next) =>
      if line == [] then Command([], next)
      else if line[0] != STAR then
        match inline(line)
        case None => Failed(BadInline)
        case Some(tokens) => Command(tokens, next)
      else
        match ParseLen(line[1..])
        case None => Failed(BadLength)
        case Some(n) =>
          match ReadBulks(input, next, n, [])
          case BadBulks(e) => Failed(e)
          case Bulks(args, end) => Command(args, end)
  }

  /** All commands up to the end of the stream or the first error. */
  function ReadAll(inline: Tokenizer, input: Bytes, pos: nat): (seq<seq<Bytes>>, Parsed)
    requires pos <= |input|
    decreases |input| - pos
  {
    match ReadCommand(inline, input, pos)
    case Command(args, next) =>
      var rest := ReadAll(inline, input, next);
      ([args] + rest.0, rest.1)
    case other => ([], other)
  }

  // ---- The reader and the writer

  /** The buffered connection: `pos` bytes of `input` have been consumed. */
  class Reader {
    const input: Bytes
    var pos: nat

    ghost predicate Valid()
      reads this
    {
      pos <= |input|
    }

    constructor (input: Bytes)
      ensures Valid() && this.input == input && pos == 0
    {
      this.input := input;
      pos := 0;
    }

    /** `read_until(b'\n')`. */
    method ReadUntilNewline() returns (buf: Bytes)
      requires Valid()
      modifies this
      ensures Valid()
      ensures var end := NewlineAt(input, old(pos));
        pos == (if end < |input| then end + 1 else end) && buf == input[old(pos)..pos]
    {
      var start := pos;
      while pos < |input| && input[pos] != LF
        invariant start <= pos <= |input|
        invariant NewlineAt(input, start) == NewlineAt(input, pos)
      {
        pos := pos + 1;
      }
      if pos < |input| {
        pos := pos + 1;
      }
      buf := input[start..pos];
    }

    /** `read_exact`. */
    method ReadExact(n: nat) returns (r: Option<Bytes>)
      requires Valid()
      modifies this
      ensures Valid()
      ensures old(pos) + n > |input| ==> r == None
      ensures old(pos) + n <= |input| ==> pos == old(pos) + n && r == Some(input[old(pos)..pos])
    {
      if n > |input| - pos {
        pos := |input|;
        return None;
      }
      pos := pos + n;
      r := Some(input[pos - n..pos]);
    }

    method ReadHeaderLine() returns (r: Result<Option<Bytes>, Error>)
      requires Valid()
      modifies this
      ensures Valid()
      ensures match ReadHeader(input, old(pos))
        case NoHeader => r == Ok(None)
        case BadHeader(e) => r == Err(e)
        case Header(line, next) => r == Ok(Some(line)) && pos == next
    {
      var buf := ReadUntilNewline();
      if |buf| == 0 {
        return Ok(None);
      }
      if buf[|buf| - 1] != LF {
        return Err(UnexpectedEof);
      }
      if |buf| < 2 || buf[|buf| - 2] != CR {
        return Err(BadCrlf);
      }
      assert buf[..|buf| - 2] == input[old(pos)..pos - 2];
      r := Ok(Some(buf[..|buf| - 2]));
    }

    /** One bulk string of an array: its header, its bytes, its CRLF. */
    method ReadBulkString() returns (r: Result<Bytes, Error>)
      requires Valid()
      modifies this
      ensures Valid()
      ensures match ReadBulk(input, old(pos))
        case BadBulk(e) => r == Err(e)
        case Bulk(arg, next) => r == Ok(arg) && pos == next
    {
      hide ReadHeader, ParseLen;
      var h := ReadHeaderLine();
      if h.Err? {
        return Err(h.error);
      }
      if h.value.None? {
        return Err(UnexpectedEof);
      }
      var header := h.value.value;
      if header == [] || header[0] != DOLLAR {
        return Err(ExpectedBulk);
      }
      var len := ParseLen(header[1..]);
      if len.None? {
        return Err(BadLength);
      }
      var buf := ReadExact(len.value);
      if buf.None? {
        return Err(UnexpectedEof);
      }
      var crlf := ReadExact(2);
      if crlf.None? {
        return Err(UnexpectedEof);
      }
      if crlf.value != CRLF {
        return Err(MissingCrlf);
      }
      r := Ok(buf.value);
    }

    /** `read_command`. On an error the connection is closed, so nothing is said of `pos`. */
    method Read(inline: Tokenizer) returns (r: Result<Option<seq<Bytes>>, Error>)
      requires Valid()
      modifies this
      ensures Valid()
      ensures match ReadCommand(inline, input, old(pos))
        case End => r == Ok(None)
        case Failed(e) => r == Err(e)
        case Command(args, next) => r == Ok(Some(args)) && pos == next
    {
      hide ReadHeader, ReadBulk, ParseLen;
      var line := ReadHeaderLine();
      if line.Err? {
        return Err(line.error);
      }
      if line.value.None? {
        return Ok(None);
      }
      var text := line.value.value;
      if text == [] {
        return Ok(Some([]));
      }
      if text[0] != STAR {
        var tokens := inline(text);
        if tokens.None? {
          return Err(BadInline);
        }
        return Ok(tokens);
      }
      var n := ParseLen(text[1..]);
      if n.None? {
        return Err(BadLength);
      }
      var args := [];
      ghost var start := pos;
      for i := 0 to n.value
        invariant Valid()
        invariant ReadBulks(input, start, n.value, []) == ReadBulks(input, pos, n.value - i, args)
      {
        var bulk := ReadBulkString();
        if bulk.Err? {
          return Err(bulk.error);
        }
        args := args + [bulk.value];
      }
      r := Ok(Some(args));
    }
  }

  function BulkString(b: Bytes): Bytes {
    [DOLLAR] + Decimal(|b|) + CRLF + b + CRLF
  }

  const NIL: Bytes := [DOLLAR, 45, 49] + CRLF

  class Writer {
    var out: Bytes

    constructor ()
      ensures out == []
    {
      out := [];
    }

    method WriteAll(b: Bytes)
      modifies this
      ensures out == old(out) + b
    {
      out := out + b;
    }

    method WriteBulk(b: Bytes)
      modifies this
      ensures out == old(out) + BulkString(b)
    {
      WriteAll([DOLLAR] + Decimal(|b|) + CRLF);
      WriteAll(b);
      WriteAll(CRLF);
    }

    method WriteNil()
      modifies this
      ensures out == old(out) + NIL
    {
      WriteAll(NIL);
    }
  }

  // ---- Encoded commands

  /** The body of an array of bulk strings. */
  function BulkStrings(args: seq<Bytes>): Bytes {
    if args == [] then [] else BulkString(args[0]) + BulkStrings(args[1..])
  }

  /** A command as an array of bulk strings. */
  function Encode(args: seq<Bytes>): Bytes {
    [STAR] + Decimal(|args|) + CRLF + BulkStrings(args)
  }

  function EncodeAll(commands: seq<seq<Bytes>>): Bytes {
    if commands == [] then [] else Encode(commands[0]) + EncodeAll(commands[1..])
  }

  /** Lengths fit the source's `usize`. */
  predicate Encodable(args: seq<Bytes>) {
    |args| < USIZE_LIMIT && forall i :: 0 <= i < |args| ==> |args[i]| < USIZE_LIMIT
  }

  lemma NewlineIs(input: Bytes, pos: nat, end: nat)
    requires pos <= end < |input| && input[end] == LF && forall i :: pos <= i < end ==> input[i] != LF
    ensures NewlineAt(input, pos) == end
  {}

  /** A header line made of a type byte and a length is read back. */
  lemma HeaderReads(pre: Bytes, kind: byte, n: nat, rest: Bytes)
    requires kind != LF
    ensures var input := pre + ([kind] + Decimal(n) + CRLF) + rest;
      ReadHeader(input, |pre|) == Header([kind] + Decimal(n), |pre| + |Decimal(n)| + 3)
  {
    var digits := Decimal(n);
    var input := pre + ([kind] + digits + CRLF) + rest;
    var end := |pre| + |digits| + 2;
    assert input[|pre|] == kind && input[end] == LF && input[end - 1] == CR;
    forall i | |pre| <= i < end ensures input[i] != LF {
      assert |pre| < i < end - 1 ==> input[i] == digits[i - |pre| - 1];
    }
    NewlineIs(input, |pre|, end);
    assert input[|pre|..end - 1] == [kind] + digits;
  }

  lemma BulkParts(pre: Bytes, head: Bytes, b: Bytes, rest: Bytes)
    ensures var input := pre + (head + b + CRLF) + rest;
      var next := |pre| + |head|;
      && input == pre + head + (b + CRLF + rest)
      && |input| >= next + |b| + 2
      && input[next..next + |b|] == b && input[next + |b|..next + |b| + 2] == CRLF
  {}

  /** What `write_bulk` writes is read back as one bulk string, whatever its bytes. */
  lemma {:induction false} BulkRoundTrip(pre: Bytes, b: Bytes, rest: Bytes)
    requires |b| < USIZE_LIMIT
    ensures ReadBulk(pre + BulkString(b) + rest, |pre|) == Bulk(b, |pre| + |BulkString(b)|)
  {
    hide ReadHeader, ParseLen, Decimal, DecimalValue;
    HeaderReads(pre, DOLLAR, |b|, b + CRLF + rest);
    BulkParts(pre, [DOLLAR] + Decimal(|b|) + CRLF, b, rest);
    assert ([DOLLAR] + Decimal(|b|))[1..] == Decimal(|b|);
    ParseDecimal(|b|);
  }

  lemma {:induction false} BulksRoundTrip(pre: Bytes, args: seq<Bytes>, rest: Bytes, done: seq<Bytes>)
    requires Encodable(args)
    ensures ReadBulks(pre + BulkStrings(args) + rest, |pre|, |args|, done) ==
      Bulks(done + args, |pre| + |BulkStrings(args)|)
    decreases |args|
  {
    hide BulkString, ReadBulk;
    if args == [] {
      assert done + args == done;
    } else {
      var head, tail := BulkString(args[0]), BulkStrings(args[1..]);
      BulkRoundTrip(pre, args[0], tail + rest);
      BulksRoundTrip(pre + head, args[1..], rest, done + [args[0]]);
      assert pre + BulkStrings(args) + rest == pre + head + (tail + rest) == (pre + head) + tail + rest;
      assert done + [args[0]] + args[1..] == done + args;
    }
  }

  /** An encoded command is read back exactly, and nothing behind it is touched. */
  lemma {:induction false} CommandRoundTrip(inline: Tokenizer, pre: Bytes, args: seq<Bytes>, rest: Bytes)
    requires Encodable(args)
    ensures ReadCommand(inline, pre + Encode(args) + rest, |pre|) == Command(args, |pre| + |Encode(args)|)
  {
    hide ReadHeader, ReadBulks, BulkStrings, Decimal;
    var head, body := [STAR] + Decimal(|args|) + CRLF, BulkStrings(args);
    assert pre + Encode(args) + rest == pre + head + (body + rest) == (pre + head) + body + rest;
    HeaderReads(pre, STAR, |args|, body + rest);
    BulksRoundTrip(pre + head, args, rest, []);
    assert ([STAR] + Decimal(|args|))[1..] == Decimal(|args|);
    ParseDecimal(|args|);
    assert [] + args == args;
  }

  /** Framing: a stream of encoded commands is read as exactly those commands,
      in order, up to a clean end of the stream. */
  lemma {:induction false} StreamRoundTrip(inline: Tokenizer, pre: Bytes, commands: seq<seq<Bytes>>)
    requires forall i :: 0 <= i < |commands| ==> Encodable(commands[i])
    ensures ReadAll(inline, pre + EncodeAll(commands), |pre|) == (commands, End)
    decreases |commands|
  {
    hide ReadCommand, Encode;
    var input := pre + EncodeAll(commands);
    if commands == [] {
      EndOfInput(inline, input);
    } else {
      var head, tail := Encode(commands[0]), EncodeAll(commands[1..]);
      CommandRoundTrip(inline, pre, commands[0], tail);
      StreamRoundTrip(inline, pre + head, commands[1..]);
      assert input == pre + head + tail;
      assert [commands[0]] + commands[1..] == commands;
    }
  }

  lemma EndOfInput(inline: Tokenizer, input: Bytes)
    ensures ReadCommand(inline, input, |input|) == End
  {}

  /** A present value, even an empty one, never looks like the nil reply. */
  lemma {:induction false} BulkIsNotNil(b: Bytes, rest: Bytes, rest': Bytes)
    ensures BulkString(b) + rest != NIL + rest'
  {
    var digits := Decimal(|b|);
    assert (BulkString(b) + rest)[1] == digits[0];
    assert (NIL + rest')[1] == 45;
  }

  // ---- Any command, encoded or not, is self-delimiting

  predicate Agree(input: Bytes, input': Bytes, n: nat) {
    n <= |input| && n <= |input'| && input[..n] == input'[..n]
  }

  lemma AgreeAt(input: Bytes, input': Bytes, n: nat, i: nat)
    requires Agree(input, input', n) && i < n
    ensures input[i] == input'[i]
  {
    assert input[..n][i] == input'[..n][i];
  }

  lemma AgreeSlice(input: Bytes, input': Bytes, n: nat, i: nat, j: nat)
    requires Agree(input, input', n) && i <= j <= n
    ensures input[i..j] == input'[i..j]
  {
    assert input[..n][i..j] == input[i..j] && input'[..n][i..j] == input'[i..j];
  }

  lemma HeaderIsLocal(input: Bytes, input': Bytes, pos: nat)
    requires pos <= |input| && ReadHeader(input, pos).Header? && Agree(input, input', ReadHeader(input, pos).next)
    ensures ReadHeader(input', pos) == ReadHeader(input, pos)
  {
    var end := NewlineAt(input, pos);
    forall i | pos <= i <= end ensures input[i] == input'[i] {
      AgreeAt(input, input', end + 1, i);
    }
    NewlineIs(input', pos, end);
    AgreeSlice(input, input', end + 1, pos, end - 1);
  }

  lemma BulkIsLocal(input: Bytes, input': Bytes, pos: nat)
    requires pos <= |input| && ReadBulk(input, pos).Bulk? && Agree(input, input', ReadBulk(input, pos).next)
    ensures ReadBulk(input', pos) == ReadBulk(input, pos)
  {
    hide ReadHeader, ParseLen;
    var h, end := ReadHeader(input, pos), ReadBulk(input, pos).next;
    AgreeShorter(input, input', end, h.next);
    HeaderIsLocal(input, input', pos);
    AgreeSlice(input, input', end, h.next, end - 2);
    AgreeSlice(input, input', end, end - 2, end);
  }

  lemma AgreeShorter(input: Bytes, input': Bytes, n: nat, m: nat)
    requires Agree(input, input', n) && m <= n
    ensures Agree(input, input', m)
  {
    AgreeSlice(input, input', n, 0, m);
    assert input[0..m] == input[..m] && input'[0..m] == input'[..m];
  }

  lemma {:induction false} BulksAreLocal(input: Bytes, input': Bytes, pos: nat, n: nat, args: seq<Bytes>)
    requires pos <= |input| && pos <= |input'| && ReadBulks(input, pos, n, args).Bulks?
    requires Agree(input, input', ReadBulks(input, pos, n, args).next)
    ensures ReadBulks(input', pos, n, args) == ReadBulks(input, pos, n, args)
    decreases n
  {
    hide ReadBulk, Agree;
    if n > 0 {
      var b, end := ReadBulk(input, pos), ReadBulks(input, pos, n, args).next;
      assert ReadBulks(input, b.next, n - 1, args + [b.arg]).next == end;
      AgreeShorter(input, input', end, b.next);
      BulkIsLocal(input, input', pos);
      BulksAreLocal(input, input', b.next, n - 1, args + [b.arg]);
    }
  }

  /** What a command is depends on the bytes it consumes and on nothing after them. */
  lemma {:induction false} CommandIsLocal(inline: Tokenizer, input: Bytes, input': Bytes, pos: nat)
    requires pos <= |input| && ReadCommand(inline, input, pos).Command?
    requires Agree(input, input', ReadCommand(inline, input, pos).next)
    ensures ReadCommand(inline, input', pos) == ReadCommand(inline, input, pos)
  {
    hide ReadHeader, ReadBulks, ParseLen;
    var h, end := ReadHeader(input, pos), ReadCommand(inline, input, pos).next;
    AgreeShorter(input, input', end, h.next);
    HeaderIsLocal(input, input', pos);
    if h.line != [] && h.line[0] == STAR {
      BulksAreLocal(input, input', h.next, ParseLen(h.line[1..]).value, []);
    }
  }

  lemma HeaderCutShort(input: Bytes, pos: nat, k: nat)
    requires pos < k <= |input| && ReadHeader(input, pos).Header? && k < ReadHeader(input, pos).next
    ensures ReadHeader(input[..k], pos) == BadHeader(UnexpectedEof)
  {
    forall i | pos <= i < k ensures input[..k][i] != LF {}
  }

  lemma BulkCutShort(input: Bytes, pos: nat, k: nat)
    requires pos <= k <= |input| && ReadBulk(input, pos).Bulk? && k < ReadBulk(input, pos).next
    ensures ReadBulk(input[..k], pos) == BadBulk(UnexpectedEof)
  {
    var h := ReadHeader(input, pos);
    if k < h.next {
      if pos < k {
        HeaderCutShort(input, pos, k);
      }
    } else {
      assert input[..k][..h.next] == input[..h.next];
      HeaderIsLocal(input, input[..k], pos);
    }
  }

  lemma {:induction false} BulksCutShort(input: Bytes, pos: nat, n: nat, args: seq<Bytes>, k: nat)
    requires pos <= k <= |input| && ReadBulks(input, pos, n, args).Bulks? && k < ReadBulks(input, pos, n, args).next
    ensures ReadBulks(input[..k], pos, n, args) == BadBulks(UnexpectedEof)
    decreases n
  {
    hide ReadBulk;
    var b := ReadBulk(input, pos);
    if k < b.next {
      BulkCutShort(input, pos, k);
    } else {
      assert input[..k][..b.next] == input[..b.next];
      BulkIsLocal(input, input[..k], pos);
      BulksCutShort(input, b.next, n - 1, args + [b.arg], k);
    }
  }

  /** A command cut anywhere short is reported as a premature end: it is never
      taken for another command. */
  lemma {:induction false} CommandCutShort(inline: Tokenizer, input: Bytes, pos: nat, k: nat)
    requires pos < k <= |input| && ReadCommand(inline, input, pos).Command? && k < ReadCommand(inline, input, pos).next
    ensures ReadCommand(inline, input[..k], pos) == Failed(UnexpectedEof)
  {
    hide ReadHeader, ReadBulks, ParseLen;
    var h := ReadHeader(input, pos);
    if k < h.next {
      HeaderCutShort(input, pos, k);
    } else {
      assert input[..k][..h.next] == input[..h.next];
      HeaderIsLocal(input, input[..k], pos);
      BulksCutShort(input, h.next, ParseLen(h.line[1..]).value, [], k);
    }
  }
}
