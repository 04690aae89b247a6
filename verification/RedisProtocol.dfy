/** What a client reads off the wire, reply by reply, and what it can do before it has
    authenticated (src/redis.rs:58-250). */
module RedisProtocol {
  import opened Prelude
  import opened Cache
  import opened RedisServer
  import Resp

  // ---- Spelling

  /** `word` is `name` in any mixture of upper and lower case. */
  predicate Spells(word: Bytes, name: string) {
    |word| == |name| && forall i :: 0 <= i < |name| ==> word[i] == name[i] as int || word[i] == name[i] as int + 32
  }

  predicate IsCommand(setup: Setup, args: seq<Bytes>, name: string) {
    args != [] && setup.utf8(args[0]) && Spells(args[0], name)
  }

  predicate Letters(name: string) {
    forall i :: 0 <= i < |name| ==> 'A' <= name[i] <= 'Z'
  }

  lemma UpperIff(word: Bytes, name: string)
    requires Letters(name)
    ensures Upper(word) == Ascii(name) <==> Spells(word, name)
  {
    var up, text := Upper(word), Ascii(name);
    if up == text {
      forall i | 0 <= i < |name| ensures word[i] == name[i] as int || word[i] == name[i] as int + 32 {
        assert up[i] == text[i] && 'A' <= name[i] <= 'Z';
      }
    }
    if Spells(word, name) {
      forall i | 0 <= i < |name| ensures up[i] == text[i] {
        assert 'A' <= name[i] <= 'Z';
      }
    }
  }

  lemma VerbIff(setup: Setup, args: seq<Bytes>, name: string)
    requires args != [] && Letters(name) && name != ""
    ensures Verb(setup, args) == Ascii(name) <==> IsCommand(setup, args, name)
  {
    UpperIff(args[0], name);
    UpperIff([], name);
  }

  /** Enough of each verb to tell it from the others. */
  lemma Verbs()
    ensures Ascii("PING")[0] == 80 && Ascii("QUIT")[0] == 81 && Ascii("AUTH")[0] == 65 && Ascii("INFO")[0] == 73
    ensures Ascii("GET")[0] == 71 && Ascii("SET")[0] == 83 && Ascii("DEL")[0] == 68
    ensures Ascii("UNLINK")[0] == 85 && Ascii("EXISTS")[0] == 69 && Ascii("SELECT")[0] == 83
    ensures Ascii("CLIENT")[0] == 67 && Ascii("DBSIZE")[0] == 68
    ensures Ascii("COMMAND")[0] == 67 && Ascii("FLUSHDB")[0] == 70
  {}

  // ---- One command on the wire

  /** A client that sends `args` reads exactly `reply`; the connection then goes on with
      the rest of the input in `s'`. */
  ghost predicate Says(
      setup: Setup, pre: Bytes, args: seq<Bytes>, rest: Bytes, authed: bool, s: Store, authed': bool, s': Store,
      reply: Bytes)
  {
    var input, next := pre + Resp.Encode(args) + rest, |pre| + |Resp.Encode(args)|;
    var after := Conversation(setup, input, next, authed', s');
    Conversation(setup, input, |pre|, authed, s) == (after.0, reply + after.1)
  }

  lemma OneCommand(setup: Setup, pre: Bytes, args: seq<Bytes>, rest: Bytes, authed: bool, s: Store)
    requires args != [] && Resp.Encodable(args) && !Classify(setup, authed, args).Quit?
    ensures var r := Classify(setup, authed, args);
      Says(setup, pre, args, rest, authed, s, authed || r.Login?, Apply(s, r).0, Encode(Apply(s, r).1))
  {
    hide Resp.ReadCommand, Resp.Encode, Classify, Apply, Encode, Resp.Encodable;
    Resp.CommandRoundTrip(setup.inline, pre, args, rest);
  }

  // ---- Replies as bytes

  lemma SimpleBytes()
    ensures Encode(OK) == Ascii("+OK\r\n") && Encode(Nil) == Ascii("$-1\r\n")
  {
    assert Encode(OK) == [43, 79, 75, 13, 10] && Encode(Nil) == [36, 45, 49, 13, 10];
    assert Ascii("+OK\r\n") == [43, 79, 75, 13, 10];
    assert Ascii("$-1\r\n") == [36, 45, 49, 13, 10];
  }

  lemma LineEnd()
    ensures Resp.CRLF == Ascii("\r\n")
  {
    assert Ascii("\r\n") == [13, 10];
  }

  /** A bulk string as it is on the wire. */
  lemma BulkBytes(b: Bytes)
    ensures Encode(Payload(b)) == Ascii("$") + Resp.Decimal(|b|) + Ascii("\r\n") + b + Ascii("\r\n")
  {
    hide Resp.Decimal;
    LineEnd();
    Dollar();
    hide Ascii;
  }

  lemma Dollar()
    ensures Ascii("$") == [Resp.DOLLAR]
  {}

  lemma NumberBytes(n: nat)
    ensures Encode(Integer(n)) == Ascii(":") + Resp.Decimal(n) + Ascii("\r\n")
  {
    LineEnd();
  }

  lemma FaultBytes(text: Text)
    ensures Encode(Fault(text)) == Ascii("-") + text + Ascii("\r\n")
  {
    LineEnd();
  }

  // ---- The commands on the store

  lemma Done(setup: Setup, pre: Bytes, args: seq<Bytes>, rest: Bytes, s: Store, r: Request, reply: Bytes)
      returns (s': Store)
    requires s.Owned() && args != [] && Resp.Encodable(args) && Classify(setup, true, args) == r && !r.Quit?
    requires reply == Encode(PlainApply(s.Visible(), r).1)
    ensures s'.Owned() && s'.Visible() == PlainApply(s.Visible(), r).0
    ensures Says(setup, pre, args, rest, true, s, true, s', reply)
  {
    hide Says, Store.Owned, Store.Visible, Encode, Resp.Encodable, Apply, Classify, PlainApply;
    OneCommand(setup, pre, args, rest, true, s);
    ApplyRefinesPlain(s, r);
    s' := Apply(s, r).0;
  }

  /** SET stores its second argument under its first, whatever options follow. */
  lemma {:induction false} SetSays(setup: Setup, pre: Bytes, args: seq<Bytes>, rest: Bytes, s: Store)
      returns (s': Store)
    requires s.Owned() && Resp.Encodable(args) && IsCommand(setup, args, "SET") && |args| >= 3
    ensures s'.Owned() && s'.Visible() == s.Visible()[args[1] := args[2]]
    ensures Says(setup, pre, args, rest, true, s, true, s', Ascii("+OK\r\n"))
  {
    hide Says, Store.Owned, Store.Visible, Encode, Resp.Encodable, Spells, Verb, Occurrences;
    VerbIff(setup, args, "SET");
    Verbs();
    SimpleBytes();
    s' := Done(setup, pre, args, rest, s, Set(args[1], args[2]), Ascii("+OK\r\n"));
  }

  /** GET answers the value as a bulk string, or nil, and changes nothing visible. */
  lemma {:induction false} GetSays(setup: Setup, pre: Bytes, args: seq<Bytes>, rest: Bytes, s: Store)
      returns (s': Store)
    requires s.Owned() && Resp.Encodable(args) && IsCommand(setup, args, "GET") && |args| == 2
    ensures s'.Owned() && s'.Visible() == s.Visible()
    ensures Says(setup, pre, args, rest, true, s, true, s',
      if args[1] in s.Visible() then
        var v := s.Visible()[args[1]];
        Ascii("$") + Resp.Decimal(|v|) + Ascii("\r\n") + v + Ascii("\r\n")
      else Ascii("$-1\r\n"))
  {
    hide Says, Store.Owned, Store.Visible, Encode, Resp.Encodable, Spells, Verb, Occurrences;
    VerbIff(setup, args, "GET");
    Verbs();
    SimpleBytes();
    if args[1] in s.Visible() {
      BulkBytes(s.Visible()[args[1]]);
    }
    s' := Done(setup, pre, args, rest, s, Get(args[1]), Encode(PlainApply(s.Visible(), Get(args[1])).1));
  }

  /** DEL and UNLINK remove the keys they name and answer how many of them existed. */
  lemma {:induction false} DeleteSays(setup: Setup, pre: Bytes, args: seq<Bytes>, rest: Bytes, s: Store)
      returns (s': Store)
    requires s.Owned() && Resp.Encodable(args)
    requires IsCommand(setup, args, "DEL") || IsCommand(setup, args, "UNLINK")
    ensures var named := set i | 1 <= i < |args| :: args[i];
      && s'.Owned() && s'.Visible() == s.Visible() - named
      && Says(setup, pre, args, rest, true, s, true, s',
           Ascii(":") + Resp.Decimal(|named * s.Visible().Keys|) + Ascii("\r\n"))
  {
    hide Says, Store.Owned, Store.Visible, Encode, Resp.Encodable, Occurrences, Classify, Named;
    DeleteIs(setup, args);
    NamedAre(args);
    hide IsCommand;
    var n := |Named(args[1..]) * s.Visible().Keys|;
    NumberBytes(n);
    hide Ascii;
    s' := Done(setup, pre, args, rest, s, Delete(args[1..]), Encode(Integer(n)));
  }

  lemma DeleteIs(setup: Setup, args: seq<Bytes>)
    requires IsCommand(setup, args, "DEL") || IsCommand(setup, args, "UNLINK")
    ensures Classify(setup, true, args) == Delete(args[1..])
  {
    hide Spells, Verb;
    VerbIff(setup, args, "DEL");
    VerbIff(setup, args, "UNLINK");
    Verbs();
  }

  lemma NamedAre(args: seq<Bytes>)
    requires args != []
    ensures Named(args[1..]) == set i | 1 <= i < |args| :: args[i]
  {
    forall k | k in Named(args[1..]) ensures exists i :: 1 <= i < |args| && args[i] == k {
      var j :| 0 <= j < |args[1..]| && args[1..][j] == k;
      assert args[j + 1] == k;
    }
    forall i | 1 <= i < |args| ensures args[i] in args[1..] {
      assert args[1..][i - 1] == args[i];
    }
  }

  /** EXISTS counts the arguments that name a key. */
  lemma {:induction false} ExistsSays(setup: Setup, pre: Bytes, args: seq<Bytes>, rest: Bytes, s: Store)
      returns (s': Store)
    requires s.Owned() && Resp.Encodable(args) && IsCommand(setup, args, "EXISTS")
    ensures s'.Owned() && s'.Visible() == s.Visible()
    ensures Says(setup, pre, args, rest, true, s, true, s',
      Ascii(":") + Resp.Decimal(|set i | 1 <= i < |args| && args[i] in s.Visible()|) + Ascii("\r\n"))
  {
    hide Says, Store.Owned, Store.Visible, Encode, Resp.Encodable, Occurrences, Classify, Present;
    ExistsIs(setup, args);
    PresentIs(args, s.Visible());
    hide IsCommand;
    var n := |Present(args, s.Visible().Keys, |args|)|;
    NumberBytes(n);
    hide Ascii;
    s' := Done(setup, pre, args, rest, s, Exists(args[1..]), Encode(Integer(n)));
  }

  lemma ExistsIs(setup: Setup, args: seq<Bytes>)
    requires IsCommand(setup, args, "EXISTS")
    ensures Classify(setup, true, args) == Exists(args[1..])
  {
    hide Spells, Verb;
    VerbIff(setup, args, "EXISTS");
    Verbs();
  }

  lemma PresentIs(args: seq<Bytes>, m: map<Bytes, Bytes>)
    requires args != []
    ensures Present(args, m.Keys, |args|) == set i | 1 <= i < |args| && args[i] in m
    ensures |Occurrences(args[1..], m.Keys)| == |Present(args, m.Keys, |args|)|
  {
    hide Occurrences;
    ArgumentsPresent(args, m.Keys, |args|);
    assert args[1..|args|] == args[1..];
  }

  /** The positions from 1 up to `n` whose argument names a key. */
  function Present(args: seq<Bytes>, present: set<Bytes>, n: nat): set<nat>
    requires n <= |args|
  {
    set i | 1 <= i < n && args[i] in present
  }

  lemma OccurrencesLast(keys: seq<Bytes>, present: set<Bytes>)
    requires keys != []
    ensures var n := |keys| - 1;
      |Occurrences(keys, present)| == |Occurrences(keys[..n], present)| + if keys[n] in present then 1 else 0
  {}

  lemma NoOccurrences(present: set<Bytes>)
    ensures |Occurrences([], present)| == 0
  {}

  lemma PresentLast(args: seq<Bytes>, present: set<Bytes>, n: nat)
    requires 1 < n <= |args|
    ensures |Present(args, present, n)| == |Present(args, present, n - 1)| + if args[n - 1] in present then 1 else 0
  {
    assert Present(args, present, n) ==
      Present(args, present, n - 1) + if args[n - 1] in present then {n - 1} else {};
  }

  lemma {:induction false} ArgumentsPresent(args: seq<Bytes>, present: set<Bytes>, n: nat)
    requires 1 <= n <= |args|
    ensures |Occurrences(args[1..n], present)| == |Present(args, present, n)|
  {
    hide Occurrences, Present;
    if n == 1 {
      assert args[1..1] == [];
      NoOccurrences(present);
      NonePresent(args, present);
    } else {
      ArgumentsPresent(args, present, n - 1);
      OccurrencesLast(args[1..n], present);
      PresentLast(args, present, n);
      SliceLast(args, n);
    }
  }

  lemma SliceLast(args: seq<Bytes>, n: nat)
    requires 1 < n <= |args|
    ensures args[1..n][..n - 2] == args[1..n - 1] && args[1..n][n - 2] == args[n - 1]
  {}

  lemma NonePresent(args: seq<Bytes>, present: set<Bytes>)
    requires args != []
    ensures |Present(args, present, 1)| == 0
  {
    assert Present(args, present, 1) == {};
  }

  /** FLUSHDB and FLUSHALL leave nothing. */
  lemma {:induction false} FlushSays(setup: Setup, pre: Bytes, args: seq<Bytes>, rest: Bytes, s: Store)
      returns (s': Store)
    requires s.Owned() && Resp.Encodable(args)
    requires IsCommand(setup, args, "FLUSHDB") || IsCommand(setup, args, "FLUSHALL")
    ensures s'.Owned() && s'.Visible() == map[]
    ensures Says(setup, pre, args, rest, true, s, true, s', Ascii("+OK\r\n"))
  {
    hide Says, Store.Owned, Store.Visible, Encode, Resp.Encodable, Spells, Verb, Occurrences;
    VerbIff(setup, args, "FLUSHDB");
    VerbIff(setup, args, "FLUSHALL");
    Verbs();
    SimpleBytes();
    s' := Done(setup, pre, args, rest, s, Flush, Ascii("+OK\r\n"));
  }

  /** DBSIZE answers the number of keys. */
  lemma {:induction false} SizeSays(setup: Setup, pre: Bytes, args: seq<Bytes>, rest: Bytes, s: Store)
      returns (s': Store)
    requires s.Owned() && Resp.Encodable(args) && IsCommand(setup, args, "DBSIZE")
    ensures s'.Owned() && s'.Visible() == s.Visible()
    ensures Says(setup, pre, args, rest, true, s, true, s',
      Ascii(":") + Resp.Decimal(|s.Visible()|) + Ascii("\r\n"))
  {
    hide Says, Store.Owned, Store.Visible, Encode, Resp.Encodable, Spells, Verb, Occurrences;
    VerbIff(setup, args, "DBSIZE");
    Verbs();
    NumberBytes(|s.Visible()|);
    s' := Done(setup, pre, args, rest, s, Size, Encode(Integer(|s.Visible()|)));
  }

  // ---- The commands on the session

  lemma AnswersOnly(
      setup: Setup, pre: Bytes, args: seq<Bytes>, rest: Bytes, authed: bool, s: Store, reply: Reply)
    requires args != [] && Resp.Encodable(args) && Classify(setup, authed, args) == Answer(reply)
    ensures Says(setup, pre, args, rest, authed, s, authed, s, Encode(reply))
  {
    hide Says, Encode, Resp.Encodable, Classify;
    OneCommand(setup, pre, args, rest, authed, s);
  }

  /** PING echoes its argument, authenticated or not. */
  lemma {:induction false} PingSays(
      setup: Setup, pre: Bytes, args: seq<Bytes>, rest: Bytes, authed: bool, s: Store)
    requires Resp.Encodable(args) && IsCommand(setup, args, "PING")
    ensures Says(setup, pre, args, rest, authed, s, authed, s,
      if |args| >= 2 then Ascii("$") + Resp.Decimal(|args[1]|) + Ascii("\r\n") + args[1] + Ascii("\r\n")
      else Ascii("+") + Ascii("PONG") + Ascii("\r\n"))
  {
    hide Says, Encode, Resp.Encodable, Spells, Verb;
    VerbIff(setup, args, "PING");
    if |args| >= 2 {
      BulkBytes(args[1]);
      AnswersOnly(setup, pre, args, rest, authed, s, Payload(args[1]));
    } else {
      LineBytes(Ascii("PONG"));
      AnswersOnly(setup, pre, args, rest, authed, s, Simple(Ascii("PONG")));
    }
  }

  lemma LineBytes(text: Text)
    ensures Encode(Simple(text)) == Ascii("+") + text + Ascii("\r\n")
  {
    LineEnd();
  }

  /** QUIT is answered, and the rest of the input is never looked at. */
  lemma {:induction false} QuitSays(
      setup: Setup, pre: Bytes, args: seq<Bytes>, rest: Bytes, authed: bool, s: Store)
    requires Resp.Encodable(args) && IsCommand(setup, args, "QUIT")
    ensures Conversation(setup, pre + Resp.Encode(args) + rest, |pre|, authed, s) == (s, Ascii("+OK\r\n"))
  {
    hide Resp.ReadCommand, Resp.Encode, Encode, Resp.Encodable, Spells, Verb;
    VerbIff(setup, args, "QUIT");
    Verbs();
    SimpleBytes();
    assert Classify(setup, authed, args) == Quit;
    Resp.CommandRoundTrip(setup.inline, pre, args, rest);
  }

  /** AUTH: with the password as its last argument it authenticates the connection; with
      anything else it changes nothing. */
  lemma {:induction false} AuthSays(
      setup: Setup, pre: Bytes, args: seq<Bytes>, rest: Bytes, authed: bool, s: Store)
    requires Resp.Encodable(args) && IsCommand(setup, args, "AUTH")
    ensures if (|args| == 2 || |args| == 3) && setup.password == Some(args[|args| - 1]) then
        Says(setup, pre, args, rest, authed, s, true, s, Ascii("+OK\r\n"))
      else
        Says(setup, pre, args, rest, authed, s, authed, s,
          Ascii("-") + (if |args| != 2 && |args| != 3 then Ascii("ERR wrong number of arguments for 'auth'")
                        else if setup.password.None? then Ascii("ERR Client sent AUTH, but no password is set")
                        else Ascii("WRONGPASS invalid username-password pair")) + Ascii("\r\n"))
  {
    hide Says, Encode, Resp.Encodable, Spells, Verb;
    VerbIff(setup, args, "AUTH");
    Verbs();
    SimpleBytes();
    var r := AuthRequest(setup.password, args);
    assert Classify(setup, authed, args) == r;
    hide Classify;
    if r.Answer? {
      FaultBytes(r.reply.text);
      AnswersOnly(setup, pre, args, rest, authed, s, r.reply);
    } else {
      OneCommand(setup, pre, args, rest, authed, s);
    }
  }

  /** HELLO is refused and COMMAND answers an empty array, so that clients fall back to
      the old protocol. */
  lemma {:induction false} GreetingsSay(
      setup: Setup, pre: Bytes, args: seq<Bytes>, rest: Bytes, authed: bool, s: Store)
    requires Resp.Encodable(args) && (IsCommand(setup, args, "HELLO") || IsCommand(setup, args, "COMMAND"))
    ensures Says(setup, pre, args, rest, authed, s, authed, s,
      if IsCommand(setup, args, "HELLO") then Ascii("-") + Ascii("ERR NOPROTO unsupported protocol") + Ascii("\r\n")
      else Ascii("*0") + Ascii("\r\n"))
  {
    hide Says, Encode, Resp.Encodable, Spells, Verb;
    VerbIff(setup, args, "HELLO");
    VerbIff(setup, args, "COMMAND");
    Verbs();
    var text := Ascii("ERR NOPROTO unsupported protocol");
    FaultBytes(text);
    ArrayBytes();
    if IsCommand(setup, args, "HELLO") {
      AnswersOnly(setup, pre, args, rest, authed, s, Fault(text));
    } else {
      AnswersOnly(setup, pre, args, rest, authed, s, EmptyArray);
    }
  }

  lemma ArrayBytes()
    ensures Encode(EmptyArray) == Ascii("*0") + Ascii("\r\n")
  {
    LineEnd();
  }

  /** SELECT and CLIENT are accepted and ignored. */
  lemma {:induction false} SelectSays(setup: Setup, pre: Bytes, args: seq<Bytes>, rest: Bytes, s: Store)
    requires Resp.Encodable(args) && (IsCommand(setup, args, "SELECT") || IsCommand(setup, args, "CLIENT"))
    ensures Says(setup, pre, args, rest, true, s, true, s, Ascii("+OK\r\n"))
  {
    hide Says, Encode, Resp.Encodable, Spells, Verb;
    VerbIff(setup, args, "SELECT");
    VerbIff(setup, args, "CLIENT");
    Verbs();
    SimpleBytes();
    AnswersOnly(setup, pre, args, rest, true, s, OK);
  }

  /** INFO answers an empty string. */
  lemma {:induction false} InfoSays(setup: Setup, pre: Bytes, args: seq<Bytes>, rest: Bytes, s: Store)
    requires Resp.Encodable(args) && IsCommand(setup, args, "INFO")
    ensures Says(setup, pre, args, rest, true, s, true, s,
      Ascii("$") + Resp.Decimal(0) + Ascii("\r\n") + [] + Ascii("\r\n"))
  {
    hide Says, Encode, Resp.Encodable, Spells, Verb;
    VerbIff(setup, args, "INFO");
    Verbs();
    BulkBytes([]);
    AnswersOnly(setup, pre, args, rest, true, s, Payload([]));
  }

  predicate IsKnown(setup: Setup, args: seq<Bytes>) {
    || IsOpen(setup, args)
    || IsCommand(setup, args, "GET") || IsCommand(setup, args, "SET") || IsCommand(setup, args, "DEL")
    || IsCommand(setup, args, "UNLINK") || IsCommand(setup, args, "EXISTS") || IsCommand(setup, args, "FLUSHDB")
    || IsCommand(setup, args, "FLUSHALL") || IsCommand(setup, args, "SELECT") || IsCommand(setup, args, "CLIENT")
    || IsCommand(setup, args, "INFO") || IsCommand(setup, args, "DBSIZE")
  }

  /** Any other verb is named in the error it is answered with. */
  lemma {:induction false} UnknownSays(setup: Setup, pre: Bytes, args: seq<Bytes>, rest: Bytes, s: Store)
    requires args != [] && Resp.Encodable(args) && !IsKnown(setup, args)
    ensures Says(setup, pre, args, rest, true, s, true, s,
      Ascii("-") + (Ascii("ERR unknown command '") + Verb(setup, args) + Ascii("'")) + Ascii("\r\n"))
  {
    hide Says, Encode, Resp.Encodable, IsCommand, Verb, Ascii;
    VerbIff(setup, args, "PING");
    VerbIff(setup, args, "QUIT");
    VerbIff(setup, args, "HELLO");
    VerbIff(setup, args, "COMMAND");
    VerbIff(setup, args, "AUTH");
    VerbIff(setup, args, "GET");
    VerbIff(setup, args, "SET");
    VerbIff(setup, args, "DEL");
    VerbIff(setup, args, "UNLINK");
    VerbIff(setup, args, "EXISTS");
    VerbIff(setup, args, "FLUSHDB");
    VerbIff(setup, args, "FLUSHALL");
    VerbIff(setup, args, "SELECT");
    VerbIff(setup, args, "CLIENT");
    VerbIff(setup, args, "INFO");
    VerbIff(setup, args, "DBSIZE");
    var text := Ascii("ERR unknown command '") + Verb(setup, args) + Ascii("'");
    FaultBytes(text);
    AnswersOnly(setup, pre, args, rest, true, s, Fault(text));
  }

  /** A GET or SET with too few arguments, or a GET with too many, is an error. */
  lemma {:induction false} ArityFaults(setup: Setup, pre: Bytes, args: seq<Bytes>, rest: Bytes, s: Store)
    requires Resp.Encodable(args)
    requires (IsCommand(setup, args, "GET") && |args| != 2) || (IsCommand(setup, args, "SET") && |args| < 3)
    ensures Says(setup, pre, args, rest, true, s, true, s,
      Ascii("-") + (if IsCommand(setup, args, "GET") then Ascii("ERR wrong number of arguments for 'get'")
                    else Ascii("ERR wrong number of arguments for 'set'")) + Ascii("\r\n"))
  {
    hide Says, Encode, Resp.Encodable, Spells, Verb;
    VerbIff(setup, args, "GET");
    VerbIff(setup, args, "SET");
    Verbs();
    var text := if IsCommand(setup, args, "GET") then Ascii("ERR wrong number of arguments for 'get'")
      else Ascii("ERR wrong number of arguments for 'set'");
    FaultBytes(text);
    AnswersOnly(setup, pre, args, rest, true, s, Fault(text));
  }

  // ---- What is no command

  /** An empty line or an empty array is not answered. */
  lemma {:induction false} EmptyIsSkipped(setup: Setup, input: Bytes, pos: nat, next: nat, authed: bool, s: Store)
    requires pos <= |input| && Resp.ReadCommand(setup.inline, input, pos) == Resp.Command([], next)
    ensures Conversation(setup, input, pos, authed, s) == Conversation(setup, input, next, authed, s)
  {
    hide Resp.ReadCommand, Classify, Apply, Encode;
  }

  /** A command that is cut short is neither answered nor carried out: the connection ends. */
  lemma {:induction false} CutShortIsIgnored(
      setup: Setup, pre: Bytes, args: seq<Bytes>, rest: Bytes, n: nat, authed: bool, s: Store)
    requires Resp.Encodable(args) && |pre| <= n < |pre| + |Resp.Encode(args)|
    ensures Conversation(setup, (pre + Resp.Encode(args) + rest)[..n], |pre|, authed, s) == (s, [])
  {
    hide Resp.ReadCommand, Resp.Encode, Classify, Apply, Encode, Resp.Encodable;
    var input := pre + Resp.Encode(args) + rest;
    Resp.CommandRoundTrip(setup.inline, pre, args, rest);
    if n == |pre| {
      Resp.EndOfInput(setup.inline, input[..n]);
    } else {
      Resp.CommandCutShort(setup.inline, input, |pre|, n);
    }
  }

  // ---- Before authentication

  /** The commands that are served to anyone. */
  predicate IsOpen(setup: Setup, args: seq<Bytes>) {
    || IsCommand(setup, args, "PING") || IsCommand(setup, args, "QUIT") || IsCommand(setup, args, "HELLO")
    || IsCommand(setup, args, "COMMAND") || IsCommand(setup, args, "AUTH")
  }

  lemma OpenIff(setup: Setup, args: seq<Bytes>)
    requires args != []
    ensures var cmd := Verb(setup, args);
      IsOpen(setup, args) <==>
        cmd in {Ascii("PING"), Ascii("QUIT"), Ascii("HELLO"), Ascii("COMMAND"), Ascii("AUTH")}
  {
    hide Verb, IsCommand;
    VerbIff(setup, args, "PING");
    VerbIff(setup, args, "QUIT");
    VerbIff(setup, args, "HELLO");
    VerbIff(setup, args, "COMMAND");
    VerbIff(setup, args, "AUTH");
  }

  /** Until it has authenticated, a client gets the same answer to any other command,
      whatever it is, and the store stays as it is. */
  lemma {:induction false} OthersNeedAuth(setup: Setup, pre: Bytes, args: seq<Bytes>, rest: Bytes, s: Store)
    requires args != [] && Resp.Encodable(args) && !IsOpen(setup, args)
    ensures Says(setup, pre, args, rest, false, s, false, s,
      Ascii("-") + Ascii("NOAUTH Authentication required.") + Ascii("\r\n"))
  {
    hide Says, Encode, Resp.Encodable, IsOpen, Verb;
    OpenIff(setup, args);
    var text := Ascii("NOAUTH Authentication required.");
    FaultBytes(text);
    AnswersOnly(setup, pre, args, rest, false, s, Fault(text));
  }

  /** An AUTH with the right password. */
  predicate Authenticates(setup: Setup, args: seq<Bytes>) {
    && IsCommand(setup, args, "AUTH") && (|args| == 2 || |args| == 3)
    && setup.password == Some(args[|args| - 1])
  }

  lemma NoLoginNoChange(setup: Setup, args: seq<Bytes>, s: Store)
    requires args != [] && setup.password.Some? && !Authenticates(setup, args)
    ensures var r := Classify(setup, false, args); !r.Login? && Apply(s, r).0 == s
  {
    hide IsCommand, Verb;
    VerbIff(setup, args, "AUTH");
  }

  /** Whatever bytes a client sends to a server with a password, in whatever framing: as
      long as no command among them authenticates, the store stays exactly as it is. */
  lemma {:induction false} NothingWithoutAuth(setup: Setup, input: Bytes, pos: nat, s: Store)
    requires pos <= |input| && setup.password.Some?
    requires forall c :: c in Resp.ReadAll(setup.inline, input, pos).0 ==> !Authenticates(setup, c)
    ensures Conversation(setup, input, pos, false, s).0 == s
    decreases |input| - pos
  {
    hide Resp.ReadCommand, Classify, Apply, Encode, Authenticates;
    match Resp.ReadCommand(setup.inline, input, pos)
    case Command(args, next) =>
      var rest := Resp.ReadAll(setup.inline, input, next).0;
      assert Resp.ReadAll(setup.inline, input, pos).0 == [args] + rest;
      assert forall c :: c in rest ==> c in [args] + rest;
      if args != [] {
        assert args in [args] + rest;
        NoLoginNoChange(setup, args, s);
      }
      NothingWithoutAuth(setup, input, next, s);
    case _ =>
  }

  // ---- Conversations

  /** Two commands and nothing else. */
  lemma TwoCommands(
      setup: Setup, first: seq<Bytes>, second: seq<Bytes>, s: Store, s1: Store, s2: Store, reply: Bytes, reply': Bytes)
    requires Resp.Encodable(first) && Resp.Encodable(second)
    requires Says(setup, [], first, Resp.Encode(second), true, s, true, s1, reply)
    requires Says(setup, Resp.Encode(first), second, [], true, s1, true, s2, reply')
    ensures Conversation(setup, Resp.Encode(first) + Resp.Encode(second), 0, true, s) == (s2, reply + reply')
  {
    hide Resp.ReadCommand, Resp.Encode, Resp.Encodable;
    var a, b := Resp.Encode(first), Resp.Encode(second);
    var input := a + b;
    assert [] + a + b == input && a + b + [] == input;
    Resp.EndOfInput(setup.inline, input);
    assert Conversation(setup, input, |input|, true, s2) == (s2, []);
    assert reply' + [] == reply';
    assert Conversation(setup, input, |a|, true, s1) == (s2, reply');
  }

  /** SET and then GET of one key: the client reads `+OK` and the value it has set. */
  lemma {:induction false} SetThenGet(setup: Setup, set_: Bytes, get: Bytes, k: Bytes, v: Bytes, s: Store)
    requires s.Owned() && Resp.Encodable([set_, k, v]) && Resp.Encodable([get, k])
    requires IsCommand(setup, [set_, k, v], "SET") && IsCommand(setup, [get, k], "GET")
    ensures Conversation(setup, Resp.Encode([set_, k, v]) + Resp.Encode([get, k]), 0, true, s).1 ==
      Ascii("+OK\r\n") + (Ascii("$") + Resp.Decimal(|v|) + Ascii("\r\n") + v + Ascii("\r\n"))
  {
    hide Says, Store.Owned, Store.Visible, Resp.Encode, Resp.Encodable, IsCommand, Ascii;
    var s1 := SetSays(setup, [], [set_, k, v], Resp.Encode([get, k]), s);
    var s2 := GetSays(setup, Resp.Encode([set_, k, v]), [get, k], [], s1);
    var got := Ascii("$") + Resp.Decimal(|v|) + Ascii("\r\n") + v + Ascii("\r\n");
    TwoCommands(setup, [set_, k, v], [get, k], s, s1, s2, Ascii("+OK\r\n"), got);
  }

  /** DEL and then GET of a key it names: the client reads how many keys went, and nil. */
  lemma {:induction false} DeleteThenGet(setup: Setup, del: seq<Bytes>, get: Bytes, k: Bytes, s: Store)
    requires s.Owned() && Resp.Encodable(del) && Resp.Encodable([get, k]) && del != [] && k in del[1..]
    requires IsCommand(setup, del, "DEL") || IsCommand(setup, del, "UNLINK")
    requires IsCommand(setup, [get, k], "GET")
    ensures var named := set i | 1 <= i < |del| :: del[i];
      Conversation(setup, Resp.Encode(del) + Resp.Encode([get, k]), 0, true, s).1 ==
        Ascii(":") + Resp.Decimal(|named * s.Visible().Keys|) + Ascii("\r\n") + Ascii("$-1\r\n")
  {
    hide Says, Store.Owned, Store.Visible, Resp.Encode, Resp.Encodable, IsCommand, Ascii;
    var named := set i | 1 <= i < |del| :: del[i];
    NamedAre(del);
    var s1 := DeleteSays(setup, [], del, Resp.Encode([get, k]), s);
    assert k !in s1.Visible();
    var s2 := GetSays(setup, Resp.Encode(del), [get, k], [], s1);
    var gone := Ascii(":") + Resp.Decimal(|named * s.Visible().Keys|) + Ascii("\r\n");
    TwoCommands(setup, del, [get, k], s, s1, s2, gone, Ascii("$-1\r\n"));
  }

  /** After a flush nothing is counted. */
  lemma {:induction false} FlushThenSize(setup: Setup, flush: seq<Bytes>, size: seq<Bytes>, s: Store)
    requires s.Owned() && Resp.Encodable(flush) && Resp.Encodable(size) && IsCommand(setup, size, "DBSIZE")
    requires IsCommand(setup, flush, "FLUSHDB") || IsCommand(setup, flush, "FLUSHALL")
    ensures Conversation(setup, Resp.Encode(flush) + Resp.Encode(size), 0, true, s).1 ==
      Ascii("+OK\r\n") + (Ascii(":") + Resp.Decimal(0) + Ascii("\r\n"))
  {
    hide Says, Store.Owned, Store.Visible, Resp.Encode, Resp.Encodable, IsCommand, Ascii;
    var s1 := FlushSays(setup, [], flush, Resp.Encode(size), s);
    var s2 := SizeSays(setup, Resp.Encode(flush), size, [], s1);
    TwoCommands(setup, flush, size, s, s1, s2, Ascii("+OK\r\n"), Ascii(":") + Resp.Decimal(0) + Ascii("\r\n"));
  }
}
