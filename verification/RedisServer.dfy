/** The command loop of the RESP server (src/redis.rs:55-250) over the shared
    state, and the plain key-value map it behaves like. */
module RedisServer {
  import opened Prelude
  import opened UsageSums
  import opened Cache
  import opened CacheState
  import opened EvictionStore
  import Resp

  datatype Reply = Simple(text: Text) | Fault(text: Text) | Integer(n: nat) | Payload(b: Bytes) | Nil | EmptyArray

  function Encode(r: Reply): Bytes {
    match r
    case Simple(text) => Ascii("+") + text + Resp.CRLF
    case Fault(text) => Ascii("-") + text + Resp.CRLF
    case Integer(n) => Ascii(":") + Resp.Decimal(n) + Resp.CRLF
    case Payload(b) => Resp.BulkString(b)
    case Nil => Resp.NIL
    case EmptyArray => Ascii("*0") + Resp.CRLF
  }

  /** The library functions and the setting a connection depends on. */
  datatype Setup = Setup(inline: Resp.Tokenizer, utf8: Bytes -> bool, password: Option<Bytes>)

  function Upper(s: Bytes): Bytes {
    seq(|s|, i requires 0 <= i < |s| => if 97 <= s[i] <= 122 then s[i] - 32 else s[i])
  }

  /** The verb, upper-cased; empty when it is not UTF-8. */
  function Verb(setup: Setup, args: seq<Bytes>): Bytes
    requires args != []
  {
    Upper(if setup.utf8(args[0]) then args[0] else [])
  }

  datatype Request =
    | Answer(reply: Reply)
    | Quit
    | Login
    | Get(key: Bytes)
    | Set(key: Bytes, value: Bytes)
    | Delete(keys: seq<Bytes>)
    | Exists(keys: seq<Bytes>)
    | Flush
    | Size

  const OK: Reply := Simple(Ascii("OK"))

  function AuthRequest(password: Option<Bytes>, args: seq<Bytes>): Request {
    if |args| != 2 && |args| != 3 then Answer(Fault(Ascii("ERR wrong number of arguments for 'auth'")))
    else if password.None? then Answer(Fault(Ascii("ERR Client sent AUTH, but no password is set")))
    else if args[|args| - 1] == password.value then Login
    else Answer(Fault(Ascii("WRONGPASS invalid username-password pair")))
  }

  /** What a command asks for. */
  function Classify(setup: Setup, authed: bool, args: seq<Bytes>): Request
    requires args != []
  {
    var cmd := Verb(setup, args);
    if cmd == Ascii("PING") then Answer(if |args| >= 2 then Payload(args[1]) else Simple(Ascii("PONG")))
    else if cmd == Ascii("QUIT") then Quit
    else if cmd == Ascii("HELLO") then Answer(Fault(Ascii("ERR NOPROTO unsupported protocol")))
    else if cmd == Ascii("COMMAND") then Answer(EmptyArray)
    else if cmd == Ascii("AUTH") then AuthRequest(setup.password, args)
    else if !authed then Answer(Fault(Ascii("NOAUTH Authentication required.")))
    else if cmd == Ascii("GET") then
      if |args| != 2 then Answer(Fault(Ascii("ERR wrong number of arguments for 'get'"))) else Get(args[1])
    else if cmd == Ascii("SET") then
      if |args| < 3 then Answer(Fault(Ascii("ERR wrong number of arguments for 'set'"))) else Set(args[1], args[2])
    else if cmd == Ascii("DEL") || cmd == Ascii("UNLINK") then Delete(args[1..])
    else if cmd == Ascii("EXISTS") then Exists(args[1..])
    else if cmd == Ascii("FLUSHDB") || cmd == Ascii("FLUSHALL") then Flush
    else if cmd == Ascii("SELECT") || cmd == Ascii("CLIENT") then Answer(OK)
    else if cmd == Ascii("INFO") then Answer(Payload([]))
    else if cmd == Ascii("DBSIZE") then Size
    else Answer(Fault(Ascii("ERR unknown command '") + cmd + Ascii("'")))
  }

  // ---- On the tiered store

  /** What reading the file of an on-disk entry returns: its bytes, or an error. */
  function ReadFile(s: Store, id: nat): Option<Bytes> {
    if id in s.disk then Some(s.disk[id]) else None
  }

  /** How a GET of an on-disk entry goes on once the read it waited for has returned. */
  function FinishGet(s: Store, k: Bytes, read: Option<Bytes>): (Store, Reply) {
    match read
    case Some(value) => (s.InsertRedis(k, value), Payload(value))
    case None => (s.RemoveRedis(k), Nil)
  }

  /** A GET that nothing interrupts: touch an in-memory entry, bring an on-disk one back
      into memory, and forget an entry whose file cannot be read. */
  function GetEntry(s: Store, k: Bytes): (Store, Reply) {
    if k !in s.redis then
      (s, Nil)
    else
      match s.redis[k]
      case InMemory(id, value, _) =>
        (s.(redis := s.redis[k := RedisEntry.InMemory(id, value, s.now)]), Payload(value))
      case OnDisk(id, _, _) => FinishGet(s, k, ReadFile(s, id))
  }

  /** Remove keys one after the other, counting those that existed. */
  function DeleteKeys(s: Store, keys: seq<Bytes>): (Store, nat) {
    if keys == [] then
      (s, 0)
    else
      var k, before := keys[|keys| - 1], DeleteKeys(s, keys[..|keys| - 1]);
      (before.0.RemoveRedis(k), before.1 + if k in before.0.redis then 1 else 0)
  }

  function CountIn(keys: seq<Bytes>, present: set<Bytes>): nat {
    if keys == [] then 0
    else CountIn(keys[..|keys| - 1], present) + if keys[|keys| - 1] in present then 1 else 0
  }

  function Apply(s: Store, r: Request): (Store, Reply) {
    match r
    case Answer(reply) => (s, reply)
    case Quit => (s, OK)
    case Login => (s, OK)
    case Get(k) => GetEntry(s, k)
    case Set(k, v) => (s.InsertRedis(k, v), OK)
    case Delete(keys) => (DeleteKeys(s, keys).0, Integer(DeleteKeys(s, keys).1))
    case Exists(keys) => (s, Integer(CountIn(keys, s.redis.Keys)))
    case Flush => (s.FlushRedis(), OK)
    case Size => (s, Integer(|s.redis|))
  }

  // ---- On a plain map

  function PlainApply(m: map<Bytes, Bytes>, r: Request): (map<Bytes, Bytes>, Reply) {
    match r
    case Answer(reply) => (m, reply)
    case Quit => (m, OK)
    case Login => (m, OK)
    case Get(k) => (m, if k in m then Payload(m[k]) else Nil)
    case Set(k, v) => (m[k := v], OK)
    case Delete(keys) => (m - Named(keys), Integer(|Named(keys) * m.Keys|))
    case Exists(keys) => (m, Integer(|Occurrences(keys, m.Keys)|))
    case Flush => (map[], OK)
    case Size => (m, Integer(|m|))
  }

  function Named(keys: seq<Bytes>): set<Bytes> {
    set k | k in keys
  }

  /** The occurrences in `keys` of keys that are present. */
  function Occurrences(keys: seq<Bytes>, present: set<Bytes>): (r: multiset<Bytes>)
    ensures r <= multiset(keys)
    ensures forall k :: r[k] == if k in present then multiset(keys)[k] else 0
  {
    if keys == [] then multiset{}
    else
      var n := |keys| - 1;
      assert keys == keys[..n] + [keys[n]];
      Occurrences(keys[..n], present) + if keys[n] in present then multiset{keys[n]} else multiset{}
  }

  // ---- Every operation refines its plain counterpart

  lemma GetKeepsOwnership(s: Store, k: Bytes)
    requires s.Owned() && k in s.redis && s.redis[k].InMemory?
    ensures GetEntry(s, k).0.Owned()
  {
    assert GetEntry(s, k).0.FilesPresent();
    OwnershipInherited(s, GetEntry(s, k).0);
  }

  lemma InsertRedisKeepsOwnership(s: Store, k: Bytes, v: Bytes)
    requires s.Owned()
    ensures s.InsertRedis(k, v).Owned()
  {
    hide ValueCharge, KeyCharge;
    var s' := s.InsertRedis(k, v);
    assert s'.redis == s.redis[k := RedisEntry.InMemory(s.nextId, v, s.now)];
    InsertRedisIds(s, k, v);
    hide Store.InsertRedis, Store.DistinctIds, Store.IdsBelowNext, Store.UnlinksAreDead;
    assert s'.FilesPresent();
  }

  lemma InsertRedisIds(s: Store, k: Bytes, v: Bytes)
    requires s.Owned()
    ensures var s' := s.InsertRedis(k, v);
      s'.DistinctIds() && s'.IdsBelowNext() && s'.UnlinksAreDead()
  {
    hide ValueCharge, KeyCharge, Store.FilesPresent;
  }

  lemma FlushRedisKeepsOwnership(s: Store)
    requires s.Owned()
    ensures s.FlushRedis().Owned() && s.FlushRedis().Visible() == map[]
  {
    assert s.FlushRedis().FilesPresent();
    hide Store.FilesPresent;
  }

  lemma InsertRedisVisible(s: Store, k: Bytes, v: Bytes)
    ensures s.InsertRedis(k, v).Visible() == s.Visible()[k := v]
  {
    hide ValueCharge, KeyCharge, MapOf;
  }

  lemma RemoveRedisVisible(s: Store, k: Bytes)
    ensures s.RemoveRedis(k).Visible() == s.Visible() - {k}
  {
    hide RedisCharge, MapOf;
  }

  /** A GET answers with the visible value and changes nothing visible. */
  lemma {:induction false} GetRefines(s: Store, k: Bytes)
    requires s.Owned()
    ensures GetEntry(s, k).0.Owned() && GetEntry(s, k).0.Visible() == s.Visible()
    ensures GetEntry(s, k).1 == if k in s.Visible() then Payload(s.Visible()[k]) else Nil
  {
    hide Store.InsertRedis, Store.RemoveRedis, Store.Owned, Store.Visible;
    if k in s.redis {
      if s.redis[k].InMemory? {
        GetKeepsOwnership(s, k);
        TouchVisible(s, k);
      } else {
        var v := s.RedisValue(k);
        assert s.redis[k].id in s.disk by { OwnedFile(s, k); }
        InsertRedisKeepsOwnership(s, k, v);
        InsertRedisVisible(s, k, v);
        assert s.Visible()[k := v] == s.Visible();
      }
    }
  }

  lemma OwnedFile(s: Store, k: Bytes)
    requires s.Owned() && k in s.redis && s.redis[k].OnDisk?
    ensures s.redis[k].id in s.disk
  {}

  lemma TouchVisible(s: Store, k: Bytes)
    requires k in s.redis && s.redis[k].InMemory?
    ensures GetEntry(s, k).0.Visible() == s.Visible()
  {
    hide MapOf;
  }

  lemma KeySetGrows(keys: seq<Bytes>, m: map<Bytes, Bytes>)
    requires keys != []
    ensures var n := |keys| - 1; var k := keys[n];
      && m - Named(keys[..n]) - {k} == m - Named(keys)
      && Named(keys) * m.Keys == Named(keys[..n]) * m.Keys + (if k in m && k !in Named(keys[..n]) then {k} else {})
  {
    var n := |keys| - 1;
    assert forall x :: x in keys <==> x in keys[..n] || x == keys[n];
  }

  /** DEL removes the named keys and answers how many distinct ones existed. */
  lemma {:induction false} DeleteRefines(s: Store, keys: seq<Bytes>)
    requires s.Owned()
    ensures var r := DeleteKeys(s, keys);
      && r.0.Owned() && r.0.Visible() == s.Visible() - Named(keys)
      && r.1 == |Named(keys) * s.Visible().Keys|
    decreases |keys|
  {
    hide Store.RemoveRedis, Store.Owned, MapOf;
    if keys != [] {
      var n := |keys| - 1;
      DeleteRefines(s, keys[..n]);
      var before := DeleteKeys(s, keys[..n]).0;
      RemoveRedisKeepsOwnership(before, keys[n]);
      RemoveRedisVisible(before, keys[n]);
      KeySetGrows(keys, s.Visible());
    } else {
      assert s.Visible() - Named(keys) == s.Visible();
    }
  }

  /** EXISTS counts a key as often as it is named. */
  lemma {:induction false} ExistsRefines(keys: seq<Bytes>, present: set<Bytes>)
    ensures CountIn(keys, present) == |Occurrences(keys, present)|
    decreases |keys|
  {
    if keys != [] {
      ExistsRefines(keys[..|keys| - 1], present);
    }
  }

  lemma SizesAgree(s: Store)
    ensures |s.Visible()| == |s.redis|
  {
    assert |s.Visible().Keys| == |s.redis.Keys|;
  }

  lemma ReadsRefine(s: Store, r: Request)
    requires s.Owned() && (r.Answer? || r.Quit? || r.Login? || r.Exists? || r.Size?)
    ensures Apply(s, r).0 == s && PlainApply(s.Visible(), r) == (s.Visible(), Apply(s, r).1)
  {
    hide Store.Owned, CountIn, Occurrences, Store.Visible;
    match r {
      case Exists(keys) => ExistsRefines(keys, s.redis.Keys);
      case Size => SizesAgree(s);
      case _ =>
    }
  }

  lemma WritesRefine(s: Store, r: Request)
    requires s.Owned() && (r.Set? || r.Delete? || r.Flush?)
    ensures Apply(s, r).0.Owned()
    ensures PlainApply(s.Visible(), r) == (Apply(s, r).0.Visible(), Apply(s, r).1)
  {
    hide Store.Owned, Store.InsertRedis, DeleteKeys, Store.FlushRedis, Store.Visible;
    match r {
      case Set(k, v) =>
        InsertRedisKeepsOwnership(s, k, v);
        InsertRedisVisible(s, k, v);
      case Delete(keys) => DeleteRefines(s, keys);
      case Flush => FlushRedisKeepsOwnership(s);
    }
  }

  /** The two tiers behave like one plain map: same answer, same map afterwards. */
  lemma {:induction false} ApplyRefinesPlain(s: Store, r: Request)
    requires s.Owned()
    ensures Apply(s, r).0.Owned()
    ensures Apply(s, r).1 == PlainApply(s.Visible(), r).1
    ensures Apply(s, r).0.Visible() == PlainApply(s.Visible(), r).0
  {
    hide Store.Owned, GetEntry, Store.Visible;
    if r.Get? {
      GetRefines(s, r.key);
    } else if r.Set? || r.Delete? || r.Flush? {
      hide Apply, PlainApply;
      WritesRefine(s, r);
    } else {
      hide Apply, PlainApply;
      ReadsRefine(s, r);
    }
  }

  // ---- A whole connection

  /** The store and the bytes written once the client's stream is used up, was
      malformed, or asked to quit. */
  ghost function Conversation(setup: Setup, input: Bytes, pos: nat, authed: bool, s: Store): (Store, Bytes)
    requires pos <= |input|
    decreases |input| - pos
  {
    match Resp.ReadCommand(setup.inline, input, pos)
    case End => (s, [])
    case Failed(_) => (s, [])
    case Command(args, next) =>
      if args == [] then Conversation(setup, input, next, authed, s)
      else
        var r := Classify(setup, authed, args);
        var (s', reply) := Apply(s, r);
        if r.Quit? then (s', Encode(reply))
        else
          var rest := Conversation(setup, input, next, authed || r.Login?, s');
          (rest.0, Encode(reply) + rest.1)
  }

  /** One command of a conversation. */
  lemma ConversationStep(setup: Setup, input: Bytes, pos: nat, authed: bool, s: Store)
    requires pos <= |input|
    ensures var here := Conversation(setup, input, pos, authed, s);
      match Resp.ReadCommand(setup.inline, input, pos)
      case Command(args, next) =>
        if args == [] then here == Conversation(setup, input, next, authed, s)
        else
          var r := Classify(setup, authed, args);
          var done := Apply(s, r);
          if r.Quit? then here == (done.0, Encode(done.1))
          else
            var rest := Conversation(setup, input, next, authed || r.Login?, done.0);
            here.0 == rest.0 && forall said: Bytes :: said + here.1 == said + Encode(done.1) + rest.1
      case _ => here.0 == s && forall said: Bytes :: said + here.1 == said
  {
    hide Resp.ReadCommand, Classify, Apply, Encode;
    forall said: Bytes ensures said + [] == said {}
    match Resp.ReadCommand(setup.inline, input, pos)
    case Command(args, next) =>
      if args != [] {
        var r := Classify(setup, authed, args);
        var done := Apply(s, r);
        var rest := Conversation(setup, input, next, authed || r.Login?, done.0);
        forall said: Bytes ensures said + (Encode(done.1) + rest.1) == said + Encode(done.1) + rest.1 {}
      }
    case _ =>
  }

  /** The same client talking to a plain map. */
  ghost function PlainConversation(setup: Setup, commands: seq<seq<Bytes>>, authed: bool, m: map<Bytes, Bytes>)
      : (map<Bytes, Bytes>, Bytes)
  {
    if commands == [] then
      (m, [])
    else if commands[0] == [] then
      PlainConversation(setup, commands[1..], authed, m)
    else
      var r := Classify(setup, authed, commands[0]);
      var (m', reply) := PlainApply(m, r);
      if r.Quit? then (m', Encode(reply))
      else
        var rest := PlainConversation(setup, commands[1..], authed || r.Login?, m');
        (rest.0, Encode(reply) + rest.1)
  }

  /** A client that sends well-formed commands gets, byte for byte, the replies
      of a plain map, through framing, promotion from disk and both tiers. */
  lemma {:induction false} ConversationRefinesPlain(
      setup: Setup, pre: Bytes, commands: seq<seq<Bytes>>, authed: bool, s: Store)
    requires s.Owned() && forall i :: 0 <= i < |commands| ==> Resp.Encodable(commands[i])
    ensures var input := pre + Resp.EncodeAll(commands);
      var talk, plain :=
        Conversation(setup, input, |pre|, authed, s), PlainConversation(setup, commands, authed, s.Visible());
      talk.1 == plain.1 && talk.0.Visible() == plain.0 && talk.0.Owned()
    decreases |commands|
  {
    hide Resp.ReadCommand, Resp.Encode, Classify, Apply, PlainApply, Store.Owned, Store.Visible, Encode;
    var input := pre + Resp.EncodeAll(commands);
    if commands == [] {
      Resp.EndOfInput(setup.inline, input);
    } else {
      var head, tail := Resp.Encode(commands[0]), Resp.EncodeAll(commands[1..]);
      Resp.CommandRoundTrip(setup.inline, pre, commands[0], tail);
      assert input == pre + head + tail;
      if commands[0] == [] {
        ConversationRefinesPlain(setup, pre + head, commands[1..], authed, s);
      } else {
        var r := Classify(setup, authed, commands[0]);
        ApplyRefinesPlain(s, r);
        ConversationRefinesPlain(setup, pre + head, commands[1..], authed || r.Login?, Apply(s, r).0);
      }
    }
  }

  // ---- The handlers

  method WriteReply(w: Resp.Writer, r: Reply)
    modifies w
    ensures w.out == old(w.out) + Encode(r)
  {
    match r {
      case Payload(b) => w.WriteBulk(b);
      case Nil => w.WriteNil();
      case _ => w.WriteAll(Encode(r));
    }
  }

  /** What `handle_conn` does after the read it awaited, whatever the state is by then. */
  method HandleGetRead(state: State, key: Bytes, read: Option<Bytes>) returns (reply: Reply)
    modifies state
    ensures (state.View(), reply) == FinishGet(old(state.View()), key, read)
  {
    hide Store.InsertRedis, Store.RemoveRedis;
    match read {
      case Some(value) =>
        var entry := state.InsertRedis(key, value);
        reply := Payload(entry.value);
      case None =>
        var _ := state.RemoveRedis(key);
        reply := Nil;
    }
  }

  method HandleGet(state: State, key: Bytes) returns (reply: Reply)
    modifies state
    ensures (state.View(), reply) == GetEntry(old(state.View()), key)
  {
    hide Store.InsertRedis, Store.RemoveRedis;
    var now := state.now;
    if key !in state.redisEntries {
      return Nil;
    }
    match state.redisEntries[key] {
      case InMemory(id, value, _) =>
        state.redisEntries := state.redisEntries[key := RedisEntry.InMemory(id, value, now)];
        reply := Payload(value);
      case OnDisk(id, _, _) =>
        var read := if id in state.disk then Some(state.disk[id]) else None;
        reply := HandleGetRead(state, key, read);
    }
  }

  method HandleDelete(state: State, keys: seq<Bytes>) returns (n: nat)
    modifies state
    ensures (state.View(), n) == DeleteKeys(old(state.View()), keys)
  {
    hide Store.RemoveRedis;
    n := 0;
    for i := 0 to |keys|
      invariant (state.View(), n) == DeleteKeys(old(state.View()), keys[..i])
    {
      assert keys[..i + 1][..i] == keys[..i];
      var existed := state.RemoveRedis(keys[i]);
      if existed {
        n := n + 1;
      }
    }
    assert keys[..|keys|] == keys;
  }

  method HandleExists(state: State, keys: seq<Bytes>) returns (n: nat)
    ensures n == CountIn(keys, state.redisEntries.Keys)
  {
    n := 0;
    for i := 0 to |keys|
      invariant n == CountIn(keys[..i], state.redisEntries.Keys)
    {
      assert keys[..i + 1][..i] == keys[..i];
      if keys[i] in state.redisEntries {
        n := n + 1;
      }
    }
    assert keys[..|keys|] == keys;
  }

  method Handle(state: State, r: Request) returns (reply: Reply)
    modifies state
    ensures (state.View(), reply) == Apply(old(state.View()), r)
  {
    hide GetEntry, DeleteKeys, CountIn, Store.InsertRedis, Store.FlushRedis;
    match r {
      case Answer(a) => reply := a;
      case Quit => reply := OK;
      case Login => reply := OK;
      case Get(k) => reply := HandleGet(state, k);
      case Set(k, v) =>
        var _ := state.InsertRedis(k, v);
        reply := OK;
      case Delete(keys) =>
        var n := HandleDelete(state, keys);
        reply := Integer(n);
      case Exists(keys) =>
        var n := HandleExists(state, keys);
        reply := Integer(n);
      case Flush =>
        state.FlushRedis();
        reply := OK;
      case Size => reply := Integer(|state.redisEntries|);
    }
  }

  /** `handle_conn`: one command after the other until the stream ends, is
      malformed, or the client quits. */
  method HandleConn(state: State, setup: Setup, r: Resp.Reader, w: Resp.Writer)
    requires r.Valid()
    modifies state, r, w
    ensures (state.View(), w.out) ==
      var talk := Conversation(setup, r.input, old(r.pos), setup.password.None?, old(state.View()));
      (talk.0, old(w.out) + talk.1)
  {
    hide Resp.ReadCommand, Classify, Apply, Encode, Conversation;
    var authed := setup.password.None?;
    ghost var talk := Conversation(setup, r.input, r.pos, authed, state.View());
    while true
      invariant r.Valid()
      invariant talk.0 == Conversation(setup, r.input, r.pos, authed, state.View()).0
      invariant old(w.out) + talk.1 == w.out + Conversation(setup, r.input, r.pos, authed, state.View()).1
      decreases |r.input| - r.pos
    {
      ConversationStep(setup, r.input, r.pos, authed, state.View());
      var command := r.Read(setup.inline);
      if command.Err? || command.value.None? {
        return;
      }
      var args := command.value.value;
      if args == [] {
        continue;
      }
      var request := Classify(setup, authed, args);
      var reply := Handle(state, request);
      WriteReply(w, reply);
      if request.Quit? {
        return;
      }
      authed := authed || request.Login?;
    }
  }
}
