/** The two SOCKS5 clients (validator/proxy_probe.py and gateway/egress_relay.py)
    against the grammars of RFC 1928 (sections 3 to 6) and RFC 1929 (section 2). */
module Socks5 {
  import opened Prelude
  import opened Streams

  // The probe offers one method; the relay also offers "no authentication" when it has credentials.
  datatype Client = ProbeClient | RelayClient

  // A target as the client classified it: `inet_pton` or the IDNA form of a name.
  datatype Host = V4(packed: bytes) | V6(packed: bytes) | Name(name: bytes)

  datatype Credentials = Credentials(username: bytes, password: bytes)

  datatype Wire = Wire(inbox: bytes, outbox: bytes)

  // A stage of the conversation: the wire afterwards, and the exception if one was raised.
  datatype Stage = Stage(wire: Wire, failure: Option<Error>)

  predicate GoodHost(h: Host) { (h.V4? ==> |h.packed| == 4) && (h.V6? ==> |h.packed| == 16) }

  function Method(auth: Option<Credentials>): byte { if auth.Some? then 2 else 0 }

  function Greeting(client: Client, auth: Option<Credentials>): bytes {
    if client.RelayClient? && auth.Some? then [5, 2, 0, 2] else [5, 1, Method(auth)]
  }

  // `1 <= len <= 255` in the probe, only `len <= 255` in the relay.
  predicate Sendable(client: Client, c: Credentials) {
    && |c.username| <= 255 && |c.password| <= 255
    && (client.ProbeClient? ==> c.username != [] && c.password != [])
  }

  function LoginMessage(c: Credentials): bytes
    requires |c.username| <= 255 && |c.password| <= 255
  {
    [1, |c.username| as byte] + c.username + [|c.password| as byte] + c.password
  }

  predicate NameFits(h: Host) { h.Name? ==> |h.name| <= 255 }

  function AddressBytes(h: Host): bytes
    requires NameFits(h)
  {
    match h
    case V4(packed) => [1] + packed
    case V6(packed) => [4] + packed
    case Name(name) => [3, |name| as byte] + name
  }

  function PortBytes(port: nat): bytes
    requires port < 65536
  {
    [(port / 256) as byte, (port % 256) as byte]
  }

  function RequestMessage(h: Host, port: nat): bytes
    requires NameFits(h) && port < 65536
  {
    [5, 1, 0] + AddressBytes(h) + PortBytes(port)
  }

  // Read two bytes and compare.
  function Expect(w: Wire, answer: bytes): Stage {
    match Exactly(w.inbox, 2)
    case Err(e) => Stage(w.(inbox := []), Some(e))
    case Ok((data, rest)) => Stage(w.(inbox := rest), if data == answer then None else Some(OSError))
  }

  function Negotiate(client: Client, auth: Option<Credentials>, w: Wire): Stage {
    Expect(w.(outbox := w.outbox + Greeting(client, auth)), [5, Method(auth)])
  }

  function Login(client: Client, c: Credentials, w: Wire): Stage {
    if !Sendable(client, c) then Stage(w, Some(ValueError))
    else Expect(w.(outbox := w.outbox + LoginMessage(c)), [1, 0])
  }

  // The bind address that follows the four bytes of a reply.
  function SkipBound(kind: byte, w: Wire): Stage {
    if kind == 3 then
      match Exactly(w.inbox, 1)
      case Err(e) => Stage(w.(inbox := []), Some(e))
      case Ok((length, rest)) => Skip(w.(inbox := rest), length[0] as int + 2)
    else if kind == 1 then Skip(w, 6)
    else if kind == 4 then Skip(w, 18)
    else Stage(w, Some(OSError))
  }

  function Skip(w: Wire, n: nat): Stage {
    match Exactly(w.inbox, n)
    case Err(e) => Stage(w.(inbox := []), Some(e))
    case Ok((_, rest)) => Stage(w.(inbox := rest), None)
  }

  function ReadReply(w: Wire): Stage {
    match Exactly(w.inbox, 4)
    case Err(e) => Stage(w.(inbox := []), Some(e))
    case Ok((head, rest)) =>
      if head[..2] != [5, 0] then Stage(w.(inbox := rest), Some(OSError)) else SkipBound(head[3], w.(inbox := rest))
  }

  function Connect(h: Host, port: nat, w: Wire): Stage
    requires port < 65536
  {
    if !NameFits(h) then Stage(w, Some(ValueError)) else ReadReply(w.(outbox := w.outbox + RequestMessage(h, port)))
  }

  /** The whole client side. */
  function Tunnel(client: Client, h: Host, port: nat, auth: Option<Credentials>, w: Wire): Stage
    requires port < 65536
  {
    var greeted := Negotiate(client, auth, w);
    if greeted.failure.Some? then greeted
    else if auth.None? then Connect(h, port, greeted.wire)
    else
      var loggedIn := Login(client, auth.value, greeted.wire);
      if loggedIn.failure.Some? then loggedIn else Connect(h, port, loggedIn.wire)
  }

  // Everything a client writes when nothing stops it.
  function Written(client: Client, h: Host, port: nat, auth: Option<Credentials>): bytes
    requires NameFits(h) && port < 65536 && (auth.Some? ==> Sendable(client, auth.value))
  {
    if auth.Some? then Greeting(client, auth) + (LoginMessage(auth.value) + RequestMessage(h, port))
    else Greeting(client, auth) + RequestMessage(h, port)
  }

  // ---------- The code ----------

  function WireOf(c: Connection): Wire
    reads c
  {
    Wire(c.inbox, c.outbox)
  }

  method ExpectAnswer(c: Connection, answer: bytes) returns (failure: Option<Error>)
    modifies c
    ensures Stage(WireOf(c), failure) == Expect(old(WireOf(c)), answer)
  {
    var data := c.ReadExactly(2);
    match data {
      case Err(e) => failure := Some(e);
      case Ok(d) => failure := if d == answer then None else Some(OSError);
    }
  }

  method ReadConnectReply(c: Connection) returns (failure: Option<Error>)
    modifies c
    ensures Stage(WireOf(c), failure) == ReadReply(old(WireOf(c)))
  {
    var response := c.ReadExactly(4);
    if response.Err? { return Some(response.error); }
    if response.value[..2] != [5, 0] { return Some(OSError); }
    var size: int;
    if response.value[3] == 1 {
      size := 4;
    } else if response.value[3] == 3 {
      var length := c.ReadExactly(1);
      if length.Err? { return Some(length.error); }
      size := length.value[0] as int;
    } else if response.value[3] == 4 {
      size := 16;
    } else {
      return Some(OSError);
    }
    var bound := c.ReadExactly(size + 2);
    failure := if bound.Err? then Some(bound.error) else None;
  }

  // `_socks5_tunnel`, and the socks5 branch of `connect_upstream`.
  method OpenTunnel(client: Client, c: Connection, h: Host, port: nat, auth: Option<Credentials>)
    returns (failure: Option<Error>)
    requires port < 65536
    modifies c
    ensures Stage(WireOf(c), failure) == Tunnel(client, h, port, auth, old(WireOf(c)))
  {
    c.Write(Greeting(client, auth));
    failure := ExpectAnswer(c, [5, Method(auth)]);
    if failure.Some? { return; }
    if auth.Some? {
      if !Sendable(client, auth.value) { return Some(ValueError); }
      c.Write(LoginMessage(auth.value));
      failure := ExpectAnswer(c, [1, 0]);
      if failure.Some? { return; }
    }
    if !NameFits(h) { return Some(ValueError); }
    c.Write(RequestMessage(h, port));
    failure := ReadConnectReply(c);
  }

  // ---------- The server's grammar ----------

  // The methods of section 3 of RFC 1928: X'00' no authentication, X'02' username/password.
  const ANYONE: byte := 0
  const PASSWORD: byte := 2

  // Section 3 of RFC 1928: VER NMETHODS METHODS.
  function ParseGreeting(s: bytes): Option<(bytes, bytes)> {
    if |s| < 2 || s[0] != 5 || s[1] == 0 || |s| < 2 + s[1] as int then None
    else Some((s[2..2 + s[1] as int], s[2 + s[1] as int..]))
  }

  // Section 2 of RFC 1929: VER ULEN UNAME PLEN PASSWD, both lengths 1 to 255.
  function ParseLogin(s: bytes): Option<(Credentials, bytes)> {
    if |s| < 2 || s[0] != 1 || s[1] == 0 then None
    else
      var u := s[1] as int;
      if |s| < 3 + u || s[2 + u] == 0 then None
      else
        var p := s[2 + u] as int;
        if |s| < 3 + u + p then None
        else Some((Credentials(s[2..2 + u], s[3 + u..3 + u + p]), s[3 + u + p..]))
  }

  // ATYP and an address, as sections 4 to 6 of RFC 1928 share it.
  function ParseAddress(s: bytes): Option<(Host, bytes)> {
    if s == [] then None
    else if s[0] == 1 then (if |s| < 5 then None else Some((V4(s[1..5]), s[5..])))
    else if s[0] == 4 then (if |s| < 17 then None else Some((V6(s[1..17]), s[17..])))
    else if s[0] == 3 && |s| >= 2 && |s| >= 2 + s[1] as int then
      Some((Name(s[2..2 + s[1] as int]), s[2 + s[1] as int..]))
    else None
  }

  // Section 4 of RFC 1928: VER CMD RSV, address, port; CMD is CONNECT.
  function ParseRequest(s: bytes): Option<((Host, nat), bytes)> {
    if |s| < 3 || s[..3] != [5, 1, 0] then None
    else
      match ParseAddress(s[3..])
      case None => None
      case Some((h, rest)) =>
        if |rest| < 2 then None else Some(((h, rest[0] as int * 256 + rest[1] as int), rest[2..]))
  }

  // Section 6 of RFC 1928: VER REP RSV, bound address and port.
  function EncodeReply(rep: byte, bound: Host, port: nat): bytes
    requires NameFits(bound) && port < 65536
  {
    [5, rep, 0] + AddressBytes(bound) + PortBytes(port)
  }

  // Everything a server reads from a client, in order.
  datatype Understood = Understood(methods: bytes, login: Option<Credentials>, target: (Host, nat))

  function ServerReads(s: bytes, wantsLogin: bool): Option<Understood> {
    match ParseGreeting(s)
    case None => None
    case Some((methods, afterGreeting)) =>
      if wantsLogin then
        match ParseLogin(afterGreeting)
        case None => None
        case Some((c, afterLogin)) =>
          (match ParseRequest(afterLogin)
           case None => None
           case Some((target, rest)) => if rest == [] then Some(Understood(methods, Some(c), target)) else None)
      else
        match ParseRequest(afterGreeting)
        case None => None
        case Some((target, rest)) => if rest == [] then Some(Understood(methods, None, target)) else None
  }

  // ---------- Speaking it correctly ----------

  lemma GreetingParses(client: Client, auth: Option<Credentials>, t: bytes)
    ensures var g := ParseGreeting(Greeting(client, auth) + t);
      g.Some? && g.value.1 == t && (if auth.Some? then PASSWORD else ANYONE) in g.value.0
  {
  }

  lemma LoginParses(c: Credentials, t: bytes)
    requires |c.username| <= 255 && |c.password| <= 255
    ensures c.username != [] && c.password != [] ==> ParseLogin(LoginMessage(c) + t) == Some((c, t))
  {
    var s, u, p := LoginMessage(c) + t, |c.username|, |c.password|;
    assert s[2..2 + u] == c.username;
    assert s[2 + u] == p as byte;
    assert s[3 + u..3 + u + p] == c.password;
    assert s[3 + u + p..] == t;
  }

  // A blank name or password is not in the grammar of section 2 of RFC 1929.
  lemma BlankLoginIsRefused(c: Credentials, t: bytes)
    requires |c.username| <= 255 && |c.password| <= 255 && (c.username == [] || c.password == [])
    ensures ParseLogin(LoginMessage(c) + t) == None
  {
  }

  lemma AddressParses(h: Host, t: bytes)
    requires GoodHost(h) && NameFits(h)
    ensures ParseAddress(AddressBytes(h) + t) == Some((h, t))
  {
  }

  lemma RequestParses(h: Host, port: nat, t: bytes)
    requires GoodHost(h) && NameFits(h) && port < 65536
    ensures ParseRequest(RequestMessage(h, port) + t) == Some(((h, port), t))
  {
    var s, tail := RequestMessage(h, port) + t, PortBytes(port) + t;
    assert s[..3] == [5, 1, 0] && s[3..] == AddressBytes(h) + tail;
    AddressParses(h, tail);
    assert tail[2..] == t;
  }

  lemma ConnectWrites(h: Host, port: nat, w: Wire)
    requires port < 65536 && Connect(h, port, w).failure.None?
    ensures NameFits(h) && Connect(h, port, w).wire.outbox == w.outbox + RequestMessage(h, port)
  {
  }

  lemma NegotiateWrites(client: Client, auth: Option<Credentials>, inbox: bytes)
    ensures Negotiate(client, auth, Wire(inbox, [])).wire.outbox == Greeting(client, auth)
  {
  }

  lemma LoginWrites(client: Client, c: Credentials, w: Wire)
    requires Login(client, c, w).failure.None?
    ensures Sendable(client, c) && Login(client, c, w).wire.outbox == w.outbox + LoginMessage(c)
  {
  }

  // What a client that got through has written.
  lemma TunnelWrites(client: Client, h: Host, port: nat, auth: Option<Credentials>, inbox: bytes)
    requires port < 65536 && Tunnel(client, h, port, auth, Wire(inbox, [])).failure.None?
    ensures NameFits(h) && (auth.Some? ==> Sendable(client, auth.value))
    ensures Tunnel(client, h, port, auth, Wire(inbox, [])).wire.outbox == Written(client, h, port, auth)
  {
    var w := Negotiate(client, auth, Wire(inbox, [])).wire;
    NegotiateWrites(client, auth, inbox);
    match auth {
      case None => ConnectWrites(h, port, w);
      case Some(c) =>
        var w' := Login(client, c, w).wire;
        LoginWrites(client, c, w);
        ConnectWrites(h, port, w');
        Associates(Greeting(client, auth), LoginMessage(c), RequestMessage(h, port));
    }
  }

  lemma RequestIsAll(h: Host, port: nat)
    requires NameFits(h) && GoodHost(h) && port < 65536
    ensures ParseRequest(RequestMessage(h, port)) == Some(((h, port), []))
  {
    RequestParses(h, port, []);
    assert RequestMessage(h, port) + [] == RequestMessage(h, port);
  }

  lemma ServerReadsPlain(client: Client, h: Host, port: nat)
    requires NameFits(h) && GoodHost(h) && port < 65536
    ensures var read := ServerReads(Greeting(client, None) + RequestMessage(h, port), false);
      read.Some? && read.value.login == None && read.value.target == (h, port) && ANYONE in read.value.methods
  {
    GreetingParses(client, None, RequestMessage(h, port));
    RequestIsAll(h, port);
  }

  lemma ServerReadsLogin(client: Client, c: Credentials, h: Host, port: nat)
    requires NameFits(h) && GoodHost(h) && port < 65536 && |c.username| <= 255 && |c.password| <= 255
    ensures var read := ServerReads(Greeting(client, Some(c)) + (LoginMessage(c) + RequestMessage(h, port)), true);
      if c.username == [] || c.password == [] then read == None
      else
        read.Some? && read.value.login == Some(c) && read.value.target == (h, port) && PASSWORD in read.value.methods
  {
    var request := RequestMessage(h, port);
    GreetingParses(client, Some(c), LoginMessage(c) + request);
    if c.username == [] || c.password == [] {
      BlankLoginIsRefused(c, request);
    } else {
      LoginParses(c, request);
      RequestIsAll(h, port);
    }
  }

  lemma ServerReadsWritten(client: Client, h: Host, port: nat, auth: Option<Credentials>)
    requires NameFits(h) && GoodHost(h) && port < 65536 && (auth.Some? ==> Sendable(client, auth.value))
    ensures var read := ServerReads(Written(client, h, port, auth), auth.Some?);
      && (read.Some? <==> (auth.Some? ==> auth.value.username != [] && auth.value.password != []))
      && (read.Some? ==>
            && read.value.login == auth && read.value.target == (h, port)
            && (if auth.Some? then PASSWORD else ANYONE) in read.value.methods)
  {
    match auth {
      case None => ServerReadsPlain(client, h, port);
      case Some(c) => ServerReadsLogin(client, c, h, port);
    }
  }

  /** A tunnel opened by either client: a server that follows the RFCs reads back
      the offered method, the credentials and the target, and nothing more. It
      does so exactly when the credentials, if any, are not blank: the probe
      checks that before sending, the relay does not. */
  lemma ServerUnderstandsClient(client: Client, h: Host, port: nat, auth: Option<Credentials>, inbox: bytes)
    requires port < 65536 && GoodHost(h) && Tunnel(client, h, port, auth, Wire(inbox, [])).failure.None?
    ensures var read := ServerReads(Tunnel(client, h, port, auth, Wire(inbox, [])).wire.outbox, auth.Some?);
      && (read.Some? <==> (auth.Some? ==> auth.value.username != [] && auth.value.password != []))
      && (read.Some? ==>
            && read.value.login == auth && read.value.target == (h, port)
            && (if auth.Some? then PASSWORD else ANYONE) in read.value.methods)
      && (client.ProbeClient? ==> read.Some?)
  {
    TunnelWrites(client, h, port, auth, inbox);
    ServerReadsWritten(client, h, port, auth);
  }

  // ---------- Consuming exactly one reply ----------

  lemma BoundIsSkipped(bound: Host, port: nat, t: bytes, outbox: bytes)
    requires GoodHost(bound) && NameFits(bound) && port < 65536
    ensures SkipBound(AddressBytes(bound)[0], Wire(AddressBytes(bound)[1..] + PortBytes(port) + t, outbox))
         == Stage(Wire(t, outbox), None)
  {
  }

  lemma ReplyIsConsumed(rep: byte, bound: Host, port: nat, t: bytes, outbox: bytes)
    requires GoodHost(bound) && NameFits(bound) && port < 65536
    ensures var r := ReadReply(Wire(EncodeReply(rep, bound, port) + t, outbox));
      if rep == 0 then r == Stage(Wire(t, outbox), None) else r.failure == Some(OSError)
  {
    var kind, rest := AddressBytes(bound)[0], AddressBytes(bound)[1..] + PortBytes(port) + t;
    assert EncodeReply(rep, bound, port) + t == [5, rep, 0, kind] + rest;
    HeadIsRead(rep, kind, rest, outbox);
    BoundIsSkipped(bound, port, t, outbox);
  }

  lemma HeadIsRead(rep: byte, kind: byte, rest: bytes, outbox: bytes)
    ensures ReadReply(Wire([5, rep, 0, kind] + rest, outbox))
         == if rep == 0 then SkipBound(kind, Wire(rest, outbox)) else Stage(Wire(rest, outbox), Some(OSError))
  {
    var head := [5, rep, 0, kind];
    ExactlyPrefix(head, rest);
    assert head[..2] == [5, rep];
    assert rep != 0 ==> head[..2][1] != 0;
  }

  // The server's side of a successful conversation.
  function ServerWrites(auth: Option<Credentials>, bound: Host, boundPort: nat): bytes
    requires NameFits(bound) && boundPort < 65536
  {
    if auth.Some? then [5, PASSWORD] + ([1, 0] + EncodeReply(0, bound, boundPort))
    else [5, ANYONE] + EncodeReply(0, bound, boundPort)
  }

  lemma ConnectGetsThrough(h: Host, port: nat, bound: Host, boundPort: nat, tunnel: bytes, outbox: bytes)
    requires port < 65536 && boundPort < 65536 && GoodHost(bound) && NameFits(bound)
    ensures var r := Connect(h, port, Wire(EncodeReply(0, bound, boundPort) + tunnel, outbox));
      if NameFits(h) then r.failure.None? && r.wire.inbox == tunnel else r.failure == Some(ValueError)
  {
  }

  lemma NegotiateGetsThrough(client: Client, auth: Option<Credentials>, t: bytes)
    ensures Negotiate(client, auth, Wire([5, Method(auth)] + t, [])) == Stage(Wire(t, Greeting(client, auth)), None)
  {
  }

  lemma LoginGetsThrough(client: Client, c: Credentials, t: bytes, outbox: bytes)
    requires Sendable(client, c)
    ensures Login(client, c, Wire([1, 0] + t, outbox)) == Stage(Wire(t, outbox + LoginMessage(c)), None)
  {
  }

  lemma OpensWithoutLogin(client: Client, h: Host, port: nat, bound: Host, boundPort: nat, tunnel: bytes)
    requires port < 65536 && boundPort < 65536 && GoodHost(bound) && NameFits(bound)
    ensures var reply := EncodeReply(0, bound, boundPort) + tunnel;
      var r := Tunnel(client, h, port, None, Wire([5, Method(None)] + reply, []));
      if NameFits(h) then r.failure.None? && r.wire.inbox == tunnel else r.failure == Some(ValueError)
  {
  }

  lemma OpensWithLogin(client: Client, h: Host, port: nat, c: Credentials, bound: Host, boundPort: nat, tunnel: bytes)
    requires port < 65536 && boundPort < 65536 && GoodHost(bound) && NameFits(bound)
    ensures var reply := EncodeReply(0, bound, boundPort) + tunnel;
      var r := Tunnel(client, h, port, Some(c), Wire([5, Method(Some(c))] + ([1, 0] + reply), []));
      if NameFits(h) && Sendable(client, c) then r.failure.None? && r.wire.inbox == tunnel
      else r.failure == Some(ValueError)
  {
    var reply := EncodeReply(0, bound, boundPort) + tunnel;
    NegotiateGetsThrough(client, Some(c), [1, 0] + reply);
    if Sendable(client, c) {
      LoginGetsThrough(client, c, reply, Greeting(client, Some(c)));
      ConnectGetsThrough(h, port, bound, boundPort, tunnel, Greeting(client, Some(c)) + LoginMessage(c));
    }
  }

  /** Whatever bound address the server reports, a client that may send its
      credentials and its target name gets through, and the first byte of the
      tunnel is the next one to read. */
  lemma TunnelStartsAfterReply(client: Client, h: Host, port: nat, auth: Option<Credentials>,
                               bound: Host, boundPort: nat, tunnel: bytes)
    requires port < 65536 && boundPort < 65536 && GoodHost(bound) && NameFits(bound)
    ensures var r := Tunnel(client, h, port, auth, Wire(ServerWrites(auth, bound, boundPort) + tunnel, []));
      && (r.failure.None? <==> NameFits(h) && (auth.Some? ==> Sendable(client, auth.value)))
      && (r.failure.None? ==> r.wire.inbox == tunnel)
      && (r.failure.Some? ==> r.failure == Some(ValueError))
  {
    var reply := EncodeReply(0, bound, boundPort);
    match auth {
      case None =>
        Associates([5, Method(auth)], reply, tunnel);
        OpensWithoutLogin(client, h, port, bound, boundPort, tunnel);
      case Some(c) =>
        Associates([5, Method(auth)], [1, 0] + reply, tunnel);
        Associates([1, 0], reply, tunnel);
        OpensWithLogin(client, h, port, c, bound, boundPort, tunnel);
    }
  }

  // ---------- Refusals ----------

  lemma AnswerIsCompared(a: byte, b: byte, t: bytes, outbox: bytes, answer: bytes)
    requires |answer| == 2
    ensures Expect(Wire([a, b] + t, outbox), answer)
         == Stage(Wire(t, outbox), if [a, b] == answer then None else Some(OSError))
  {
    ExactlyPrefix([a, b], t);
  }

  /** A server that does not select the method the client needs gets neither credentials nor
      the target. */
  lemma RefusedMethodEnds(client: Client, h: Host, port: nat, auth: Option<Credentials>, a: byte, b: byte, t: bytes)
    requires port < 65536 && (a != 5 || b != if auth.Some? then PASSWORD else ANYONE)
    ensures var r := Tunnel(client, h, port, auth, Wire([a, b] + t, []));
      r.failure == Some(OSError) && r.wire.outbox == Greeting(client, auth)
  {
    AnswerIsCompared(a, b, t, Greeting(client, auth), [5, Method(auth)]);
  }

  /** One that refuses the credentials does not get the target. */
  lemma RefusedLoginEnds(client: Client, h: Host, port: nat, c: Credentials, a: byte, b: byte, t: bytes)
    requires port < 65536 && Sendable(client, c) && (a != 1 || b != 0)
    ensures var r := Tunnel(client, h, port, Some(c), Wire([5, PASSWORD] + ([a, b] + t), []));
      r.failure == Some(OSError) && r.wire.outbox == Greeting(client, Some(c)) + LoginMessage(c)
  {
    NegotiateGetsThrough(client, Some(c), [a, b] + t);
    AnswerIsCompared(a, b, t, Greeting(client, Some(c)) + LoginMessage(c), [1, 0]);
  }

  /** And one that hangs up early is an IncompleteReadError, whatever was said before. */
  lemma HangingUpIsIncomplete(client: Client, h: Host, port: nat, auth: Option<Credentials>, inbox: bytes)
    requires port < 65536 && |inbox| < 2
    ensures Tunnel(client, h, port, auth, Wire(inbox, []))
         == Stage(Wire([], Greeting(client, auth)), Some(IncompleteRead))
  {
  }
}
