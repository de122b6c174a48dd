/** The class-based rewrite, socks5.cpp and include/socks5.h: the same
    protocol as the reference server, read from a fixed 1024-octet receive
    buffer, with `ErrorCode` values that are the negated reply codes, and
    held together by the `Socks5Server` class. Each parser is related to the
    reference's by a lemma or by its contract. */
module Socks5 {
  import opened Bytes
  import opened Codes
  import opened Addresses
  import Relay
  import MicroSocks

  // ---------------------------------------------------------------------
  // Enumerations (include/socks5.h)

  /** The `ErrorCode` enumerator values: SUCCESS = 0, GENERAL_FAILURE = -1,
      ..., ADDRESSTYPE_NOT_SUPPORTED = -8. */
  function EnumValue(e: ErrorCode): (v: int)
    ensures -8 <= v <= 0
    ensures v == 0 <==> e == Success
  {
    match e
    case Success => 0
    case GeneralFailure => -1
    case NotAllowed => -2
    case NetUnreachable => -3
    case HostUnreachable => -4
    case ConnRefused => -5
    case TtlExpired => -6
    case CommandNotSupported => -7
    case AddressTypeNotSupported => -8
  }

  /** The enumerator values are the negated RFC 1928 reply codes, so
      distinct codes have distinct values; a failure stored into a reply
      octet becomes 256 minus its reply code, which is no RFC 1928 reply
      code at all. */
  lemma EnumValueWire(e: ErrorCode, f: ErrorCode)
    ensures EnumValue(e) + ReplyCode(e) == 0
    ensures EnumValue(e) == EnumValue(f) ==> e == f
    ensures e != Success ==> ToByte(EnumValue(e)) == 256 - ReplyCode(e)
    ensures e != Success ==> ErrorCodeOf(ToByte(EnumValue(e))).None?
  {
  }

  // ---------------------------------------------------------------------
  // The receive buffer

  const BUFFER_SIZE: nat := 1024

  /** `Buffer`: the receive area `data` and `recieved`, what the last `recv`
      returned. */
  datatype Buffer = Buffer(data: seq<Byte>, recieved: int)

  predicate BufferOk(b: Buffer)
  {
    |b.data| == BUFFER_SIZE && b.recieved <= BUFFER_SIZE
  }

  /** The octets the last `recv` delivered; none when it returned 0 or less. */
  function Received(b: Buffer): (r: seq<Byte>)
    requires BufferOk(b)
    ensures |r| == if b.recieved > 0 then b.recieved else 0
  {
    if b.recieved > 0 then b.data[..b.recieved] else []
  }

  /** A slice of the received octets is the same slice of the buffer. */
  lemma ReceivedSlice(b: Buffer, i: nat, j: nat)
    requires BufferOk(b) && i <= j <= b.recieved
    ensures Received(b)[i..j] == b.data[i..j]
  {
    forall k | i <= k < j
      ensures Received(b)[k] == b.data[k]
    {
    }
  }

  /** A new buffer: zero-filled, nothing received. */
  function EmptyBuffer(): (b: Buffer)
    ensures BufferOk(b) && Received(b) == []
  {
    Buffer(seq(BUFFER_SIZE, _ => 0), 0)
  }

  /** A `recv` that delivered `msg` (empty: it returned 0 or less): the
      message overwrites the front of the buffer and the octets after it
      are left from earlier messages. */
  function Receive(b: Buffer, msg: seq<Byte>): (r: Buffer)
    requires BufferOk(b) && |msg| <= BUFFER_SIZE
    ensures BufferOk(r) && Received(r) == msg
    ensures r.data[|msg|..] == b.data[|msg|..]
  {
    Buffer(msg + b.data[|msg|..], |msg|)
  }

  // ---------------------------------------------------------------------
  // Clients and the authenticated-address check

  /** `Socks5Server::Client`: the accepted peer's address and socket, the
      `valid` flag of `Server::Client`, and the protocol state. */
  datatype Client = Client(address: PeerAddr, socket: int, valid: bool, state: State)

  /** `isAuthenticated` as written: `af` is initialised with the pointer
      `family(&authedip)`, so `af == family(&client)` compares the addresses
      of the two `sin_family` fields, which are equal only when both
      references name the same object (`sameObject`); `*af` then reads the
      family to size the comparison. */
  function IsAuthenticatedAsWritten(client: PeerAddr, authed: PeerAddr, sameObject: bool): (r: bool)
    requires sameObject ==> client == authed
    ensures r == sameObject
  {
    if sameObject then
      var cmpbytes := if Family(authed) == AF_INET then 4 else 16;
      Address(client).value[..cmpbytes] == Address(authed).value[..cmpbytes]
    else false
  }

  /** The registry holds copies (`emplace_back` copies the client, and
      `proxyRequest` takes its client by value), so as written an address
      is never recognised, although the reference accepts it. */
  lemma AsWrittenRejectsCopies(a: PeerAddr)
    ensures !IsAuthenticatedAsWritten(a, a, false)
    ensures MicroSocks.IsAuthed(a, a)
  {
  }

  /** `isAuthenticated` comparing the family values, as evidently intended:
      it then agrees with the reference's `is_authed`. */
  function IsAuthenticated(client: PeerAddr, authed: PeerAddr): (r: bool)
    ensures r == MicroSocks.IsAuthed(client, authed)
  {
    var af := Family(authed);
    af == Family(client) &&
    var cmpbytes := if af == AF_INET then 4 else 16;
    Address(client).value[..cmpbytes] == Address(authed).value[..cmpbytes]
  }

  /** Whether some registered client has the client's address. */
  predicate Registered(clients: seq<Client>, client: PeerAddr)
  {
    exists i :: 0 <= i < |clients| && IsAuthenticated(client, clients[i].address)
  }

  /** The addresses of the registered clients, in order. */
  function Addrs(clients: seq<Client>): (r: seq<PeerAddr>)
    ensures |r| == |clients|
    ensures forall i :: 0 <= i < |clients| ==> r[i] == clients[i].address
  {
    if clients == [] then [] else [clients[0].address] + Addrs(clients[1..])
  }

  /** Registering a client extends the addresses by its address. */
  lemma AddrsAppend(clients: seq<Client>, c: Client)
    ensures Addrs(clients + [c]) == Addrs(clients) + [c.address]
  {
    assert forall i :: 0 <= i < |clients| ==> (clients + [c])[i] == clients[i];
  }

  /** The registry lookup agrees with the reference's over the addresses. */
  lemma RegisteredAgrees(clients: seq<Client>, a: PeerAddr)
    ensures Registered(clients, a) == MicroSocks.Authenticated(Addrs(clients), a)
  {
    if MicroSocks.Authenticated(Addrs(clients), a) {
      var i :| 0 <= i < |Addrs(clients)| && MicroSocks.IsAuthed(a, Addrs(clients)[i]);
      assert IsAuthenticated(a, clients[i].address);
    }
  }

  // ---------------------------------------------------------------------
  // Credentials (RFC 1929 section 2)

  /** `checkCredentials` over the buffer with `recieved` as the length:
      the reference's length guards, version check and C-string
      comparisons, reading only the received octets. */
  function CheckCredentials(b: Buffer, username: seq<Byte>, password: seq<Byte>): (r: ErrorCode)
    requires BufferOk(b)
    ensures r == MicroSocks.CheckCredentials(Received(b), MicroSocks.Credentials(username, password))
  {
    var n := b.recieved;
    var data := b.data;
    ghost var m := Received(b);
    if n < 5 then GeneralFailure
    else if data[0] != 1 then assert m[0] == data[0]; GeneralFailure
    else
      var ulen: int := data[1];
      assert m[..2] == data[..2];
      if n < 2 + ulen + 2 then GeneralFailure
      else
        var plen: int := data[2 + ulen];
        assert m[2 + ulen] == plen;
        if n < 2 + ulen + 1 + plen then GeneralFailure
        else
          ReceivedSlice(b, 2, 2 + ulen);
          ReceivedSlice(b, 3 + ulen, 3 + ulen + plen);
          if CString(data[2..2 + ulen]) == CString(username)
             && CString(data[3 + ulen..3 + ulen + plen]) == CString(password)
          then Success
          else NotAllowed
  }

  // ---------------------------------------------------------------------
  // The CONNECT request (RFC 1928 sections 4 to 6)

  /** The parse part of `connectClient` over the buffer: the reference's
      header checks, minimum lengths and big-endian port, reading only the
      received octets. */
  function ParseRequest(b: Buffer, ntopOk: bool): (r: Result<MicroSocks.Target, ErrorCode>)
    requires BufferOk(b)
    ensures r == MicroSocks.ParseConnect(Received(b), ntopOk)
  {
    var n := b.recieved;
    var data := b.data;
    if n < 5 then Err(GeneralFailure)
    else if data[0] != 5 then Err(GeneralFailure)
    else if data[1] != 1 then Err(CommandNotSupported)
    else if data[2] != 0 then Err(GeneralFailure)
    else if data[3] == 4 || data[3] == 1 then
      var minlen := if data[3] == 4 then 4 + 2 + 16 else 4 + 4 + 2;
      if n < minlen then Err(GeneralFailure)
      else if !ntopOk then Err(GeneralFailure)
      else
        ReceivedSlice(b, 4, minlen - 2);
        Ok(MicroSocks.Target(if data[3] == 4 then MicroSocks.IPv6 else MicroSocks.IPv4, data[4..minlen - 2],
                             BigEndian16(data[minlen - 2], data[minlen - 1])))
    else if data[3] == 3 then
      var l: int := data[4];
      var minlen := 4 + 2 + l + 1;
      if n < 4 + 2 + l + 1 then Err(GeneralFailure)
      else
        ReceivedSlice(b, 5, 5 + l);
        Ok(MicroSocks.Target(MicroSocks.DomainName, data[5..5 + l],
                             BigEndian16(data[minlen - 2], data[minlen - 1])))
    else Err(AddressTypeNotSupported)
  }

  /** How `connectClient`'s result encodes an outcome: the upstream
      descriptor, or the negative enumerator value of the reply code. */
  function Wire(r: Result<nat, ErrorCode>): int
  {
    match r
    case Ok(fd) => fd
    case Err(e) => EnumValue(e)
  }

  /** Whether both servers make the same bind decision for an address:
      the reference binds when the family is not AF_UNSPEC, the rewrite when
      the address has a non-zero length. Every address that resolving a
      bind address produces (AF_UNSPEC, or an IPv4 or IPv6 address) does. */
  predicate BindOk(bind: SockAddr)
  {
    (Family(bind) != AF_UNSPEC) == (Length(bind) != 0)
  }

  /** `connectClient`: the parse, then resolve, socket, bind, connect. The
      test `family(&bindAddress) != AF_UNSPEC` compares a pointer and always
      holds, so the bind is left to `bindToSockAddress`, which skips it for
      an address of length 0. The result is the upstream descriptor on
      success and otherwise a negative enumerator value; where both servers
      make the same bind decision it encodes the reference's outcome. */
  function ConnectClient(b: Buffer, bind: SockAddr, d: MicroSocks.Dial): (r: int)
    requires BufferOk(b)
    ensures r >= -8
    ensures r >= 0 ==> r == d.fd
  {
    match ParseRequest(b, d.ntopOk)
    case Err(e) => EnumValue(e)
    case Ok(_) =>
      match MicroSocks.Upstream(d, Length(bind) != 0)
      case Ok(fd) => fd
      case Err(e) => EnumValue(e)
  }

  /** `connectClient` fails exactly when the parse or the dial does, and
      where both servers make the same bind decision its result encodes the
      reference's outcome. */
  lemma ConnectClientAgrees(b: Buffer, bind: SockAddr, d: MicroSocks.Dial)
    requires BufferOk(b)
    ensures ConnectClient(b, bind, d) < 0 <==>
              !(ParseRequest(b, d.ntopOk).Ok? && MicroSocks.Upstream(d, Length(bind) != 0).Ok?)
    ensures BindOk(bind) ==> ConnectClient(b, bind, d) == Wire(MicroSocks.ConnectSocksTarget(Received(b), bind, d))
  {
  }

  // ---------------------------------------------------------------------
  // Reply frames

  /** `sendResponseCode`: two octets, the version and the code, each stored
      into an `unsigned char`. For codes in 0..255 it is the reference's
      `send_auth_response`; the code octet is 0 exactly for a code that is
      0 modulo 256. */
  function SendResponseCode(version: int, code: int): (r: seq<Byte>)
    ensures |r| == 2 && r[0] == ToByte(version) && r[1] == ToByte(code)
    ensures 0 <= version < 256 && 0 <= code < 256 ==> r == MicroSocks.AuthResponse(version, code)
    ensures r[1] == 0 <==> code % 256 == 0
  {
    [ToByte(version), ToByte(code)]
  }

  /** `sendError`: ten octets, the code stored into a `char`, ATYP IPv4 and
      a zero address and port; every octet but the code is the reference
      frame's. */
  function SendError(code: int): (r: seq<Byte>)
    ensures |r| == 10 && r[1] == ToByte(code)
    ensures r[..1] == MicroSocks.SendError(Success)[..1] && r[2..] == MicroSocks.SendError(Success)[2..]
  {
    [5, ToByte(code), 0, 1, 0, 0, 0, 0, 0, 0]
  }

  /** A reply code sent through the enumerator value is the reference frame
      exactly for SUCCESS; a failure carries 256 minus its reply code. */
  lemma SendErrorWire(e: ErrorCode)
    ensures SendError(EnumValue(e)) == MicroSocks.SendError(e) <==> e == Success
    ensures e != Success ==> SendError(EnumValue(e))[1] == 256 - ReplyCode(e)
  {
    EnumValueWire(e, e);
    if e != Success {
      assert SendError(EnumValue(e))[1] != MicroSocks.SendError(e)[1];
    }
  }

  // ---------------------------------------------------------------------
  // One turn of `proxyRequest`

  /** The server's configuration as `proxyRequest` reads it: the user name
      and password (None: a null pointer), `maintainAuthentication`, and the
      bind address. */
  datatype Settings = Settings(username: Option<seq<Byte>>, password: Option<seq<Byte>>,
                               maintain: bool, bind: SockAddr)

  /** `strcmp` on the password needs one whenever a user name is set. */
  predicate Usable(s: Settings)
  {
    s.username.Some? ==> s.password.Some?
  }

  /** The same configuration in the reference server's terms. */
  function RefConfig(s: Settings): (c: MicroSocks.Config)
    requires Usable(s)
    ensures c.auth.Some? == s.username.Some? && c.authOnce == s.maintain && c.bind == s.bind
  {
    var auth := if s.username.Some? then Some(MicroSocks.Credentials(s.username.value, s.password.value)) else None;
    MicroSocks.Config(auth, s.maintain, s.bind)
  }

  /** One turn of the loop: the new state, the reply sent, whether the loop
      ends, the registered clients afterwards, the upstream descriptor given
      to `copy`, the descriptor `connectClient` opened, and what it closed. */
  datatype StepResult = StepResult(state: State, reply: seq<Byte>, terminate: bool,
                                   clients: seq<Client>, remote: Option<nat>,
                                   dialled: Option<nat>, closed: seq<int>)

  /** The switch of `proxyRequest` on a received message. The registered
      copy is the client as it is by then, in state AUTHED. */
  function ProxyStep(st: State, s: Settings, clients: seq<Client>, client: Client,
                     b: Buffer, d: MicroSocks.Dial): (r: StepResult)
    requires BufferOk(b) && b.recieved > 0
    requires st == NeedAuth ==> s.username.Some? && s.password.Some?
    ensures Ordinal(r.state) >= Ordinal(st)
    ensures !r.terminate ==> Ordinal(r.state) > Ordinal(st)
    ensures r.state == NeedAuth ==> s.username.Some?
    ensures st == Authed ==> r.terminate
    ensures r.clients == clients || (st == NeedAuth && s.maintain && r.clients == clients + [client.(state := Authed)])
    ensures st == Authed ==> r.state == Authed
    ensures r.remote == (if st == Authed && ConnectClient(b, s.bind, d) >= 0
                         then Some(ConnectClient(b, s.bind, d)) else None)
    ensures r.dialled == (if st == Authed then MicroSocks.Opened(Received(b), d) else None)
    ensures r.closed == (if r.remote.None? && r.dialled.Some? then [r.dialled.value] else [])
  {
    match st
    case Connected =>
      var am := MicroSocks.SelectMethod(Received(b), s.username.Some?, s.maintain, Registered(clients, client.address));
      var next := if am == NoAuth then Authed else if am == Username then NeedAuth else Connected;
      StepResult(next, SendResponseCode(5, MethodOctet(am)), am == Invalid, clients, None, None, [])
    case NeedAuth =>
      var value := CheckCredentials(b, s.username.value, s.password.value);
      if value != Success then
        StepResult(NeedAuth, SendResponseCode(1, EnumValue(value)), true, clients, None, None, [])
      else
        StepResult(Authed, SendResponseCode(1, EnumValue(value)), false,
                   if s.maintain then clients + [client.(state := Authed)] else clients, None, None, [])
    case Authed =>
      var remoteSocket := ConnectClient(b, s.bind, d);
      var dialled := MicroSocks.Opened(Received(b), d);
      if remoteSocket < 0 then
        StepResult(Authed, SendError(remoteSocket), true, clients, None, dialled,
                   if dialled.Some? then [dialled.value] else [])
      else
        StepResult(Authed, SendError(EnumValue(Success)), true, clients, Some(remoteSocket), dialled, [])
  }

  /** What a turn of the rewrite shares with the reference server's turn
      `q` from the state `st`. */
  predicate Agrees(st: State, r: StepResult, q: MicroSocks.StepResult)
  {
    && r.state == q.state && r.terminate == q.terminate && Addrs(r.clients) == q.entries
    && r.remote == q.remote && r.dialled == q.dialled && r.closed == q.closed
    && (st == Connected ==> r.reply == q.reply)
    && (st != Connected ==> |r.reply| == |q.reply| > 1 && r.reply[0] == q.reply[0]
                            && r.reply[1] == ToByte(0 - q.reply[1] as int) && r.reply[2..] == q.reply[2..])
  }

  /** A turn of the rewrite is a turn of the reference server on the
      received octets, with the same state, the same loop exit, the same
      registered addresses, the same descriptors opened, handed on and
      closed: where both servers make the same bind decision, the replies
      differ only in the status octet, which is the reference's reply code
      negated modulo 256; greeting replies are identical. */
  lemma ProxyStepAgrees(st: State, s: Settings, clients: seq<Client>, client: Client,
                        b: Buffer, d: MicroSocks.Dial)
    requires BufferOk(b) && b.recieved > 0 && Usable(s) && BindOk(s.bind)
    requires st == NeedAuth ==> s.username.Some?
    ensures Agrees(st, ProxyStep(st, s, clients, client, b, d),
                   MicroSocks.Step(st, RefConfig(s), Addrs(clients), client.address, Received(b), d))
  {
    match st {
      case Connected => GreetingAgrees(s, clients, client, b, d);
      case NeedAuth => CredentialsAgree(s, clients, client, b, d);
      case Authed => RequestAgrees(s, clients, client, b, d);
    }
  }

  lemma GreetingAgrees(s: Settings, clients: seq<Client>, client: Client, b: Buffer, d: MicroSocks.Dial)
    requires BufferOk(b) && b.recieved > 0 && Usable(s)
    ensures Agrees(Connected, ProxyStep(Connected, s, clients, client, b, d),
                   MicroSocks.Step(Connected, RefConfig(s), Addrs(clients), client.address, Received(b), d))
  {
    RegisteredAgrees(clients, client.address);
  }

  lemma CredentialsAgree(s: Settings, clients: seq<Client>, client: Client, b: Buffer, d: MicroSocks.Dial)
    requires BufferOk(b) && b.recieved > 0 && Usable(s) && s.username.Some?
    ensures Agrees(NeedAuth, ProxyStep(NeedAuth, s, clients, client, b, d),
                   MicroSocks.Step(NeedAuth, RefConfig(s), Addrs(clients), client.address, Received(b), d))
  {
    var value := CheckCredentials(b, s.username.value, s.password.value);
    EnumValueWire(value, value);
    AddrsAppend(clients, client.(state := Authed));
  }

  lemma RequestAgrees(s: Settings, clients: seq<Client>, client: Client, b: Buffer, d: MicroSocks.Dial)
    requires BufferOk(b) && b.recieved > 0 && Usable(s) && BindOk(s.bind)
    ensures Agrees(Authed, ProxyStep(Authed, s, clients, client, b, d),
                   MicroSocks.Step(Authed, RefConfig(s), Addrs(clients), client.address, Received(b), d))
  {
    RequestOutcomeAgrees(s, clients, client, b, d);
    RequestReplyAgrees(s, clients, client, b, d);
  }

  lemma RequestOutcomeAgrees(s: Settings, clients: seq<Client>, client: Client, b: Buffer, d: MicroSocks.Dial)
    requires BufferOk(b) && b.recieved > 0 && Usable(s) && BindOk(s.bind)
    ensures var r := ProxyStep(Authed, s, clients, client, b, d);
      var q := MicroSocks.Step(Authed, RefConfig(s), Addrs(clients), client.address, Received(b), d);
      r.state == q.state && r.terminate == q.terminate && Addrs(r.clients) == q.entries
      && r.remote == q.remote && r.dialled == q.dialled && r.closed == q.closed
  {
    ConnectClientAgrees(b, s.bind, d);
  }

  lemma RequestReplyAgrees(s: Settings, clients: seq<Client>, client: Client, b: Buffer, d: MicroSocks.Dial)
    requires BufferOk(b) && b.recieved > 0 && Usable(s) && BindOk(s.bind)
    ensures var r := ProxyStep(Authed, s, clients, client, b, d);
      var q := MicroSocks.Step(Authed, RefConfig(s), Addrs(clients), client.address, Received(b), d);
      |r.reply| == |q.reply| > 1 && r.reply[0] == q.reply[0]
      && r.reply[1] == ToByte(0 - q.reply[1] as int) && r.reply[2..] == q.reply[2..]
  {
    var t := MicroSocks.ConnectSocksTarget(Received(b), s.bind, d);
    var e := if t.Ok? then Success else t.error;
    ConnectClientAgrees(b, s.bind, d);
    assert ProxyStep(Authed, s, clients, client, b, d).reply == SendError(EnumValue(e));
    assert MicroSocks.Step(Authed, RefConfig(s), Addrs(clients), client.address, Received(b), d).reply
           == MicroSocks.SendError(e);
    FrameAgrees(e);
  }

  /** The CONNECT reply for a code in both servers' encodings. */
  lemma FrameAgrees(e: ErrorCode)
    ensures |SendError(EnumValue(e))| == |MicroSocks.SendError(e)| > 1
    ensures SendError(EnumValue(e))[0] == MicroSocks.SendError(e)[0]
    ensures SendError(EnumValue(e))[1] == ToByte(0 - MicroSocks.SendError(e)[1] as int)
    ensures SendError(EnumValue(e))[2..] == MicroSocks.SendError(e)[2..]
  {
    EnumValueWire(e, e);
  }

  // ---------------------------------------------------------------------
  // Whole connections (`proxyRequest` and `copy`)

  /** The reply `copy` sends when `select` times out: `sendError` with
      TTL_EXPIRED, whose code octet is 256 - 6. */
  function TimeoutFrame(): (f: seq<Byte>)
    ensures |f| == 10 && f[1] == 250
  {
    SendError(EnumValue(TtlExpired))
  }

  /** A connection's observable history: the state reached, the octets sent
      to the client and to the upstream, the registered clients afterwards,
      the upstream descriptor opened, the descriptors closed, and whether the
      thread has ended. */
  datatype Session = Session(state: State, toClient: seq<Byte>, toRemote: seq<Byte>,
                             clients: seq<Client>, dialled: Option<nat>, closed: seq<int>,
                             finished: bool)

  function Prepend(out: seq<Byte>, s: Session): Session
  {
    s.(toClient := out + s.toClient)
  }

  /** What `recv` can deliver into the buffer: at most its 1024 octets. */
  predicate Fits(msgs: seq<seq<Byte>>)
  {
    forall m :: m in msgs ==> |m| <= BUFFER_SIZE
  }

  /** After the turn that left the loop: without an upstream the client
      socket is closed after whatever `connectClient` closed; after a
      successful CONNECT `copy` relays with the TTL_EXPIRED frame as its
      timeout reply, then the upstream and the client sockets are closed. */
  function Finish(r: StepResult, clientSocket: int, env: MicroSocks.Env): (s: Session)
    requires Relay.EventsOk(env.relay)
    ensures s.state == r.state && s.clients == r.clients && s.dialled == r.dialled
    ensures r.remote.None? ==> s.finished && s.closed == r.closed + [clientSocket] && s.toClient == r.reply
    ensures r.remote.Some? && s.finished ==> s.closed == [r.remote.value, clientSocket]
    ensures !s.finished ==> s.closed == []
  {
    if r.remote.None? then
      Session(r.state, r.reply, [], r.clients, r.dialled, r.closed + [clientSocket], true)
    else
      var t := Relay.RelayRun(env.relay, TimeoutFrame());
      if t.outcome == Relay.Running then
        Session(r.state, r.reply + t.toClient, t.toRemote, r.clients, r.dialled, [], false)
      else
        Session(r.state, r.reply + t.toClient, t.toRemote, r.clients, r.dialled,
                [r.remote.value, clientSocket], true)
  }

  /** `proxyRequest` from state `st` with the buffer `b`, over the results
      of successive `recieve` calls; an empty message is a `recv` that
      returned 0 or less, which leaves the loop. */
  function Proxy(st: State, s: Settings, clients: seq<Client>, client: Client, b: Buffer,
                 msgs: seq<seq<Byte>>, env: MicroSocks.Env): Session
    requires BufferOk(b) && Fits(msgs) && Relay.EventsOk(env.relay)
    requires Usable(s) && (st == NeedAuth ==> s.username.Some?)
    decreases |msgs|
  {
    if msgs == [] then Session(st, [], [], clients, None, [], false)
    else
      var next := Receive(b, msgs[0]);
      if msgs[0] == [] then Session(st, [], [], clients, None, [client.socket], true)
      else
        var r := ProxyStep(st, s, clients, client, next, env.dial);
        if !r.terminate then
          Prepend(r.reply, Proxy(r.state, s, r.clients, client, next, msgs[1..], env))
        else Finish(r, client.socket, env)
  }

  /** What a connection of the rewrite shares with the reference's. */
  predicate SessionAgrees(p: Session, q: MicroSocks.Session)
  {
    && p.state == q.state && Addrs(p.clients) == q.entries && p.toRemote == q.toRemote
    && p.dialled == q.dialled && p.closed == q.closed && p.finished == q.finished
  }

  /** The end of a connection agrees once the turn that ended it does: the
      relay forwards the same octets to the upstream and stops at the same
      point whatever its timeout frame. */
  lemma FinishAgrees(st: State, r: StepResult, q: MicroSocks.StepResult, clientSocket: int, env: MicroSocks.Env)
    requires Relay.EventsOk(env.relay) && Agrees(st, r, q)
    ensures SessionAgrees(Finish(r, clientSocket, env), MicroSocks.Conclusion(q, clientSocket, env))
  {
    Relay.FrameIndependent(env.relay, TimeoutFrame(), MicroSocks.SendError(TtlExpired));
  }

  /** Over a whole connection the rewrite reaches the reference's state,
      registers the same addresses, forwards the same octets upstream, opens
      and closes the same descriptors, and ends when it does. */
  lemma {:induction false} ProxyAgrees(st: State, s: Settings, clients: seq<Client>, client: Client,
                                       b: Buffer, msgs: seq<seq<Byte>>, env: MicroSocks.Env)
    requires BufferOk(b) && Fits(msgs) && Relay.EventsOk(env.relay)
    requires Usable(s) && BindOk(s.bind) && (st == NeedAuth ==> s.username.Some?)
    ensures SessionAgrees(Proxy(st, s, clients, client, b, msgs, env),
                          MicroSocks.Run(st, RefConfig(s), Addrs(clients), client.address, client.socket, msgs, env))
    decreases |msgs|
  {
    if msgs != [] && msgs[0] != [] {
      var next := Receive(b, msgs[0]);
      var r := ProxyStep(st, s, clients, client, next, env.dial);
      var q := MicroSocks.Step(st, RefConfig(s), Addrs(clients), client.address, msgs[0], env.dial);
      ProxyStepAgrees(st, s, clients, client, next, env.dial);
      if !r.terminate {
        ProxyAgrees(r.state, s, r.clients, client, next, msgs[1..], env);
      } else {
        FinishAgrees(st, r, q, client.socket, env);
      }
    }
  }

  /** Over a whole connection the state never regresses. */
  lemma ProxyNeverRegresses(st: State, s: Settings, clients: seq<Client>, client: Client,
                            b: Buffer, msgs: seq<seq<Byte>>, env: MicroSocks.Env)
    requires BufferOk(b) && Fits(msgs) && Relay.EventsOk(env.relay)
    requires Usable(s) && BindOk(s.bind) && (st == NeedAuth ==> s.username.Some?)
    ensures Ordinal(Proxy(st, s, clients, client, b, msgs, env).state) >= Ordinal(st)
  {
    ProxyAgrees(st, s, clients, client, b, msgs, env);
    MicroSocks.RunNeverRegresses(st, RefConfig(s), Addrs(clients), client.address, client.socket, msgs, env);
  }

  /** A thread that ended has closed the upstream socket it opened and then
      the client socket; one still running has closed nothing. */
  lemma ProxyCloses(st: State, s: Settings, clients: seq<Client>, client: Client,
                    b: Buffer, msgs: seq<seq<Byte>>, env: MicroSocks.Env)
    requires BufferOk(b) && Fits(msgs) && Relay.EventsOk(env.relay)
    requires Usable(s) && BindOk(s.bind) && (st == NeedAuth ==> s.username.Some?)
    ensures var p := Proxy(st, s, clients, client, b, msgs, env);
      && (p.finished ==> p.closed == if p.dialled.Some? then [p.dialled.value, client.socket] else [client.socket])
      && (!p.finished ==> p.closed == [])
      && (p.dialled.Some? ==> env.dial.resolveOk && env.dial.socketErrno.None? && p.dialled.value == env.dial.fd)
  {
    ProxyAgrees(st, s, clients, client, b, msgs, env);
    MicroSocks.RunCloses(st, RefConfig(s), Addrs(clients), client.address, client.socket, msgs, env);
  }

  /** Over a whole connection the registry gains at most one copy of the
      client, in state AUTHED, only with `maintainAuthentication` on, and
      not once the client is AUTHED. */
  lemma {:induction false} ProxyRegisters(st: State, s: Settings, clients: seq<Client>, client: Client,
                                          b: Buffer, msgs: seq<seq<Byte>>, env: MicroSocks.Env)
    requires BufferOk(b) && Fits(msgs) && Relay.EventsOk(env.relay)
    requires Usable(s) && (st == NeedAuth ==> s.username.Some?)
    ensures var p := Proxy(st, s, clients, client, b, msgs, env);
      p.clients == clients || (s.maintain && st != Authed && p.clients == clients + [client.(state := Authed)])
    decreases |msgs|
  {
    if msgs != [] && msgs[0] != [] {
      var next := Receive(b, msgs[0]);
      var r := ProxyStep(st, s, clients, client, next, env.dial);
      if !r.terminate {
        ProxyRegisters(r.state, s, r.clients, client, next, msgs[1..], env);
        if r.clients != clients {
          assert r.state == Authed;
        }
      }
    }
  }

  /** The end of `proxyRequest`: `copy` after a successful CONNECT, then the
      closes. */
  method Conclude(r: StepResult, clientSocket: int, env: MicroSocks.Env) returns (s: Session)
    requires Relay.EventsOk(env.relay)
    ensures s == Finish(r, clientSocket, env)
  {
    if r.remote.None? {
      return Session(r.state, r.reply, [], r.clients, r.dialled, r.closed + [clientSocket], true);
    }
    var t := Relay.CopyLoop(env.relay, TimeoutFrame());
    if t.outcome == Relay.Running {
      s := Session(r.state, r.reply + t.toClient, t.toRemote, r.clients, r.dialled, [], false);
    } else {
      s := Session(r.state, r.reply + t.toClient, t.toRemote, r.clients, r.dialled,
                   [r.remote.value, clientSocket], true);
    }
  }

  // ---------------------------------------------------------------------
  // The server object

  /** `Socks5Server`: its configuration and the registry of authenticated
      clients, which `proxyRequest` extends in place. */
  class Socks5Server {
    var username: Option<seq<Byte>>
    var password: Option<seq<Byte>>
    var maintainAuthentication: bool
    var authenticatedClients: seq<Client>
    var bindAddress: SockAddr
    var verbose: bool

    /** The member initialisers, and a bind address of family AF_UNSPEC. */
    constructor ()
      ensures username == None && password == None && !maintainAuthentication
      ensures authenticatedClients == [] && bindAddress == Unbound(AF_UNSPEC) && !verbose
    {
      username := None;
      password := None;
      maintainAuthentication := false;
      authenticatedClients := [];
      bindAddress := Unbound(AF_UNSPEC);
      verbose := false;
    }

    /** The configuration `proxyRequest` reads. */
    function Current(): Settings
      reads this
    {
      Settings(username, password, maintainAuthentication, bindAddress)
    }

    /** `setAuthentication`: each parameter has the name of a member and
        hides it, so every assignment assigns a parameter to itself and the
        server is left as it was. */
    method SetAuthentication(username: Option<seq<Byte>>, password: Option<seq<Byte>>,
                             maintainAuthentication: bool)
    {
    }

    /** `setVerbose`: the same self-assignment; nothing changes. */
    method SetVerbose(verbose: bool)
    {
    }

    /** `setBindAddress`: `resolveSockAddress` sets the family to AF_UNSPEC
        and, when the name resolves, copies the resolved address over it
        (`resolved`: the result of resolving, None when it fails). */
    method SetBindAddress(resolved: Option<PeerAddr>)
      modifies this
      ensures bindAddress == if resolved.Some? then resolved.value else Unbound(AF_UNSPEC)
      ensures BindOk(bindAddress)
      ensures username == old(username) && password == old(password)
      ensures maintainAuthentication == old(maintainAuthentication) && verbose == old(verbose)
      ensures authenticatedClients == old(authenticatedClients)
    {
      bindAddress := Unbound(AF_UNSPEC);
      if resolved.Some? {
        bindAddress := resolved.value;
      }
    }

    /** `addAuthAddress`: a copy of the client is appended to the registry. */
    method AddAuthAddress(client: Client)
      modifies this
      ensures authenticatedClients == old(authenticatedClients) + [client]
      ensures Current() == old(Current()) && verbose == old(verbose)
    {
      authenticatedClients := authenticatedClients + [client];
    }

    /** `checkAuthMethod`: the scan over the offered methods, looking the
        client up in the registry (with the corrected `isAuthenticated`)
        when NO_AUTH is offered, a user is set and
        `maintainAuthentication` is on. It is called after a `recv` that
        delivered octets. */
    method CheckAuthMethod(b: Buffer, client: Client) returns (am: AuthMethod)
      requires BufferOk(b) && b.recieved > 0
      ensures am == MicroSocks.SelectMethod(Received(b), username.Some?, maintainAuthentication,
                                           Registered(authenticatedClients, client.address))
    {
      ghost var msg := Received(b);
      ghost var pre := Registered(authenticatedClients, client.address);
      if b.data[0] != 5 {
        return Invalid;
      }
      var index := 1;
      if index >= b.recieved {
        return Invalid;
      }
      var nMethods: int := b.data[index];
      index := index + 1;
      ghost var end := MicroSocks.ScanEnd(msg);
      while index < b.recieved && nMethods > 0
        invariant 2 <= index <= end && 0 <= nMethods
        invariant index + nMethods == 2 + msg[1] as int
        invariant MicroSocks.Scan(msg, 2, end, username.Some?, maintainAuthentication, pre)
               == MicroSocks.Scan(msg, index, end, username.Some?, maintainAuthentication, pre)
        decreases nMethods
      {
        assert b.data[index] == msg[index];
        if b.data[index] == 0 {
          if username.None? {
            return NoAuth;
          } else if maintainAuthentication {
            var authed := false;
            var i := 0;
            while i < |authenticatedClients|
              invariant 0 <= i <= |authenticatedClients|
              invariant !authed ==> forall j :: 0 <= j < i ==> !IsAuthenticated(client.address, authenticatedClients[j].address)
              invariant authed ==> pre
            {
              authed := IsAuthenticated(client.address, authenticatedClients[i].address);
              if authed {
                break;
              }
              i := i + 1;
            }
            if authed {
              return NoAuth;
            }
          }
        } else if b.data[index] == 2 {
          if username.Some? {
            return Username;
          }
        }
        index := index + 1;
        nMethods := nMethods - 1;
      }
      return Invalid;
    }

    /** The switch of `proxyRequest` on the client's state `st`; the copy
        registered after accepted credentials is in state AUTHED. */
    method Handle(st: State, client: Client, b: Buffer, d: MicroSocks.Dial) returns (r: StepResult)
      requires BufferOk(b) && b.recieved > 0 && Usable(Current())
      requires st == NeedAuth ==> username.Some?
      modifies this
      ensures r == ProxyStep(st, old(Current()), old(authenticatedClients), client, b, d)
      ensures authenticatedClients == r.clients
      ensures Current() == old(Current()) && verbose == old(verbose)
    {
      match st {
        case Connected =>
          var am := CheckAuthMethod(b, client);
          var next := st;
          if am == NoAuth {
            next := Authed;
          } else if am == Username {
            next := NeedAuth;
          }
          r := StepResult(next, SendResponseCode(5, MethodOctet(am)), am == Invalid,
                          authenticatedClients, None, None, []);
        case NeedAuth =>
          var value := CheckCredentials(b, username.value, password.value);
          if value != Success {
            r := StepResult(st, SendResponseCode(1, EnumValue(value)), true, authenticatedClients, None, None, []);
          } else {
            if maintainAuthentication {
              AddAuthAddress(client.(state := Authed));
            }
            r := StepResult(Authed, SendResponseCode(1, EnumValue(value)), false, authenticatedClients,
                            None, None, []);
          }
        case Authed =>
          var remoteSocket := ConnectClient(b, bindAddress, d);
          var dialled := MicroSocks.Opened(Received(b), d);
          if remoteSocket < 0 {
            r := StepResult(st, SendError(remoteSocket), true, authenticatedClients, None, dialled,
                            if dialled.Some? then [dialled.value] else []);
          } else {
            r := StepResult(st, SendError(EnumValue(Success)), true, authenticatedClients,
                            Some(remoteSocket), dialled, []);
          }
      }
    }

    /** One pass of `proxyRequest`'s loop: `recieve` delivers `msgs[i]`
        into the buffer; a connection that ends here yields its whole
        remaining session, one that goes on yields the reply, the next state
        and the buffer, and `s` is then the session so far. */
    method ProxyTurn(st: State, client: Client, b: Buffer, msgs: seq<seq<Byte>>, i: nat, env: MicroSocks.Env)
      returns (done: bool, reply: seq<Byte>, next: State, nb: Buffer, s: Session)
      requires i < |msgs| && BufferOk(b) && Fits(msgs) && Relay.EventsOk(env.relay)
      requires Usable(Current()) && (st == NeedAuth ==> username.Some?)
      modifies this
      ensures Current() == old(Current()) && verbose == old(verbose) && BufferOk(nb)
      ensures done ==> s == Proxy(st, Current(), old(authenticatedClients), client, b, msgs[i..], env)
      ensures done ==> authenticatedClients == s.clients
      ensures !done ==> s == Session(next, [], [], authenticatedClients, None, [], false)
      ensures !done ==> next == NeedAuth ==> username.Some?
      ensures !done ==> (Proxy(st, Current(), old(authenticatedClients), client, b, msgs[i..], env)
                         == Prepend(reply, Proxy(next, Current(), authenticatedClients, client, nb, msgs[i + 1..], env)))
    {
      var msg := msgs[i];
      assert msgs[i..][0] == msg && msgs[i..][1..] == msgs[i + 1..];
      nb := Receive(b, msg);
      if nb.recieved <= 0 {
        return true, [], st, nb, Session(st, [], [], authenticatedClients, None, [client.socket], true);
      }
      var r := Handle(st, client, nb, env.dial);
      if r.terminate {
        s := Conclude(r, client.socket, env);
        return true, [], st, nb, s;
      }
      return false, r.reply, r.state, nb, Session(r.state, [], [], authenticatedClients, None, [], false);
    }

    /** `proxyRequest`: the client starts CONNECTED with a fresh buffer;
        messages are read until one ends the loop, then `copy` relays after
        a successful CONNECT and the sockets are closed; the registry is
        extended in place. */
    method ProxyRequest(client: Client, msgs: seq<seq<Byte>>, env: MicroSocks.Env) returns (s: Session)
      requires Fits(msgs) && Relay.EventsOk(env.relay) && Usable(Current())
      modifies this
      ensures s == Proxy(Connected, old(Current()), old(authenticatedClients), client, EmptyBuffer(), msgs, env)
      ensures authenticatedClients == s.clients
      ensures Current() == old(Current()) && verbose == old(verbose)
    {
      ghost var settings := Current();
      ghost var whole := Proxy(Connected, settings, authenticatedClients, client, EmptyBuffer(), msgs, env);
      var state := Connected;
      var buffer := EmptyBuffer();
      var out: seq<Byte> := [];
      var i := 0;
      while i < |msgs|
        invariant 0 <= i <= |msgs| && BufferOk(buffer)
        invariant Current() == settings && verbose == old(verbose)
        invariant state == NeedAuth ==> username.Some?
        invariant whole == Prepend(out, Proxy(state, settings, authenticatedClients, client, buffer, msgs[i..], env))
        decreases |msgs| - i
      {
        var done, reply, next, nb, rest := ProxyTurn(state, client, buffer, msgs, i, env);
        if done {
          return Prepend(out, rest);
        }
        ConcatAssoc(out, reply, Proxy(next, settings, authenticatedClients, client, nb, msgs[i + 1..], env).toClient);
        out := out + reply;
        state := next;
        buffer := nb;
        i := i + 1;
      }
      assert msgs[|msgs|..] == [];
      s := Session(state, out, [], authenticatedClients, None, [], false);
    }
  }

  // ---------------------------------------------------------------------
  // Whole connections of the rewrite

  /** `setAuthentication` leaves a new server without a user, so a greeting
      offering only USERNAME is refused and one offering NO_AUTH is
      accepted, whatever credentials were passed. */
  method SetAuthenticationIgnored(client: Client) returns (usernameOnly: AuthMethod, noAuthOnly: AuthMethod)
    ensures usernameOnly == Invalid && noAuthOnly == NoAuth
  {
    var server := new Socks5Server();
    server.SetAuthentication(Some([117, 115, 101, 114]), Some([112, 97, 115, 115]), true);
    var greeting := Receive(EmptyBuffer(), [5, 1, 2]);
    assert MicroSocks.OfferedMethods(Received(greeting)) == [2];
    usernameOnly := server.CheckAuthMethod(greeting, client);
    greeting := Receive(EmptyBuffer(), [5, 1, 0]);
    assert MicroSocks.OfferedMethods(Received(greeting)) == [0];
    noAuthOnly := server.CheckAuthMethod(greeting, client);
  }

  /** Without a user, the greeting `[5, 1, 0]` moves to AUTHED with
      `[5, 0]`. */
  lemma GreetingNoUser(s: Settings, clients: seq<Client>, client: Client, b: Buffer, d: MicroSocks.Dial)
    requires BufferOk(b) && Received(b) == [5, 1, 0] && s.username.None?
    ensures ProxyStep(Connected, s, clients, client, b, d) == StepResult(Authed, [5, 0], false, clients, None, None, [])
  {
    assert b.recieved == 3;
    assert MicroSocks.OfferedMethods(Received(b)) == [0];
  }

  /** A refused connect to 127.0.0.1:8080 is answered with 256 - 5, and the
      opened upstream socket is closed. */
  lemma RefusedLoopback(s: Settings, clients: seq<Client>, client: Client, b: Buffer, fd: nat)
    requires BufferOk(b) && Received(b) == MicroSocks.LoopbackRequest && BindOk(s.bind)
    ensures ProxyStep(Authed, s, clients, client, b, MicroSocks.Dial(true, true, None, None, Some(ECONNREFUSED), fd))
         == StepResult(Authed, [5, 251, 0, 1, 0, 0, 0, 0, 0, 0], true, clients, None, Some(fd), [fd])
  {
    var d := MicroSocks.Dial(true, true, None, None, Some(ECONNREFUSED), fd);
    MicroSocks.LoopbackRequestParses();
    ConnectClientAgrees(b, s.bind, d);
    assert ConnectClient(b, s.bind, d) == EnumValue(ConnRefused);
  }

  /** A refused connect without authentication: the rewrite answers the
      greeting as the reference does, but puts 256 - 5 where the reference
      puts reply code 5; the upstream and then the client socket are
      closed. */
  lemma RefusedConnectOnTheWire(client: Client, fd: nat, env: MicroSocks.Env)
    requires Relay.EventsOk(env.relay)
    requires env.dial == MicroSocks.Dial(true, true, None, None, Some(ECONNREFUSED), fd)
    ensures var p := Proxy(Connected, Settings(None, None, false, Unbound(AF_UNSPEC)), [], client, EmptyBuffer(),
                           [[5, 1, 0], MicroSocks.LoopbackRequest], env);
      p.toClient == [5, 0] + [5, 251, 0, 1, 0, 0, 0, 0, 0, 0] && p.finished && p.closed == [fd, client.socket]
  {
    var s := Settings(None, None, false, Unbound(AF_UNSPEC));
    var msgs: seq<seq<Byte>> := [[5, 1, 0], MicroSocks.LoopbackRequest];
    var b1 := Receive(EmptyBuffer(), msgs[0]);
    var b2 := Receive(b1, msgs[1]);
    GreetingNoUser(s, [], client, b1, env.dial);
    RefusedLoopback(s, [], client, b2, fd);
    var r2 := StepResult(Authed, [5, 251, 0, 1, 0, 0, 0, 0, 0, 0], true, [], None, Some(fd), [fd]);
    assert msgs[1..] == [msgs[1]];
    assert Proxy(Authed, s, [], client, b1, msgs[1..], env) == Finish(r2, client.socket, env);
    assert Proxy(Connected, s, [], client, EmptyBuffer(), msgs, env)
        == Prepend([5, 0], Proxy(Authed, s, [], client, b1, msgs[1..], env));
  }
}
