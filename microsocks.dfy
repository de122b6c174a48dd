/** The reference server, sockssrv.cpp: method selection, the
    username/password sub-negotiation of RFC 1929, the CONNECT request of
    RFC 1928, the mapping of connect errors to reply codes, the reply
    frames, the registry of addresses that authenticated once, and the
    per-connection loop. Messages are the octets one `recv` returned. */
module MicroSocks {
  import opened Bytes
  import opened Codes
  import opened Addresses
  import Relay

  /** The configured user name and password (`auth_user`, `auth_pass`). */
  datatype Credentials = Credentials(user: seq<Byte>, pass: seq<Byte>)

  /** What the connection threads read of the configuration: credentials
      (None: no authentication), whether `auth_ips` exists (auth-once), and
      the local address outgoing connections are bound to (`bind_addr`). */
  datatype Config = Config(auth: Option<Credentials>, authOnce: bool, bind: SockAddr)

  // ---------------------------------------------------------------------
  // Authenticated addresses

  /** `is_authed`: same family and same address octets (4 for AF_INET, 16
      otherwise); the port is not compared. */
  function IsAuthed(client: PeerAddr, authed: PeerAddr): (r: bool)
    ensures r <==> Family(client) == Family(authed) && client.addr == authed.addr
  {
    var af := Family(authed);
    af == Family(client) &&
    var cmpbytes := if af == AF_INET then 4 else 16;
    Address(client).value[..cmpbytes] == Address(authed).value[..cmpbytes]
  }

  /** IsAuthed is an equivalence on addresses that does not look at ports. */
  lemma IsAuthedEquivalence(a: PeerAddr, b: PeerAddr, c: PeerAddr, p: int)
    requires 0 <= p < 0x1_0000
    ensures IsAuthed(a, a)
    ensures IsAuthed(a, b) == IsAuthed(b, a)
    ensures IsAuthed(a, b) && IsAuthed(b, c) ==> IsAuthed(a, c)
    ensures IsAuthed(a.(port := p), b) == IsAuthed(a, b)
  {
  }

  /** Whether some registered address matches the client's. */
  predicate Authenticated(entries: seq<PeerAddr>, client: PeerAddr)
  {
    exists i :: 0 <= i < |entries| && IsAuthed(client, entries[i])
  }

  /** `auth_ips`: the addresses that completed authentication, in order. */
  class AuthRegistry {
    var entries: seq<PeerAddr>

    /** `sblist_new`: an empty list. */
    constructor ()
      ensures entries == []
    {
      entries := [];
    }

    /** `add_auth_ip`: appends the client's address. */
    method Add(client: PeerAddr)
      modifies this
      ensures entries == old(entries) + [client]
    {
      entries := entries + [client];
    }

    /** The scan of `auth_ips` inside `check_auth_method`. */
    method Contains(client: PeerAddr) returns (found: bool)
      ensures found <==> Authenticated(entries, client)
    {
      found := false;
      var i := 0;
      while i < |entries|
        invariant 0 <= i <= |entries|
        invariant !found ==> forall j :: 0 <= j < i ==> !IsAuthed(client, entries[j])
        invariant found ==> Authenticated(entries, client)
      {
        found := IsAuthed(client, entries[i]);
        if found {
          break;
        }
        i := i + 1;
      }
    }
  }

  // ---------------------------------------------------------------------
  // Method selection (RFC 1928 section 3)

  /** The method an offered octet selects, if it is usable, given whether a
      user is configured (`auth_user`), whether auth-once is on (`auth_ips`)
      and whether the client's address is registered: NO_AUTH when no user
      is configured or the address is registered with auth-once on,
      USERNAME when a user is configured. */
  function Choice(b: Byte, userSet: bool, authOnce: bool, preauthed: bool): (r: Option<AuthMethod>)
    ensures r.Some? ==> MethodOctet(r.value) == b
  {
    if b == 0 && (!userSet || (authOnce && preauthed)) then Some(NoAuth)
    else if b == 2 && userSet then Some(Username)
    else None
  }

  /** Where the scan of a greeting stops: after `n_methods` octets, or at
      the end of the received data if that comes first. */
  function ScanEnd(msg: seq<Byte>): (end: nat)
    requires |msg| >= 2
    ensures 2 <= end <= |msg|
    ensures end == 2 + msg[1] as int || end == |msg|
  {
    if 2 + msg[1] as int <= |msg| then 2 + msg[1] as int else |msg|
  }

  /** The method octets the scan inspects. */
  function OfferedMethods(msg: seq<Byte>): (ms: seq<Byte>)
    requires |msg| >= 2
    ensures |ms| == if msg[1] <= |msg| - 2 then msg[1] else |msg| - 2
  {
    msg[2..ScanEnd(msg)]
  }

  /** The scan from octet `k` up to `end`: the first usable method in scan
      order, INVALID if there is none; it is never GSSAPI, and it is only
      ever a method the configuration allows. */
  function Scan(msg: seq<Byte>, k: nat, end: nat, userSet: bool, authOnce: bool, preauthed: bool): (r: AuthMethod)
    requires k <= end <= |msg|
    ensures r != GssApi
    ensures r == NoAuth ==> !userSet || (authOnce && preauthed)
    ensures r == Username ==> userSet
    decreases end - k
  {
    if k == end then Invalid
    else if Choice(msg[k], userSet, authOnce, preauthed).Some? then Choice(msg[k], userSet, authOnce, preauthed).value
    else Scan(msg, k + 1, end, userSet, authOnce, preauthed)
  }

  /** The answer of `check_auth_method` to a greeting: NO_AUTH is never
      selected for an unregistered client when a user is configured, and
      USERNAME only when one is. */
  function SelectMethod(msg: seq<Byte>, userSet: bool, authOnce: bool, preauthed: bool): (am: AuthMethod)
    requires |msg| > 0
    ensures am != GssApi
    ensures am == NoAuth ==> !userSet || (authOnce && preauthed)
    ensures am == Username ==> userSet
  {
    if msg[0] != 5 || |msg| < 2 then Invalid
    else Scan(msg, 2, ScanEnd(msg), userSet, authOnce, preauthed)
  }

  /** First match: the scan answers INVALID exactly when no inspected octet
      is usable, and otherwise the choice of the first usable octet. */
  lemma {:induction false} ScanIsFirstMatch(msg: seq<Byte>, k: nat, end: nat,
                                            userSet: bool, authOnce: bool, pre: bool)
    requires k <= end <= |msg|
    ensures var r := Scan(msg, k, end, userSet, authOnce, pre);
      && (r == Invalid <==> forall i :: k <= i < end ==> Choice(msg[i], userSet, authOnce, pre).None?)
      && (r != Invalid ==> exists i :: k <= i < end && Choice(msg[i], userSet, authOnce, pre) == Some(r)
                                       && forall j :: k <= j < i ==> Choice(msg[j], userSet, authOnce, pre).None?)
    decreases end - k
  {
    if k < end && Choice(msg[k], userSet, authOnce, pre).None? {
      ScanIsFirstMatch(msg, k + 1, end, userSet, authOnce, pre);
      var r := Scan(msg, k, end, userSet, authOnce, pre);
      if r != Invalid {
        var i :| k + 1 <= i < end && Choice(msg[i], userSet, authOnce, pre) == Some(r)
                 && forall j :: k + 1 <= j < i ==> Choice(msg[j], userSet, authOnce, pre).None?;
        assert forall j :: k <= j < i ==> Choice(msg[j], userSet, authOnce, pre).None?;
      }
    }
  }

  /** What a selection means: a selected method was offered and is allowed
      by the configuration; NO_AUTH is never selected for an unregistered
      client when a user is configured; GSSAPI is never selected; and
      INVALID is the answer exactly when the version is wrong, the greeting
      is one octet long, or no inspected octet is usable. */
  lemma SelectMethodMeaning(msg: seq<Byte>, userSet: bool, authOnce: bool, pre: bool)
    requires |msg| > 0
    ensures var am := SelectMethod(msg, userSet, authOnce, pre);
      && am != GssApi
      && (am == NoAuth ==> 0 in OfferedMethods(msg) && (!userSet || (authOnce && pre)))
      && (am == Username ==> 2 in OfferedMethods(msg) && userSet)
      && (am == Invalid <==> msg[0] != 5 || |msg| < 2
                             || forall b :: b in OfferedMethods(msg) ==> Choice(b, userSet, authOnce, pre).None?)
  {
    if msg[0] == 5 && |msg| >= 2 {
      var end := ScanEnd(msg);
      var ms := OfferedMethods(msg);
      ScanIsFirstMatch(msg, 2, end, userSet, authOnce, pre);
      var am := SelectMethod(msg, userSet, authOnce, pre);
      if am != Invalid {
        var i :| 2 <= i < end && Choice(msg[i], userSet, authOnce, pre) == Some(am)
                 && forall j :: 2 <= j < i ==> Choice(msg[j], userSet, authOnce, pre).None?;
        assert ms[i - 2] == msg[i];
      } else {
        forall b | b in ms ensures Choice(b, userSet, authOnce, pre).None? {
          var i :| 0 <= i < |ms| && ms[i] == b;
          assert msg[i + 2] == b;
        }
      }
    }
  }

  /** `check_auth_method`: the scan over the offered methods, consulting the
      registry when NO_AUTH is offered, a user is configured and auth-once is
      on. The caller only passes non-empty messages. */
  method CheckAuthMethod(msg: seq<Byte>, cfg: Config, registry: AuthRegistry, client: PeerAddr)
    returns (am: AuthMethod)
    requires |msg| > 0
    ensures am == SelectMethod(msg, cfg.auth.Some?, cfg.authOnce, Authenticated(registry.entries, client))
  {
    ghost var pre := Authenticated(registry.entries, client);
    if msg[0] != 5 {
      return Invalid;
    }
    var idx := 1;
    if idx >= |msg| {
      return Invalid;
    }
    var nMethods: int := msg[idx];
    idx := idx + 1;
    ghost var end := ScanEnd(msg);
    while idx < |msg| && nMethods > 0
      invariant 2 <= idx <= end && 0 <= nMethods
      invariant idx + nMethods == 2 + msg[1] as int
      invariant Scan(msg, 2, end, cfg.auth.Some?, cfg.authOnce, pre)
             == Scan(msg, idx, end, cfg.auth.Some?, cfg.authOnce, pre)
      decreases nMethods
    {
      if msg[idx] == 0 {
        if cfg.auth.None? {
          return NoAuth;
        } else if cfg.authOnce {
          var authed := registry.Contains(client);
          if authed {
            return NoAuth;
          }
        }
      } else if msg[idx] == 2 {
        if cfg.auth.Some? {
          return Username;
        }
      }
      idx := idx + 1;
      nMethods := nMethods - 1;
    }
    return Invalid;
  }

  // ---------------------------------------------------------------------
  // Username/password sub-negotiation (RFC 1929 section 2)

  /** The length checks of `check_credentials`: at least 5 octets, version
      1, room for ULEN+4 octets and for ULEN+3+PLEN octets. */
  predicate CredentialsFramed(msg: seq<Byte>)
  {
    && |msg| >= 5 && msg[0] == 1
    && |msg| >= msg[1] as int + 4
    && |msg| >= msg[1] as int + 3 + msg[msg[1] as int + 2] as int
  }

  function UserField(msg: seq<Byte>): seq<Byte>
    requires CredentialsFramed(msg)
  {
    msg[2..2 + msg[1] as int]
  }

  function PassField(msg: seq<Byte>): seq<Byte>
    requires CredentialsFramed(msg)
  {
    var ulen := msg[1] as int;
    msg[3 + ulen..3 + ulen + msg[2 + ulen] as int]
  }

  /** The client's sub-negotiation request `[1, ULEN, UNAME, PLEN, PASSWD]`. */
  function EncodeCredentials(user: seq<Byte>, pass: seq<Byte>): seq<Byte>
    requires |user| <= 255 && |pass| <= 255
  {
    [1, |user|] + user + [|pass|] + pass
  }

  /** `check_credentials`: GENERAL_FAILURE for a message that fails a length
      or version check, SUCCESS when the C strings of both fields equal the
      configured ones (`strcmp`), NOT_ALLOWED otherwise. */
  function CheckCredentials(msg: seq<Byte>, c: Credentials): (r: ErrorCode)
    ensures r == Success || r == GeneralFailure || r == NotAllowed
    ensures r == GeneralFailure <==> !CredentialsFramed(msg)
  {
    if |msg| < 5 then GeneralFailure
    else if msg[0] != 1 then GeneralFailure
    else
      var ulen: int := msg[1];
      if |msg| < 2 + ulen + 2 then GeneralFailure
      else
        var plen: int := msg[2 + ulen];
        if |msg| < 2 + ulen + 1 + plen then GeneralFailure
        else
          assert CredentialsFramed(msg);
          if CString(msg[2..2 + ulen]) == CString(c.user) && CString(msg[3 + ulen..3 + ulen + plen]) == CString(c.pass)
          then Success
          else NotAllowed
  }

  /** What the check accepts: SUCCESS exactly for a framed message whose two
      fields have the configured C strings; a framed message starts with the
      encoding of its two fields. */
  lemma CheckCredentialsMeaning(msg: seq<Byte>, c: Credentials)
    ensures CheckCredentials(msg, c) == Success <==> (CredentialsFramed(msg)
      && CString(UserField(msg)) == CString(c.user) && CString(PassField(msg)) == CString(c.pass))
    ensures CredentialsFramed(msg) ==> EncodeCredentials(UserField(msg), PassField(msg)) <= msg
  {
    if CredentialsFramed(msg) {
      var ulen: int := msg[1];
      var plen: int := msg[2 + ulen];
      assert UserField(msg) == msg[2..2 + ulen] && PassField(msg) == msg[3 + ulen..3 + ulen + plen];
      assert msg[..3 + ulen + plen] == [1, ulen] + msg[2..2 + ulen] + [plen] + msg[3 + ulen..3 + ulen + plen];
    }
  }

  /** Round trip: a request with RFC 1929 field lengths (1 to 255) and no
      NUL octets succeeds exactly when both fields equal the configured
      C strings, and fails with NOT_ALLOWED otherwise. */
  lemma CredentialsRoundTrip(user: seq<Byte>, pass: seq<Byte>, c: Credentials)
    requires 1 <= |user| <= 255 && 1 <= |pass| <= 255
    requires 0 !in user && 0 !in pass
    ensures CheckCredentials(EncodeCredentials(user, pass), c)
         == if user == CString(c.user) && pass == CString(c.pass) then Success else NotAllowed
  {
    var msg := EncodeCredentials(user, pass);
    assert msg[1] == |user| && msg[|user| + 2] == |pass|;
    assert UserField(msg) == user;
    assert PassField(msg) == pass;
    CStringOfNulFree(user);
    CStringOfNulFree(pass);
  }

  /** The ULEN+4 guard rejects an empty password that has no octet after
      PLEN, whatever the configured credentials. */
  lemma EmptyPasswordRejected(user: seq<Byte>, c: Credentials)
    requires |user| <= 255
    ensures CheckCredentials(EncodeCredentials(user, []), c) == GeneralFailure
  {
    var msg := EncodeCredentials(user, []);
    assert |msg| == |user| + 3 && msg[1] == |user|;
  }

  // ---------------------------------------------------------------------
  // The CONNECT request (RFC 1928 sections 4 and 5)

  datatype AddrType = IPv4 | DomainName | IPv6

  /** The parsed destination: raw address octets, or the name octets as
      received, and the port. */
  datatype Target = Target(atyp: AddrType, host: seq<Byte>, port: int)

  predicate ValidTarget(t: Target)
  {
    && 0 <= t.port < 0x1_0000
    && (t.atyp == IPv4 ==> |t.host| == 4)
    && (t.atyp == IPv6 ==> |t.host| == 16)
    && (t.atyp == DomainName ==> |t.host| <= 255)
  }

  function AtypOctet(a: AddrType): Byte
  {
    match a
    case IPv4 => 1
    case DomainName => 3
    case IPv6 => 4
  }

  /** The client's request `[5, 1, 0, ATYP, DST.ADDR, DST.PORT]`. */
  function EncodeConnect(t: Target): seq<Byte>
    requires ValidTarget(t)
  {
    [5, 1, 0, AtypOctet(t.atyp)] + (if t.atyp == DomainName then [|t.host|] else [])
    + t.host + PortOctets(t.port)
  }

  /** The parse steps of `connect_socks_target`, in its order: length and
      version, command, reserved octet, then per address type the minimum
      length (10 for IPv4, 22 for IPv6, 7 plus the name length for a name),
      and the big-endian port in the last two octets of that minimum.
      `ntopOk` is whether `inet_ntop` accepted the raw address. */
  function ParseConnect(msg: seq<Byte>, ntopOk: bool): (r: Result<Target, ErrorCode>)
    ensures r.Ok? ==> ValidTarget(r.value)
    ensures r.Err? ==> r.error in {GeneralFailure, CommandNotSupported, AddressTypeNotSupported}
  {
    if |msg| < 5 then Err(GeneralFailure)
    else if msg[0] != 5 then Err(GeneralFailure)
    else if msg[1] != 1 then Err(CommandNotSupported)
    else if msg[2] != 0 then Err(GeneralFailure)
    else if msg[3] == 4 || msg[3] == 1 then
      var alen := if msg[3] == 4 then 16 else 4;
      var minlen := 4 + alen + 2;
      if |msg| < minlen then Err(GeneralFailure)
      else if !ntopOk then Err(GeneralFailure)
      else Ok(Target(if msg[3] == 4 then IPv6 else IPv4, msg[4..4 + alen],
                     BigEndian16(msg[minlen - 2], msg[minlen - 1])))
    else if msg[3] == 3 then
      var l: int := msg[4];
      var minlen := 4 + 2 + l + 1;
      if |msg| < 4 + 2 + l + 1 then Err(GeneralFailure)
      else Ok(Target(DomainName, msg[5..5 + l], BigEndian16(msg[minlen - 2], msg[minlen - 1])))
    else Err(AddressTypeNotSupported)
  }

  /** A parsed target is what the message starts with: re-encoding it gives
      a prefix of the message. */
  lemma ParseConnectSound(msg: seq<Byte>, ntopOk: bool)
    ensures ParseConnect(msg, ntopOk).Ok? ==> EncodeConnect(ParseConnect(msg, ntopOk).value) <= msg
  {
    var r := ParseConnect(msg, ntopOk);
    if r.Ok? {
      var t := r.value;
      var minlen := |EncodeConnect(t)|;
      PortOctetsInverse(t.port, msg[minlen - 2], msg[minlen - 1]);
      if t.atyp == DomainName {
        assert msg[..minlen] == [5, 1, 0, 3] + [msg[4]] + msg[5..minlen - 2] + [msg[minlen - 2], msg[minlen - 1]];
      } else {
        assert msg[..minlen] == [5, 1, 0, msg[3]] + msg[4..minlen - 2] + [msg[minlen - 2], msg[minlen - 1]];
      }
    }
  }

  /** Round trip: a valid request, followed by anything, parses back to its
      target. */
  lemma ConnectRoundTrip(t: Target, rest: seq<Byte>)
    requires ValidTarget(t)
    ensures ParseConnect(EncodeConnect(t) + rest, true) == Ok(t)
  {
    var msg := EncodeConnect(t) + rest;
    var p := PortOctets(t.port);
    PortOctetsInverse(t.port, 0, 0);
    if t.atyp == DomainName {
      assert msg[4] == |t.host|;
      assert msg[5..5 + |t.host|] == t.host;
      assert msg[5 + |t.host|] == p[0] && msg[6 + |t.host|] == p[1];
    } else {
      var alen := |t.host|;
      assert msg[4..4 + alen] == t.host;
      assert msg[4 + alen] == p[0] && msg[5 + alen] == p[1];
    }
  }

  /** Truncation: every strict prefix of a valid request is rejected with
      GENERAL_FAILURE (for a name of length L the request needs exactly
      7 + L octets). */
  lemma ConnectTruncated(t: Target, k: nat, ntopOk: bool)
    requires ValidTarget(t) && k < |EncodeConnect(t)|
    ensures ParseConnect(EncodeConnect(t)[..k], ntopOk) == Err(GeneralFailure)
  {
    var e := EncodeConnect(t);
    var msg := e[..k];
    if 5 <= k {
      assert msg[..5] == e[..5];
      assert e[..4] == [5, 1, 0, AtypOctet(t.atyp)];
      assert msg[0] == 5 && msg[1] == 1 && msg[2] == 0 && msg[3] == AtypOctet(t.atyp);
      if t.atyp == DomainName {
        assert msg[4] == |t.host|;
      }
    }
  }

  /** The error order of the header checks: COMMAND_NOT_SUPPORTED exactly
      when a well-versioned request of at least 5 octets has a command other
      than CONNECT, ADDRESSTYPE_NOT_SUPPORTED exactly when the header is
      correct and the address type is none of 1, 3 and 4. */
  lemma ConnectErrorOrder(msg: seq<Byte>, ntopOk: bool)
    ensures ParseConnect(msg, ntopOk) == Err(CommandNotSupported)
        <==> |msg| >= 5 && msg[0] == 5 && msg[1] != 1
    ensures ParseConnect(msg, ntopOk) == Err(AddressTypeNotSupported)
        <==> |msg| >= 5 && msg[0] == 5 && msg[1] == 1 && msg[2] == 0 && msg[3] !in {1, 3, 4}
  {
  }

  // ---------------------------------------------------------------------
  // Dialling the destination (RFC 1928 section 6)

  /** The `errno` switch after a failed socket, bind or connect. */
  function ErrnoToCode(errno: int): (r: ErrorCode)
    ensures r == TtlExpired <==> errno == ETIMEDOUT
    ensures r == AddressTypeNotSupported <==> errno in {EPROTOTYPE, EPROTONOSUPPORT, EAFNOSUPPORT}
    ensures r == ConnRefused <==> errno == ECONNREFUSED
    ensures r == NetUnreachable <==> errno in {ENETDOWN, ENETUNREACH}
    ensures r == HostUnreachable <==> errno == EHOSTUNREACH
    ensures r == GeneralFailure <==> errno !in {ETIMEDOUT, EPROTOTYPE, EPROTONOSUPPORT, EAFNOSUPPORT,
                                                ECONNREFUSED, ENETDOWN, ENETUNREACH, EHOSTUNREACH}
  {
    if errno == ETIMEDOUT then TtlExpired
    else if errno == EPROTOTYPE || errno == EPROTONOSUPPORT || errno == EAFNOSUPPORT then AddressTypeNotSupported
    else if errno == ECONNREFUSED then ConnRefused
    else if errno == ENETDOWN || errno == ENETUNREACH then NetUnreachable
    else if errno == EHOSTUNREACH then HostUnreachable
    else GeneralFailure
  }

  /** The results of the calls the connect path makes into the system:
      `inet_ntop`, `resolve`, `socket`, the bind to the configured local
      address, and `connect` (None: the call succeeded; Some(e): it failed
      with errno e), and the descriptor `socket` returned. */
  datatype Dial = Dial(ntopOk: bool, resolveOk: bool, socketErrno: Option<int>,
                       bindErrno: Option<int>, connectErrno: Option<int>, fd: nat)

  /** Resolve, open, optionally bind, connect. */
  function Upstream(d: Dial, bindAttempted: bool): (r: Result<nat, ErrorCode>)
    ensures r.Ok? <==> d.resolveOk && d.socketErrno.None? && !(bindAttempted && d.bindErrno.Some?)
                       && d.connectErrno.None?
    ensures r.Ok? ==> r.value == d.fd
    ensures !d.resolveOk ==> r == Err(GeneralFailure)
    ensures d.resolveOk && d.socketErrno.Some? ==> r == Err(ErrnoToCode(d.socketErrno.value))
    ensures d.resolveOk && d.socketErrno.None? && bindAttempted && d.bindErrno.Some?
            ==> r == Err(ErrnoToCode(d.bindErrno.value))
    ensures d.resolveOk && d.socketErrno.None? && !(bindAttempted && d.bindErrno.Some?) && d.connectErrno.Some?
            ==> r == Err(ErrnoToCode(d.connectErrno.value))
  {
    if !d.resolveOk then Err(GeneralFailure)
    else if d.socketErrno.Some? then Err(ErrnoToCode(d.socketErrno.value))
    else if bindAttempted && d.bindErrno.Some? then Err(ErrnoToCode(d.bindErrno.value))
    else if d.connectErrno.Some? then Err(ErrnoToCode(d.connectErrno.value))
    else Ok(d.fd)
  }

  /** The upstream descriptor that `connect_socks_target` opened, if any. */
  function Opened(msg: seq<Byte>, d: Dial): Option<nat>
  {
    if ParseConnect(msg, d.ntopOk).Ok? && d.resolveOk && d.socketErrno.None? then Some(d.fd) else None
  }

  /** `connect_socks_target`: the parse, then the dial; the bind is attempted
      when the bind address's family is not AF_UNSPEC. On success the result
      is the upstream descriptor, which was opened; otherwise a reply code
      that is neither SUCCESS nor NOT_ALLOWED, the parse error if the parse
      failed. */
  function ConnectSocksTarget(msg: seq<Byte>, bind: SockAddr, d: Dial): (r: Result<nat, ErrorCode>)
    ensures r.Ok? ==> r.value == d.fd && ParseConnect(msg, d.ntopOk).Ok?
    ensures r.Err? ==> r.error != Success && r.error != NotAllowed
    ensures ParseConnect(msg, d.ntopOk).Err? ==> r == Err(ParseConnect(msg, d.ntopOk).error)
    ensures r.Ok? ==> Opened(msg, d) == Some(r.value)
    ensures ParseConnect(msg, d.ntopOk).Ok? ==> r == Upstream(d, Family(bind) != AF_UNSPEC)
  {
    match ParseConnect(msg, d.ntopOk)
    case Err(e) => Err(e)
    case Ok(_) => Upstream(d, Family(bind) != AF_UNSPEC)
  }


  // ---------------------------------------------------------------------
  // Reply frames

  /** `send_auth_response`: `[version, method or status]`. */
  function AuthResponse(version: Byte, code: Byte): (r: seq<Byte>)
    ensures |r| == 2 && r[0] == version && r[1] == code
  {
    [version, code]
  }

  /** `send_error`: a 10-octet CONNECT reply carrying the code, always with
      ATYP IPv4 and a zero address and port. */
  function SendError(ec: ErrorCode): (r: seq<Byte>)
    ensures |r| == 10 && r[0] == 5 && r[2] == 0 && r[3] == AtypOctet(IPv4)
    ensures ErrorCodeOf(r[1]) == Some(ec)
    ensures r[4..] == [0, 0, 0, 0, 0, 0]
  {
    [5, ReplyCode(ec), 0, 1, 0, 0, 0, 0, 0, 0]
  }

  // ---------------------------------------------------------------------
  // The per-connection state machine (`clientthread`)

  /** One turn of the loop: the new state, the reply sent, whether the loop
      ends, the registry afterwards, the upstream descriptor handed to the
      relay, the descriptor the connect path opened, and what it closed. */
  datatype StepResult = StepResult(state: State, reply: seq<Byte>, terminate: bool,
                                   entries: seq<PeerAddr>, remote: Option<nat>,
                                   dialled: Option<nat>, closed: seq<int>)

  /** The state machine's reaction to one message. NEED_AUTH is only ever
      entered with a user configured. */
  function Step(st: State, cfg: Config, entries: seq<PeerAddr>, client: PeerAddr,
                msg: seq<Byte>, d: Dial): (r: StepResult)
    requires |msg| > 0
    requires st == NeedAuth ==> cfg.auth.Some?
    ensures Ordinal(r.state) >= Ordinal(st)
    ensures !r.terminate ==> Ordinal(r.state) > Ordinal(st)
    ensures r.state == NeedAuth ==> cfg.auth.Some?
    ensures st == Authed ==> r.terminate
    ensures r.entries == entries || (st == NeedAuth && cfg.authOnce && r.entries == entries + [client])
    ensures r.remote.Some? ==> r.terminate && r.dialled == r.remote && r.closed == []
    ensures r.remote.None? ==> r.closed == (if r.dialled.Some? then [r.dialled.value] else [])
    ensures st == Authed ==> r.state == Authed
    ensures r.remote == (if st == Authed && ConnectSocksTarget(msg, cfg.bind, d).Ok?
                         then Some(ConnectSocksTarget(msg, cfg.bind, d).value) else None)
    ensures r.dialled == (if st == Authed then Opened(msg, d) else None)
  {
    match st
    case Connected =>
      var am := SelectMethod(msg, cfg.auth.Some?, cfg.authOnce, Authenticated(entries, client));
      var next := if am == NoAuth then Authed else if am == Username then NeedAuth else Connected;
      StepResult(next, AuthResponse(5, MethodOctet(am)), am == Invalid, entries, None, None, [])
    case NeedAuth =>
      var ret := CheckCredentials(msg, cfg.auth.value);
      if ret != Success then
        StepResult(NeedAuth, AuthResponse(1, ReplyCode(ret)), true, entries, None, None, [])
      else
        StepResult(Authed, AuthResponse(1, ReplyCode(ret)), false,
                   if cfg.authOnce then entries + [client] else entries, None, None, [])
    case Authed =>
      var dialled := Opened(msg, d);
      match ConnectSocksTarget(msg, cfg.bind, d)
      case Err(e) =>
        StepResult(Authed, SendError(e), true, entries, None, dialled,
                   if dialled.Some? then [dialled.value] else [])
      case Ok(fd) =>
        StepResult(Authed, SendError(Success), true, entries, Some(fd), dialled, [])
  }

  /** The replies of each state: `[5, method]` to a greeting, `[1, status]`
      to credentials, a 10-octet CONNECT reply to a request; a greeting
      moves to AUTHED on NO_AUTH, NEED_AUTH on USERNAME and ends the
      connection on INVALID; credentials end it unless they are accepted. */
  lemma StepReplies(st: State, cfg: Config, entries: seq<PeerAddr>, client: PeerAddr,
                    msg: seq<Byte>, d: Dial)
    requires |msg| > 0 && (st == NeedAuth ==> cfg.auth.Some?)
    ensures var r := Step(st, cfg, entries, client, msg, d);
      && (st == Connected ==>
            var am := SelectMethod(msg, cfg.auth.Some?, cfg.authOnce, Authenticated(entries, client));
            && r.reply == [5, MethodOctet(am)]
            && (r.state == Authed <==> am == NoAuth)
            && (r.state == NeedAuth <==> am == Username)
            && (r.terminate <==> am == Invalid))
      && (st == NeedAuth ==>
            var ret := CheckCredentials(msg, cfg.auth.value);
            && r.reply == [1, ReplyCode(ret)]
            && (r.terminate <==> ret != Success)
            && (r.entries != entries <==> ret == Success && cfg.authOnce))
      && (st == Authed ==>
            r.reply == SendError(match ConnectSocksTarget(msg, cfg.bind, d) case Ok(_) => Success case Err(e) => e))
  {
    if st == NeedAuth && CheckCredentials(msg, cfg.auth.value) == Success && cfg.authOnce {
      assert |Step(st, cfg, entries, client, msg, d).entries| == |entries| + 1;
    }
  }

  /** What the relay is given once a CONNECT succeeded: the dial results
      and the relay's events. */
  datatype Env = Env(dial: Dial, relay: seq<Relay.Event>)

  /** A connection's observable history: the state reached, the octets sent
      to the client and to the upstream, the registry afterwards, the
      upstream descriptor the thread opened, the descriptors it closed, and
      whether the thread has ended (false: it is still waiting in recv or
      relaying when the inputs run out). */
  datatype Session = Session(state: State, toClient: seq<Byte>, toRemote: seq<Byte>,
                             entries: seq<PeerAddr>, dialled: Option<nat>, closed: seq<int>,
                             finished: bool)

  function Prepend(out: seq<Byte>, s: Session): Session
  {
    s.(toClient := out + s.toClient)
  }

  /** `clientthread` over the results of successive recv calls on the client
      socket; an empty message is a recv that returned 0 or less. */
  function Run(st: State, cfg: Config, entries: seq<PeerAddr>, client: PeerAddr, clientFd: int,
               msgs: seq<seq<Byte>>, env: Env): Session
    requires st == NeedAuth ==> cfg.auth.Some?
    requires Relay.EventsOk(env.relay)
    decreases |msgs|
  {
    if msgs == [] then Session(st, [], [], entries, None, [], false)
    else if msgs[0] == [] then Session(st, [], [], entries, None, [clientFd], true)
    else
      var r := Step(st, cfg, entries, client, msgs[0], env.dial);
      if !r.terminate then
        Prepend(r.reply, Run(r.state, cfg, r.entries, client, clientFd, msgs[1..], env))
      else Conclusion(r, clientFd, env)
  }

  /** How a connection ends after the message that terminated the loop:
      without an upstream, the client socket is closed after whatever the
      connect path closed; after a successful CONNECT the relay runs with
      the TTL_EXPIRED frame as its timeout reply and, when it stops, the
      upstream socket and then the client socket are closed. */
  function Conclusion(r: StepResult, clientFd: int, env: Env): (s: Session)
    requires Relay.EventsOk(env.relay)
    ensures s.state == r.state && s.entries == r.entries && s.dialled == r.dialled
    ensures r.remote.None? ==> s.finished && s.closed == r.closed + [clientFd] && s.toClient == r.reply
    ensures r.remote.Some? && s.finished ==> s.closed == [r.remote.value, clientFd]
    ensures !s.finished ==> s.closed == []
  {
    if r.remote.None? then
      Session(r.state, r.reply, [], r.entries, r.dialled, r.closed + [clientFd], true)
    else
      var t := Relay.RelayRun(env.relay, SendError(TtlExpired));
      if t.outcome == Relay.Running then
        Session(r.state, r.reply + t.toClient, t.toRemote, r.entries, r.dialled, [], false)
      else
        Session(r.state, r.reply + t.toClient, t.toRemote, r.entries, r.dialled,
                [r.remote.value, clientFd], true)
  }

  /** The end of `clientthread`: the relay (`copyloop`) when CONNECT
      succeeded, then the closes. */
  method Conclude(r: StepResult, clientFd: int, env: Env) returns (s: Session)
    requires Relay.EventsOk(env.relay)
    ensures s == Conclusion(r, clientFd, env)
  {
    if r.remote.None? {
      return Session(r.state, r.reply, [], r.entries, r.dialled, r.closed + [clientFd], true);
    }
    var t := Relay.CopyLoop(env.relay, SendError(TtlExpired));
    if t.outcome == Relay.Running {
      s := Session(r.state, r.reply + t.toClient, t.toRemote, r.entries, r.dialled, [], false);
    } else {
      s := Session(r.state, r.reply + t.toClient, t.toRemote, r.entries, r.dialled,
                   [r.remote.value, clientFd], true);
    }
  }

  /** Over a whole connection the state never regresses. */
  lemma {:induction false} RunNeverRegresses(st: State, cfg: Config, entries: seq<PeerAddr>,
                                             client: PeerAddr, clientFd: int,
                                             msgs: seq<seq<Byte>>, env: Env)
    requires st == NeedAuth ==> cfg.auth.Some?
    requires Relay.EventsOk(env.relay)
    ensures Ordinal(Run(st, cfg, entries, client, clientFd, msgs, env).state) >= Ordinal(st)
    decreases |msgs|
  {
    if msgs != [] && msgs[0] != [] {
      var r := Step(st, cfg, entries, client, msgs[0], env.dial);
      if !r.terminate {
        RunNeverRegresses(r.state, cfg, r.entries, client, clientFd, msgs[1..], env);
      }
    }
  }

  /** Over a whole connection the registry gains at most the client's own
      address, only with auth-once on, and not once the client is AUTHED. */
  lemma {:induction false} RunRegisters(st: State, cfg: Config, entries: seq<PeerAddr>,
                                        client: PeerAddr, clientFd: int,
                                        msgs: seq<seq<Byte>>, env: Env)
    requires st == NeedAuth ==> cfg.auth.Some?
    requires Relay.EventsOk(env.relay)
    ensures var s := Run(st, cfg, entries, client, clientFd, msgs, env);
      s.entries == entries || (cfg.authOnce && st != Authed && s.entries == entries + [client])
    decreases |msgs|
  {
    if msgs != [] && msgs[0] != [] {
      var r := Step(st, cfg, entries, client, msgs[0], env.dial);
      if !r.terminate {
        RunRegisters(r.state, cfg, r.entries, client, clientFd, msgs[1..], env);
        if r.entries != entries {
          assert r.state == Authed;
        }
      }
    }
  }

  /** A thread that ended has closed the upstream socket it opened and then
      the client socket, each once; one still running has closed nothing. */
  lemma {:induction false} RunCloses(st: State, cfg: Config, entries: seq<PeerAddr>,
                                     client: PeerAddr, clientFd: int,
                                     msgs: seq<seq<Byte>>, env: Env)
    requires st == NeedAuth ==> cfg.auth.Some?
    requires Relay.EventsOk(env.relay)
    ensures var s := Run(st, cfg, entries, client, clientFd, msgs, env);
      && (s.finished ==> s.closed == if s.dialled.Some? then [s.dialled.value, clientFd] else [clientFd])
      && (!s.finished ==> s.closed == [])
      && (s.dialled.Some? ==> env.dial.resolveOk && env.dial.socketErrno.None? && s.dialled.value == env.dial.fd)
    decreases |msgs|
  {
    if msgs != [] && msgs[0] != [] {
      var r := Step(st, cfg, entries, client, msgs[0], env.dial);
      var s := Run(st, cfg, entries, client, clientFd, msgs, env);
      if !r.terminate {
        RunCloses(r.state, cfg, r.entries, client, clientFd, msgs[1..], env);
      } else if r.remote.Some? {
        assert r.dialled == r.remote;
      }
    }
  }

  /** One turn of `clientthread`'s switch: the scan, the credential check
      (registering the client when auth-once is on), or the connect path. */
  method ClientStep(st: State, cfg: Config, registry: AuthRegistry, client: PeerAddr,
                    msg: seq<Byte>, d: Dial) returns (r: StepResult)
    requires |msg| > 0
    requires st == NeedAuth ==> cfg.auth.Some?
    modifies registry
    ensures r == Step(st, cfg, old(registry.entries), client, msg, d)
    ensures registry.entries == r.entries
  {
    match st {
      case Connected =>
        var am := CheckAuthMethod(msg, cfg, registry, client);
        var next := st;
        if am == NoAuth {
          next := Authed;
        } else if am == Username {
          next := NeedAuth;
        }
        r := StepResult(next, AuthResponse(5, MethodOctet(am)), am == Invalid,
                        registry.entries, None, None, []);
      case NeedAuth =>
        var ret := CheckCredentials(msg, cfg.auth.value);
        if ret != Success {
          r := StepResult(st, AuthResponse(1, ReplyCode(ret)), true, registry.entries, None, None, []);
        } else {
          if cfg.authOnce {
            registry.Add(client);
          }
          r := StepResult(Authed, AuthResponse(1, ReplyCode(ret)), false, registry.entries, None, None, []);
        }
      case Authed =>
        var ret := ConnectSocksTarget(msg, cfg.bind, d);
        var dialled := Opened(msg, d);
        if ret.Err? {
          r := StepResult(st, SendError(ret.error), true, registry.entries, None, dialled,
                          if dialled.Some? then [dialled.value] else []);
        } else {
          r := StepResult(st, SendError(Success), true, registry.entries, Some(ret.value), dialled, []);
        }
    }
  }

  /** One pass of `clientthread`'s loop over the message `msgs[i]`: a
      connection that ends here yields its whole remaining session; one that
      goes on yields the reply and the state the rest continues from, and
      `s` is then the session so far, not yet finished. */
  method Turn(state: State, cfg: Config, registry: AuthRegistry, client: PeerAddr, clientFd: int,
              msgs: seq<seq<Byte>>, i: nat, env: Env)
    returns (done: bool, reply: seq<Byte>, next: State, s: Session)
    requires i < |msgs|
    requires state == NeedAuth ==> cfg.auth.Some?
    requires Relay.EventsOk(env.relay)
    modifies registry
    ensures done ==> s == Run(state, cfg, old(registry.entries), client, clientFd, msgs[i..], env)
    ensures done ==> registry.entries == s.entries
    ensures !done ==> s == Session(next, [], [], registry.entries, None, [], false)
    ensures !done ==> next == NeedAuth ==> cfg.auth.Some?
    ensures !done ==> (Run(state, cfg, old(registry.entries), client, clientFd, msgs[i..], env)
                       == Prepend(reply, Run(next, cfg, registry.entries, client, clientFd, msgs[i + 1..], env)))
  {
    var msg := msgs[i];
    assert msgs[i..][0] == msg && msgs[i..][1..] == msgs[i + 1..];
    if msg == [] {
      return true, [], state, Session(state, [], [], registry.entries, None, [clientFd], true);
    }
    var r := ClientStep(state, cfg, registry, client, msg, env.dial);
    if r.terminate {
      s := Conclude(r, clientFd, env);
      return true, [], state, s;
    }
    return false, r.reply, r.state, Session(r.state, [], [], registry.entries, None, [], false);
  }

  /** `clientthread`: reads messages until one ends the connection, then
      relays after a successful CONNECT and closes the sockets; the registry
      is updated in place. */
  method ClientThread(cfg: Config, registry: AuthRegistry, client: PeerAddr, clientFd: int,
                      msgs: seq<seq<Byte>>, env: Env) returns (s: Session)
    requires Relay.EventsOk(env.relay)
    modifies registry
    ensures s == Run(Connected, cfg, old(registry.entries), client, clientFd, msgs, env)
    ensures registry.entries == s.entries
  {
    ghost var whole := Run(Connected, cfg, registry.entries, client, clientFd, msgs, env);
    var state := Connected;
    var out: seq<Byte> := [];
    var i := 0;
    while i < |msgs|
      invariant 0 <= i <= |msgs|
      invariant state == NeedAuth ==> cfg.auth.Some?
      invariant whole == Prepend(out, Run(state, cfg, registry.entries, client, clientFd, msgs[i..], env))
      decreases |msgs| - i
    {
      var done, reply, next, rest := Turn(state, cfg, registry, client, clientFd, msgs, i, env);
      if done {
        return Prepend(out, rest);
      }
      ConcatAssoc(out, reply, Run(next, cfg, registry.entries, client, clientFd, msgs[i + 1..], env).toClient);
      out := out + reply;
      state := next;
      i := i + 1;
    }
    assert msgs[|msgs|..] == [];
    s := Session(state, out, [], registry.entries, None, [], false);
  }

  // ---------------------------------------------------------------------
  // Whole connections

  /** A dial where every call succeeds and `socket` returns `fd`. */
  function DialOk(fd: nat): Dial
  {
    Dial(true, true, None, None, None, fd)
  }

  /** The CONNECT request for 127.0.0.1:8080. */
  const LoopbackRequest: seq<Byte> := [5, 1, 0, 1, 127, 0, 0, 1, 0x1F, 0x90]

  lemma LoopbackRequestParses()
    ensures ParseConnect(LoopbackRequest, true) == Ok(Target(IPv4, [127, 0, 0, 1], 8080))
  {
    var m := LoopbackRequest;
    assert m[4..8] == [127, 0, 0, 1];
    assert BigEndian16(m[8], m[9]) == 8080;
  }

  /** A greeting offering only NO_AUTH, from a client that may skip
      authentication, moves to AUTHED with `[5, 0]`. */
  lemma GreetingNoAuth(cfg: Config, entries: seq<PeerAddr>, client: PeerAddr, d: Dial)
    requires cfg.auth.None? || (cfg.authOnce && Authenticated(entries, client))
    ensures Step(Connected, cfg, entries, client, [5, 1, 0], d)
         == StepResult(Authed, [5, 0], false, entries, None, None, [])
  {
    assert OfferedMethods([5, 1, 0]) == [0];
  }

  /** A greeting offering only USERNAME, with a user configured, moves to
      NEED_AUTH with `[5, 2]`. */
  lemma GreetingUsername(cfg: Config, entries: seq<PeerAddr>, client: PeerAddr, d: Dial)
    requires cfg.auth.Some?
    ensures Step(Connected, cfg, entries, client, [5, 1, 2], d)
         == StepResult(NeedAuth, [5, 2], false, entries, None, None, [])
  {
    assert OfferedMethods([5, 1, 2]) == [2];
  }

  /** The CONNECT request for 127.0.0.1:8080 is dialled: the reply carries
      the dial's outcome. */
  lemma LoopbackStep(cfg: Config, entries: seq<PeerAddr>, client: PeerAddr, d: Dial)
    requires d.ntopOk
    ensures var r := Step(Authed, cfg, entries, client, LoopbackRequest, d);
      var u := Upstream(d, Family(cfg.bind) != AF_UNSPEC);
      && r.reply == SendError(if u.Ok? then Success else u.error)
      && r.remote == (if u.Ok? then Some(d.fd) else None)
      && r.dialled == (if d.resolveOk && d.socketErrno.None? then Some(d.fd) else None)
  {
    LoopbackRequestParses();
  }

  const SampleRelay: seq<Relay.Event> :=
    [Relay.Ready(true, 3, [1, 2, 3], [3]), Relay.Ready(false, 2, [9, 9], [2]), Relay.Idle]

  /** The sample relay: three octets from the client, two from the
      upstream, then a timeout. */
  lemma SampleRelayRun()
    ensures Relay.EventsOk(SampleRelay)
    ensures Relay.RelayRun(SampleRelay, SendError(TtlExpired))
         == Relay.Trace(Relay.TimedOut, [9, 9] + SendError(TtlExpired), [1, 2, 3], 3)
  {
    assert SampleRelay[1..] == [Relay.Ready(false, 2, [9, 9], [2]), Relay.Idle];
    assert SampleRelay[1..][1..] == [Relay.Idle];
  }

  /** Without authentication: the greeting `[5, 1, 0]` is answered `[5, 0]`,
      a CONNECT to 127.0.0.1:8080 is answered with a SUCCESS reply, and the
      relay forwards each side's octets until the upstream falls silent,
      when the TTL_EXPIRED frame is sent and both sockets are closed. */
  lemma NoAuthConnectThenRelay(client: PeerAddr, clientFd: int, fd: nat, bind: SockAddr)
    ensures Relay.EventsOk(SampleRelay)
    ensures var s := Run(Connected, Config(None, false, bind), [], client, clientFd,
                         [[5, 1, 0], LoopbackRequest], Env(DialOk(fd), SampleRelay));
      && s.toClient == [5, 0] + SendError(Success) + [9, 9] + SendError(TtlExpired)
      && s.toRemote == [1, 2, 3]
      && s.finished && s.closed == [fd, clientFd]
  {
    var cfg := Config(None, false, bind);
    var env := Env(DialOk(fd), SampleRelay);
    var msgs: seq<seq<Byte>> := [[5, 1, 0], LoopbackRequest];
    SampleRelayRun();
    GreetingNoAuth(cfg, [], client, env.dial);
    var rest := Run(Authed, cfg, [], client, clientFd, [LoopbackRequest], env);
    LoopbackRelayed(cfg, client, clientFd, fd);
    assert msgs[0] == [5, 1, 0] && msgs[1..] == [LoopbackRequest];
    assert Run(Connected, cfg, [], client, clientFd, msgs, env) == Prepend([5, 0], rest);
    assert [5, 0] + rest.toClient == [5, 0] + SendError(Success) + [9, 9] + SendError(TtlExpired);
  }

  /** The AUTHED half of the exchange above: the successful CONNECT hands
      the upstream to the sample relay, which ends on its timeout. */
  lemma LoopbackRelayed(cfg: Config, client: PeerAddr, clientFd: int, fd: nat)
    requires Relay.EventsOk(SampleRelay)
    ensures var s := Run(Authed, cfg, [], client, clientFd, [LoopbackRequest], Env(DialOk(fd), SampleRelay));
      && s.toClient == SendError(Success) + [9, 9] + SendError(TtlExpired)
      && s.toRemote == [1, 2, 3]
      && s.finished && s.closed == [fd, clientFd]
  {
    var env := Env(DialOk(fd), SampleRelay);
    SampleRelayRun();
    LoopbackStep(cfg, [], client, env.dial);
    var r := Step(Authed, cfg, [], client, LoopbackRequest, env.dial);
    assert r.remote == Some(fd) && r.reply == SendError(Success);
    assert Run(Authed, cfg, [], client, clientFd, [LoopbackRequest], env) == Conclusion(r, clientFd, env);
  }

  /** Auth-once, first connection: the username/password exchange succeeds
      and registers the client's address. */
  lemma AuthOnceRegisters(a: PeerAddr, fd: int, env: Env)
    requires Relay.EventsOk(env.relay)
    ensures var cfg := Config(Some(Credentials([117], [112])), true, Unbound(AF_UNSPEC));
      var s := Run(Connected, cfg, [], a, fd, [[5, 1, 2], EncodeCredentials([117], [112]), []], env);
      s.toClient == [5, 2, 1, 0] && s.entries == [a] && s.finished && s.closed == [fd]
  {
    var cfg := Config(Some(Credentials([117], [112])), true, Unbound(AF_UNSPEC));
    CredentialsRoundTrip([117], [112], cfg.auth.value);
    CStringOfNulFree([117]);
    CStringOfNulFree([112]);
    var msgs: seq<seq<Byte>> := [[5, 1, 2], EncodeCredentials([117], [112]), []];
    GreetingUsername(cfg, [], a, env.dial);
    assert Step(NeedAuth, cfg, [], a, msgs[1], env.dial)
        == StepResult(Authed, [1, 0], false, [a], None, None, []);
    assert msgs[1..][1..] == [[]];
    assert Run(Connected, cfg, [], a, fd, msgs, env)
        == Prepend([5, 2], Prepend([1, 0], Session(Authed, [], [], [a], None, [fd], true)));
  }

  /** Auth-once, later connections: the registered address (on any port) is
      admitted with NO_AUTH, while an address that never authenticated is
      refused with `[5, 0xFF]`. */
  lemma AuthOnceAdmitsSameAddress(a: PeerAddr, b: PeerAddr, port: int, fd: int, env: Env)
    requires 0 <= port < 0x1_0000 && !IsAuthed(b, a)
    requires Relay.EventsOk(env.relay)
    ensures var cfg := Config(Some(Credentials([117], [112])), true, Unbound(AF_UNSPEC));
      && Run(Connected, cfg, [a], a.(port := port), fd, [[5, 1, 0]], env).toClient == [5, 0]
      && Run(Connected, cfg, [a], a.(port := port), fd, [[5, 1, 0]], env).state == Authed
      && Run(Connected, cfg, [a], b, fd, [[5, 1, 0]], env).toClient == [5, 0xFF]
      && Run(Connected, cfg, [a], b, fd, [[5, 1, 0]], env).finished
  {
    var cfg := Config(Some(Credentials([117], [112])), true, Unbound(AF_UNSPEC));
    var a' := a.(port := port);
    IsAuthedEquivalence(a, a, a, port);
    assert IsAuthed(a', [a][0]);
    GreetingNoAuth(cfg, [a], a', env.dial);
    assert !Authenticated([a], b);
    assert OfferedMethods([5, 1, 0]) == [0];
    var msgs: seq<seq<Byte>> := [[5, 1, 0]];
    assert |msgs[1..]| == 0;
  }

  /** Wrong credentials are answered `[1, 2]` (NOT_ALLOWED) and the
      connection is closed without registering anything. */
  lemma WrongPasswordRefused(client: PeerAddr, fd: int, env: Env)
    requires Relay.EventsOk(env.relay)
    ensures var cfg := Config(Some(Credentials([117], [112])), true, Unbound(AF_UNSPEC));
      var s := Run(Connected, cfg, [], client, fd, [[5, 1, 2], EncodeCredentials([117], [113])], env);
      s.toClient == [5, 2, 1, 2] && s.entries == [] && s.finished && s.closed == [fd]
  {
    var cfg := Config(Some(Credentials([117], [112])), true, Unbound(AF_UNSPEC));
    CredentialsRoundTrip([117], [113], cfg.auth.value);
    CStringOfNulFree([117]);
    CStringOfNulFree([112]);
    var msgs: seq<seq<Byte>> := [[5, 1, 2], EncodeCredentials([117], [113])];
    GreetingUsername(cfg, [], client, env.dial);
    assert Step(NeedAuth, cfg, [], client, msgs[1], env.dial)
        == StepResult(NeedAuth, [1, 2], true, [], None, None, []);
    assert msgs[1..] == [msgs[1]];
  }

  /** A refused connect is reported with reply code 5, and both the
      upstream socket and the client socket are closed. */
  lemma RefusedConnectReported(client: PeerAddr, clientFd: int, fd: nat, env: Env)
    requires Relay.EventsOk(env.relay)
    requires env.dial == Dial(true, true, None, None, Some(ECONNREFUSED), fd)
    ensures var s := Run(Connected, Config(None, false, Unbound(AF_UNSPEC)), [], client, clientFd,
                         [[5, 1, 0], LoopbackRequest], env);
      s.toClient == [5, 0, 5, 5, 0, 1, 0, 0, 0, 0, 0, 0] && s.finished && s.closed == [fd, clientFd]
  {
    var cfg := Config(None, false, Unbound(AF_UNSPEC));
    var msgs: seq<seq<Byte>> := [[5, 1, 0], LoopbackRequest];
    GreetingNoAuth(cfg, [], client, env.dial);
    LoopbackStep(cfg, [], client, env.dial);
    assert msgs[1..] == [msgs[1]];
  }
}
