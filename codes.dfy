/** The protocol's enumerations and their wire values: authentication
    methods (section 3 of RFC 1928), reply codes (section 6 of RFC 1928),
    the per-connection states, and the operating-system error numbers the
    servers translate into reply codes. */
module Codes {
  import opened Bytes

  /** `authmethod` / `AuthMethod`. */
  datatype AuthMethod = NoAuth | GssApi | Username | Invalid

  /** The octet a method is sent as: NO_AUTH=0, GSSAPI=1, USERNAME=2, INVALID=0xFF. */
  function MethodOctet(m: AuthMethod): Byte
  {
    match m
    case NoAuth => 0
    case GssApi => 1
    case Username => 2
    case Invalid => 0xFF
  }

  /** The method an octet names, if any. */
  function MethodOf(b: Byte): Option<AuthMethod>
  {
    if b == 0 then Some(NoAuth)
    else if b == 1 then Some(GssApi)
    else if b == 2 then Some(Username)
    else if b == 0xFF then Some(Invalid)
    else None
  }

  /** MethodOf inverts MethodOctet, so distinct methods have distinct octets. */
  lemma MethodOctetInverse(m: AuthMethod, b: Byte)
    ensures MethodOf(MethodOctet(m)) == Some(m)
    ensures MethodOf(b) == Some(m) <==> b == MethodOctet(m)
  {
  }

  /** `errorcode` / `ErrorCode`: the reply codes of RFC 1928. */
  datatype ErrorCode =
    | Success
    | GeneralFailure
    | NotAllowed
    | NetUnreachable
    | HostUnreachable
    | ConnRefused
    | TtlExpired
    | CommandNotSupported
    | AddressTypeNotSupported

  /** The RFC 1928 reply field value, which the reference server's enum uses. */
  function ReplyCode(e: ErrorCode): (c: nat)
    ensures c <= 8
    ensures c == 0 <==> e == Success
  {
    match e
    case Success => 0
    case GeneralFailure => 1
    case NotAllowed => 2
    case NetUnreachable => 3
    case HostUnreachable => 4
    case ConnRefused => 5
    case TtlExpired => 6
    case CommandNotSupported => 7
    case AddressTypeNotSupported => 8
  }

  /** The reply code a value stands for, if any. */
  function ErrorCodeOf(c: int): Option<ErrorCode>
  {
    if c == 0 then Some(Success)
    else if c == 1 then Some(GeneralFailure)
    else if c == 2 then Some(NotAllowed)
    else if c == 3 then Some(NetUnreachable)
    else if c == 4 then Some(HostUnreachable)
    else if c == 5 then Some(ConnRefused)
    else if c == 6 then Some(TtlExpired)
    else if c == 7 then Some(CommandNotSupported)
    else if c == 8 then Some(AddressTypeNotSupported)
    else None
  }

  /** ErrorCodeOf inverts ReplyCode both ways: the codes are exactly 0..8. */
  lemma ReplyCodeInverse(e: ErrorCode, c: int)
    ensures ErrorCodeOf(ReplyCode(e)) == Some(e)
    ensures ErrorCodeOf(c) == Some(e) <==> c == ReplyCode(e)
    ensures ErrorCodeOf(c).Some? <==> 0 <= c <= 8
  {
  }

  /** `socksstate` / `Client::State`, in declaration order. */
  datatype State = Connected | NeedAuth | Authed

  /** The enumerator value: CONNECTED < NEED_AUTH < AUTHED. */
  function Ordinal(s: State): (k: nat)
    ensures k <= 2
    ensures s == Connected <==> k == 0
    ensures s == Authed <==> k == 2
  {
    match s
    case Connected => 0
    case NeedAuth => 1
    case Authed => 2
  }

  // errno values (Linux numbering) that the connect path distinguishes.
  const EPROTOTYPE: int := 91
  const EPROTONOSUPPORT: int := 93
  const EAFNOSUPPORT: int := 97
  const ENETDOWN: int := 100
  const ENETUNREACH: int := 101
  const ETIMEDOUT: int := 110
  const ECONNREFUSED: int := 111
  const EHOSTUNREACH: int := 113
}
