/** `union sockAddress` of include/server.h as a tagged variant, with the
    accessors `family`, `length`, `address` and `port`. The union's
    `sin_family` field is the tag; a value of any family other than AF_INET
    and AF_INET6 (AF_UNSPEC for an unset bind address) carries no address. */
module Addresses {
  import opened Bytes

  // Address families and structure sizes (Linux values).
  const AF_UNSPEC: int := 0
  const AF_INET: int := 2
  const AF_INET6: int := 10
  const SIZEOF_SOCKADDR_IN: nat := 16
  const SIZEOF_SOCKADDR_IN6: nat := 28

  datatype SockAddress =
    | In(addr: seq<Byte>, port: int)    // sockaddr_in: sin_addr, sin_port as stored
    | In6(addr: seq<Byte>, port: int)   // sockaddr_in6: sin6_addr, sin6_port as stored
    | Unbound(family: int)              // any other sin_family value

  predicate WellFormed(a: SockAddress)
  {
    match a
    case In(ad, p) => |ad| == 4 && 0 <= p < 0x1_0000
    case In6(ad, p) => |ad| == 16 && 0 <= p < 0x1_0000
    case Unbound(f) => f != AF_INET && f != AF_INET6 && 0 <= f < 0x1_0000
  }

  type SockAddr = a: SockAddress | WellFormed(a) witness Unbound(AF_UNSPEC)

  /** The address of an accepted TCP peer: always IPv4 or IPv6. */
  type PeerAddr = a: SockAddr | !a.Unbound? witness In([0, 0, 0, 0], 0)

  /** `family`: the `sin_family` field, which both variants share. */
  function Family(a: SockAddr): (f: int)
    ensures f == AF_INET <==> a.In?
    ensures f == AF_INET6 <==> a.In6?
    ensures a.Unbound? ==> f == a.family
  {
    match a
    case In(_, _) => AF_INET
    case In6(_, _) => AF_INET6
    case Unbound(f) => f
  }

  /** `length`: the size of the active structure, 0 for another family. */
  function Length(a: SockAddr): (n: nat)
    ensures a.In? ==> n == SIZEOF_SOCKADDR_IN
    ensures a.In6? ==> n == SIZEOF_SOCKADDR_IN6
    ensures a.Unbound? ==> n == 0
  {
    if Family(a) == AF_INET then SIZEOF_SOCKADDR_IN
    else if Family(a) == AF_INET6 then SIZEOF_SOCKADDR_IN6
    else 0
  }

  /** `address`: the raw address octets, or null for another family. */
  function Address(a: SockAddr): (r: Option<seq<Byte>>)
    ensures r.Some? <==> Length(a) != 0
    ensures r.Some? ==> |r.value| == (if Family(a) == AF_INET then 4 else 16)
    ensures r.Some? ==> r.value == a.addr
  {
    if Family(a) == AF_INET then Some(a.addr)
    else if Family(a) == AF_INET6 then Some(a.addr)
    else None
  }

  /** `port`: the port field of the active structure, 0 for another family. */
  function Port(a: SockAddr): (p: int)
    ensures 0 <= p < 0x1_0000
    ensures a.Unbound? ==> p == 0
    ensures !a.Unbound? ==> p == a.port
  {
    if Family(a) == AF_INET then a.port
    else if Family(a) == AF_INET6 then a.port
    else 0
  }
}
