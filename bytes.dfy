/** Octets and the C-level views of them that both servers rely on:
    NUL-terminated strings (what `strcmp` compares), the conversion of an
    `int` to `unsigned char`/`char` when it is stored in a send buffer, and
    16-bit big-endian fields. */
module Bytes {

  /** One octet of an `unsigned char` receive or send buffer. */
  type Byte = b: int | 0 <= b < 256

  datatype Option<+T> = None | Some(value: T)

  datatype Result<+T, +E> = Ok(value: T) | Err(error: E)

  /** The string a C routine sees in a buffer: everything before the first NUL. */
  function CString(s: seq<Byte>): (r: seq<Byte>)
    ensures r <= s
    ensures 0 !in r
    ensures |r| < |s| ==> s[|r|] == 0
  {
    if s == [] || s[0] == 0 then [] else [s[0]] + CString(s[1..])
  }

  /** A buffer without NUL bytes is its own C string. */
  lemma CStringOfNulFree(s: seq<Byte>)
    requires 0 !in s
    ensures CString(s) == s
  {
  }

  /** Octets sent one after the other: appending is associative. */
  lemma ConcatAssoc(a: seq<Byte>, b: seq<Byte>, c: seq<Byte>)
    ensures a + (b + c) == (a + b) + c
  {
  }

  /** Storing an `int` into an `unsigned char` (or a two's-complement `char`)
      keeps it modulo 256; Dafny's `%` is Euclidean, which is exactly that. */
  function ToByte(x: int): (b: Byte)
    ensures 0 <= x < 256 ==> b == x
    ensures -256 <= x < 0 ==> b == x + 256
  {
    x % 256
  }

  /** `(hi << 8) | lo` for two octets: a 16-bit big-endian value. */
  function BigEndian16(hi: Byte, lo: Byte): (v: int)
    ensures 0 <= v < 0x1_0000
  {
    hi * 256 + lo
  }

  /** The two octets of a 16-bit value in network order. */
  function PortOctets(v: int): (s: seq<Byte>)
    requires 0 <= v < 0x1_0000
    ensures |s| == 2
  {
    [v / 256, v % 256]
  }

  /** PortOctets and BigEndian16 are inverse to each other. */
  lemma PortOctetsInverse(v: int, hi: Byte, lo: Byte)
    requires 0 <= v < 0x1_0000
    ensures BigEndian16(PortOctets(v)[0], PortOctets(v)[1]) == v
    ensures PortOctets(BigEndian16(hi, lo)) == [hi, lo]
  {
    var w := hi * 256 + lo;
    assert w / 256 == hi && w % 256 == lo;
  }
}
