/** Machine integers and the byte-order conversions the firmware performs with pointer casts. */
module Bytes {

  type byte = b: int | 0 <= b < 0x100
  type u16 = w: int | 0 <= w < 0x1_0000
  type u32 = w: int | 0 <= w < 0x1_0000_0000

  const WRAP32 := 0x1_0000_0000

  /** A 16-bit load through a `uint16_t *` on the little-endian target. */
  function Le16(lo: byte, hi: byte): (w: u16)
  {
    lo + 0x100 * hi
  }

  /** Network byte order: the first octet is the more significant one. */
  function Be16(hi: byte, lo: byte): (w: u16)
  {
    0x100 * hi + lo
  }

  /** A 32-bit load through a `uint32_t *`. */
  function Load32(s: seq<byte>, i: nat): (w: u32)
    requires i + 4 <= |s|
  {
    Le16(s[i], s[i + 1]) + 0x1_0000 * Le16(s[i + 2], s[i + 3])
  }

  /** An IPv4 address. The firmware keeps it in a 32-bit integer that it loads, stores, copies,
      compares and tests for 0, but never computes with: here it is the four bytes in memory order. */
  datatype Ipv4 = Ipv4(a: byte, b: byte, c: byte, d: byte)

  const ZERO_IP := Ipv4(0, 0, 0, 0)

  function IpAt(s: seq<byte>, i: nat): (ip: Ipv4)
    requires i + 4 <= |s|
  {
    Ipv4(s[i], s[i + 1], s[i + 2], s[i + 3])
  }

  /** Host-to-network conversion of a 16-bit value: the two halves change places. */
  function Swap16(w: u16): (r: u16)
  {
    w % 0x100 * 0x100 + w / 0x100
  }

  lemma Swap16Involution(w: u16)
    ensures Swap16(Swap16(w)) == w
  {
  }

  /** Two buffers agree outside the named positions. */
  ghost predicate SameBut(p: seq<byte>, r: seq<byte>, changed: set<nat>)
  {
    |p| == |r| && forall k :: 0 <= k < |p| && k !in changed ==> r[k] == p[k]
  }

  /** The buffer with the 16-bit field at `pos` set to zero. */
  function Zeroed(s: seq<byte>, pos: nat): (r: seq<byte>)
    requires pos + 2 <= |s|
    ensures SameBut(s, r, {pos, pos + 1}) && r[pos] == 0 && r[pos + 1] == 0
  {
    s[pos := 0][pos + 1 := 0]
  }
}
