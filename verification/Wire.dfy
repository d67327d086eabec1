/** Frames and packets by their fields: what stands where on the wire, in plain numbers, and nothing
    else. The rest of the model is measured against this. */
module Wire {
  import opened Bytes
  import opened Checksum
  import opened ArpCache

  function Hi(w: u16): (b: byte)
  {
    w / 256
  }

  function Lo(w: u16): (b: byte)
  {
    w % 256
  }

  // ---------------------------------------------------------------- UDP, TCP and ICMP echo

  /** TCP options count as data, and `flags` includes the data offset. */
  datatype Segment =
    | Udp(src: u16, dst: u16, length: u16, sum: u16, data: seq<byte>)
    | Tcp(src: u16, dst: u16, seqHi: u16, seqLo: u16, ackHi: u16, ackLo: u16, flags: u16, window: u16,
          sum: u16, urgent: u16, data: seq<byte>)
    | Echo(kind: byte, code: byte, sum: u16, id: u16, number: u16, data: seq<byte>)

  function SegmentSize(g: Segment): (n: nat)
  {
    if g.Tcp? then 20 + |g.data| else 8 + |g.data|
  }

  function Protocol(g: Segment): (p: byte)
  {
    match g
    case Udp(_, _, _, _, _) => 17
    case Tcp(_, _, _, _, _, _, _, _, _, _, _) => 6
    case Echo(_, _, _, _, _, _) => 1
  }

  function SegmentByte(g: Segment, k: nat): (b: byte)
    requires k < SegmentSize(g)
  {
    match g
    case Udp(src, dst, length, sum, data) =>
      if k == 0 then Hi(src) else if k == 1 then Lo(src)
      else if k == 2 then Hi(dst) else if k == 3 then Lo(dst)
      else if k == 4 then Hi(length) else if k == 5 then Lo(length)
      else if k == 6 then Hi(sum) else if k == 7 then Lo(sum)
      else data[k - 8]
    case Tcp(src, dst, seqHi, seqLo, ackHi, ackLo, flags, window, sum, urgent, data) =>
      if k == 0 then Hi(src) else if k == 1 then Lo(src)
      else if k == 2 then Hi(dst) else if k == 3 then Lo(dst)
      else if k == 4 then Hi(seqHi) else if k == 5 then Lo(seqHi)
      else if k == 6 then Hi(seqLo) else if k == 7 then Lo(seqLo)
      else if k == 8 then Hi(ackHi) else if k == 9 then Lo(ackHi)
      else if k == 10 then Hi(ackLo) else if k == 11 then Lo(ackLo)
      else if k == 12 then Hi(flags) else if k == 13 then Lo(flags)
      else if k == 14 then Hi(window) else if k == 15 then Lo(window)
      else if k == 16 then Hi(sum) else if k == 17 then Lo(sum)
      else if k == 18 then Hi(urgent) else if k == 19 then Lo(urgent)
      else data[k - 20]
    case Echo(kind, code, sum, id, number, data) =>
      if k == 0 then kind else if k == 1 then code
      else if k == 2 then Hi(sum) else if k == 3 then Lo(sum)
      else if k == 4 then Hi(id) else if k == 5 then Lo(id)
      else if k == 6 then Hi(number) else if k == 7 then Lo(number)
      else data[k - 8]
  }

  function SegmentBytes(g: Segment): (s: seq<byte>)
    ensures |s| == SegmentSize(g) && forall k :: 0 <= k < |s| ==> s[k] == SegmentByte(g, k)
  {
    seq(SegmentSize(g), k requires 0 <= k < SegmentSize(g) => SegmentByte(g, k))
  }

  /** What names the client in a packet from it: its port, or the identifier of an echo. */
  function Local(g: Segment): (port: u16)
  {
    if g.Echo? then g.id else g.src
  }

  /** What names it in a packet to it. */
  function Remote(g: Segment): (port: u16)
  {
    if g.Echo? then g.id else g.dst
  }

  function WithLocal(g: Segment, port: u16): (g': Segment)
    ensures SegmentSize(g') == SegmentSize(g) && Protocol(g') == Protocol(g)
  {
    match g
    case Udp(_, dst, length, sum, data) => Udp(port, dst, length, sum, data)
    case Tcp(_, dst, seqHi, seqLo, ackHi, ackLo, flags, window, sum, urgent, data) =>
      Tcp(port, dst, seqHi, seqLo, ackHi, ackLo, flags, window, sum, urgent, data)
    case Echo(kind, code, sum, _, number, data) => Echo(kind, code, sum, port, number, data)
  }

  function WithRemote(g: Segment, port: u16): (g': Segment)
    ensures SegmentSize(g') == SegmentSize(g) && Protocol(g') == Protocol(g)
  {
    match g
    case Udp(src, _, length, sum, data) => Udp(src, port, length, sum, data)
    case Tcp(src, _, seqHi, seqLo, ackHi, ackLo, flags, window, sum, urgent, data) =>
      Tcp(src, port, seqHi, seqLo, ackHi, ackLo, flags, window, sum, urgent, data)
    case Echo(kind, code, sum, _, number, data) => Echo(kind, code, sum, port, number, data)
  }

  function WithSum(g: Segment, sum: u16): (g': Segment)
    ensures SegmentSize(g') == SegmentSize(g) && Protocol(g') == Protocol(g)
  {
    match g
    case Udp(src, dst, length, _, data) => Udp(src, dst, length, sum, data)
    case Tcp(src, dst, seqHi, seqLo, ackHi, ackLo, flags, window, _, urgent, data) =>
      Tcp(src, dst, seqHi, seqLo, ackHi, ackLo, flags, window, sum, urgent, data)
    case Echo(kind, code, _, id, number, data) => Echo(kind, code, sum, id, number, data)
  }

  // ---------------------------------------------------------------- IPv4

  /** `options` fill whole 32-bit words. */
  datatype Datagram = Datagram(tos: byte, id: u16, fragment: u16, ttl: byte, sum: u16, src: Ipv4, dst: Ipv4,
                               options: seq<byte>, seg: Segment)

  ghost predicate WellFormed(x: Datagram)
  {
    |x.options| % 4 == 0 && |x.options| <= 40 && Size(x) <= 1280
  }

  function HeaderSize(x: Datagram): (n: nat)
  {
    20 + |x.options|
  }

  function Size(x: Datagram): (n: nat)
  {
    HeaderSize(x) + SegmentSize(x.seg)
  }

  function HeaderByte(x: Datagram, k: nat): (b: byte)
    requires WellFormed(x) && k < HeaderSize(x)
  {
    if k == 0 then 0x45 + |x.options| / 4 else if k == 1 then x.tos
    else if k == 2 then Hi(Size(x)) else if k == 3 then Lo(Size(x))
    else if k == 4 then Hi(x.id) else if k == 5 then Lo(x.id)
    else if k == 6 then Hi(x.fragment) else if k == 7 then Lo(x.fragment)
    else if k == 8 then x.ttl else if k == 9 then Protocol(x.seg)
    else if k == 10 then Hi(x.sum) else if k == 11 then Lo(x.sum)
    else if k == 12 then x.src.a else if k == 13 then x.src.b else if k == 14 then x.src.c else if k == 15 then x.src.d
    else if k == 16 then x.dst.a else if k == 17 then x.dst.b else if k == 18 then x.dst.c else if k == 19 then x.dst.d
    else x.options[k - 20]
  }

  function HeaderBytes(x: Datagram): (s: seq<byte>)
    requires WellFormed(x)
    ensures |s| == HeaderSize(x) && forall k :: 0 <= k < |s| ==> s[k] == HeaderByte(x, k)
  {
    seq(HeaderSize(x), k requires 0 <= k < HeaderSize(x) => HeaderByte(x, k))
  }

  function PacketByte(x: Datagram, k: nat): (b: byte)
    requires WellFormed(x) && k < Size(x)
  {
    if k < HeaderSize(x) then HeaderByte(x, k) else SegmentByte(x.seg, k - HeaderSize(x))
  }

  function PacketBytes(x: Datagram): (s: seq<byte>)
    requires WellFormed(x)
    ensures |s| == Size(x) && forall k :: 0 <= k < |s| ==> s[k] == PacketByte(x, k)
  {
    seq(Size(x), k requires 0 <= k < Size(x) => PacketByte(x, k))
  }

  /** `x` stands in `p` from `b` on. */
  ghost predicate Holds(p: seq<byte>, b: nat, x: Datagram)
    requires WellFormed(x)
  {
    b + Size(x) <= |p| && forall k :: 0 <= k < Size(x) ==> p[b + k] == PacketByte(x, k)
  }

  // ---------------------------------------------------------------- checksums

  /** Addresses, a zero, the protocol, and the segment's length: the pseudo header. */
  function PseudoByte(x: Datagram, k: nat): (b: byte)
    requires WellFormed(x) && k < 12
  {
    if k == 0 then x.src.a else if k == 1 then x.src.b else if k == 2 then x.src.c else if k == 3 then x.src.d
    else if k == 4 then x.dst.a else if k == 5 then x.dst.b else if k == 6 then x.dst.c else if k == 7 then x.dst.d
    else if k == 8 then 0 else if k == 9 then Protocol(x.seg)
    else if k == 10 then Hi(SegmentSize(x.seg)) else Lo(SegmentSize(x.seg))
  }

  function PseudoBytes(x: Datagram): (s: seq<byte>)
    requires WellFormed(x)
    ensures |s| == 12 && forall k :: 0 <= k < 12 ==> s[k] == PseudoByte(x, k)
  {
    seq(12, k requires 0 <= k < 12 => PseudoByte(x, k))
  }

  /** What the transport checksum covers. */
  function Covered(x: Datagram): (s: seq<byte>)
    requires WellFormed(x)
  {
    if x.seg.Echo? then SegmentBytes(x.seg)
    else PseudoBytes(x) + SegmentBytes(x.seg)
  }

  function HeaderSum(x: Datagram): (sum: u16)
    requires WellFormed(x)
  {
    RfcChecksum(HeaderBytes(x.(sum := 0)))
  }

  function SegmentSum(x: Datagram): (sum: u16)
    requires WellFormed(x)
  {
    RfcChecksum(Covered(x.(seg := WithSum(x.seg, 0))))
  }

  /** A receiver cannot tell the two zeros of one's complement apart: a field of 0xFFFF passes for 0. */
  predicate Agrees(field: u16, computed: u16)
  {
    field == computed || (field == 0xFFFF && computed == 0)
  }

  function WithSums(x: Datagram, header: u16, segment: u16): (x': Datagram)
    requires WellFormed(x)
    ensures WellFormed(x') && Size(x') == Size(x)
  {
    x.(sum := header, seg := WithSum(x.seg, segment))
  }

  /** The packet with both checksums computed. */
  function Resummed(x: Datagram): (x': Datagram)
    requires WellFormed(x)
    ensures WellFormed(x') && Size(x') == Size(x)
  {
    WithSums(x, HeaderSum(x), SegmentSum(x))
  }

  /** The packet with the source changed, checksums aside. */
  function FromHere(x: Datagram, addr: Ipv4, port: u16): (z: Datagram)
    requires WellFormed(x)
    ensures WellFormed(z) && Size(z) == Size(x)
  {
    x.(src := addr, seg := WithLocal(x.seg, port))
  }

  /** The packet with the destination changed, checksums aside. */
  function ToThere(x: Datagram, addr: Ipv4, port: u16): (z: Datagram)
    requires WellFormed(x)
    ensures WellFormed(z) && Size(z) == Size(x)
  {
    x.(dst := addr, seg := WithRemote(x.seg, port))
  }

  /** What becomes of a client's packet on its way out. */
  function SentOut(x: Datagram, gateway: Ipv4, port: u16): (x': Datagram)
    requires WellFormed(x)
    ensures WellFormed(x') && Size(x') == Size(x)
  {
    Resummed(FromHere(x, gateway, port))
  }

  /** What becomes of an answer on its way in. */
  function SentIn(x: Datagram, client: Ipv4, port: u16): (x': Datagram)
    requires WellFormed(x)
    ensures WellFormed(x') && Size(x') == Size(x)
  {
    Resummed(ToThere(x, client, port))
  }

  // ---------------------------------------------------------------- Ethernet and ARP

  /** Destination, source, and 0x0800 for IPv4. */
  function IpFrame(dst: Mac, src: Mac, packet: seq<byte>): (d: seq<byte>)
  {
    dst + src + [0x08, 0x00] + packet
  }

  /** The frame starts with this packet from MAC `src` to MAC `dst`. Ethernet may pad short frames. */
  ghost predicate IsIp(d: seq<byte>, dst: Mac, src: Mac, x: Datagram)
    requires WellFormed(x)
  {
    |d| >= 14 && d[..6] == dst && d[6..12] == src && d[12] == 0x08 && d[13] == 0x00 && Holds(d, 14, x)
  }

  datatype Arp = Arp(dst: Mac, src: Mac, op: u16, senderMac: Mac, senderIp: Ipv4, targetMac: Mac, targetIp: Ipv4)

  function ArpByte(a: Arp, k: nat): (b: byte)
    requires k < 42
  {
    if k < 6 then a.dst[k]
    else if k < 12 then a.src[k - 6]
    else if k == 12 then 0x08 else if k == 13 then 0x06
    else if k == 14 then 0 else if k == 15 then 1
    else if k == 16 then 0x08 else if k == 17 then 0x00
    else if k == 18 then 6 else if k == 19 then 4
    else if k == 20 then Hi(a.op) else if k == 21 then Lo(a.op)
    else if k < 28 then a.senderMac[k - 22]
    else if k == 28 then a.senderIp.a else if k == 29 then a.senderIp.b
    else if k == 30 then a.senderIp.c else if k == 31 then a.senderIp.d
    else if k < 38 then a.targetMac[k - 32]
    else if k == 38 then a.targetIp.a else if k == 39 then a.targetIp.b
    else if k == 40 then a.targetIp.c else a.targetIp.d
  }

  /** The frame starts with this ARP packet. */
  ghost predicate IsArp(d: seq<byte>, a: Arp)
  {
    |d| >= 42 && forall k :: 0 <= k < 42 ==> d[k] == ArpByte(a, k)
  }
}
