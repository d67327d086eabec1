/** Which packets the handlers accept, in the fields of `Wire`. */
module WireChecks {
  import opened Bytes
  import opened Checksum
  import opened PortTable
  import opened Packet
  import opened ArpCache
  import opened Gateway
  import opened Wire
  import opened WireTheorems
  import opened WireTrips

  // ---------------------------------------------------------------- what the checksums say

  lemma HeldButSums(p: seq<byte>, b: nat, x: Datagram)
    requires WellFormed(x) && Holds(p, b, x)
    ensures HoldsButSums(p, b, x)
  {
  }

  lemma HeaderField(p: seq<byte>, b: nat, x: Datagram)
    requires WellFormed(x) && Holds(p, b, x)
    ensures var h := p[b..b + HeaderSize(x)]; Be16(h[10], h[11]) == x.sum
  {
    assert p[b + 10] == PacketByte(x, 10) && p[b + 11] == PacketByte(x, 11);
  }

  lemma HeaderAgreesIff(p: seq<byte>, b: nat, x: Datagram)
    requires WellFormed(x) && Holds(p, b, x)
    ensures Complement(OnesSum(Little, p[b..b + HeaderSize(x)])) == 0 <==> Agrees(x.sum, HeaderSum(x))
  {
    HeldButSums(p, b, x);
    HeaderWithoutSum(p, b, x);
    HeaderField(p, b, x);
    VerifiesIff(p[b..b + HeaderSize(x)], 10);
  }

  lemma FieldInSegment(p: seq<byte>, b: nat, x: Datagram)
    requires WellFormed(x) && Holds(p, b, x)
    ensures var f := b + HeaderSize(x) + SumAt(x.seg); Be16(p[f], p[f + 1]) == x.seg.sum
  {
    SegmentRead(p, b, x, SumAt(x.seg));
    SegmentRead(p, b, x, SumAt(x.seg) + 1);
  }

  lemma FieldInSummed(p: seq<byte>, y: Layout)
    requires y.Complete(p)
    ensures var f, at, all := y.Seg() + ChecksumField(y.proto), SummedField(y.proto), Summed(p, y);
            at + 2 <= |all| && all[at] == p[f] && all[at + 1] == p[f + 1] && at % 2 == 0
  {
  }

  lemma SummedVerifiesIff(p: seq<byte>, y: Layout, s: seq<byte>, field: u16)
    requires y.Complete(p) && SummedIs(p, y, s)
    requires var f := y.Seg() + ChecksumField(y.proto); Be16(p[f], p[f + 1]) == field
    ensures Complement(OnesSum(Little, Summed(p, y))) == 0 <==> Agrees(field, RfcChecksum(s))
  {
    FieldInSummed(p, y);
    VerifiesIff(Summed(p, y), SummedField(y.proto));
  }

  lemma SegmentAgreesIff(p: seq<byte>, b: nat, x: Datagram, y: Layout)
    requires WellFormed(x) && Holds(p, b, x) && y == LayoutFor(x, b) && y.Complete(p)
    ensures Complement(OnesSum(Little, Summed(p, y))) == 0 <==> Agrees(x.seg.sum, SegmentSum(x))
  {
    HeldButSums(p, b, x);
    SegmentCleared(p, b, x);
    FieldOf(x.seg);
    FieldInSegment(p, b, x);
    SummedVerifiesIff(p, y, Covered(x.(seg := WithSum(x.seg, 0))), x.seg.sum);
  }

  // ---------------------------------------------------------------- inbound

  predicate PassesIn(z: Datagram, rawLen: int, myIp: Ipv4)
    requires WellFormed(z)
  {
    && rawLen >= 20 && z.dst == myIp && Agrees(z.sum, HeaderSum(z))
    && (z.seg.Echo? ==> z.seg.kind == 0 || z.seg.kind == 8)
    && (!z.seg.Tcp? ==> Agrees(z.seg.sum, SegmentSum(z)))
  }

  lemma HeaderPassesInIff(raw: seq<byte>, rawLen: int, z: Datagram, myIp: Ipv4)
    requires WellFormed(z) && Holds(raw, 0, z) && |raw| == 1280
    ensures HeaderPassesIn(raw, rawLen, myIp) <==> rawLen >= 20 && z.dst == myIp && Agrees(z.sum, HeaderSum(z))
  {
    LayoutRead(raw, 0, z, 0);
    HeaderLengthRead(raw, 0, z);
    AddressesRead(raw, 0, z);
    HeaderAgreesIff(raw, 0, z);
  }

  lemma KindRead(p: seq<byte>, b: nat, x: Datagram)
    requires WellFormed(x) && Holds(p, b, x) && x.seg.Echo?
    ensures p[b + HeaderSize(x)] == x.seg.kind
  {
    SegmentRead(p, b, x, 0);
  }

  lemma CompleteIn(raw: seq<byte>, z: Datagram)
    requires WellFormed(z) && |raw| == 1280
    ensures LayoutFor(z, 0).Complete(raw)
  {
  }

  /** A packet from the LTE side is looked up exactly if it is addressed to the gateway, its header
      verifies, as a UDP or ICMP packet its segment does too, and as ICMP it is an echo. */
  lemma AcceptedInIff(raw: seq<byte>, rawLen: int, z: Datagram, myIp: Ipv4)
    requires WellFormed(z) && Holds(raw, 0, z) && |raw| == 1280
    ensures AcceptedIn(raw, rawLen, myIp) <==> PassesIn(z, rawLen, myIp)
    ensures SoundIn(raw, rawLen, myIp)
  {
    HeaderPassesInIff(raw, rawLen, z, myIp);
    LayoutRead(raw, 0, z, 0);
    CompleteIn(raw, z);
    SegmentAgreesIff(raw, 0, z, LayoutFor(z, 0));
    if z.seg.Echo? {
      KindRead(raw, 0, z);
    }
  }

  /** UDP lets a sender leave the checksum out and send 0 (RFC 768). The gateway has no such case: it
      refuses the packet unless 0 is what the checksum would be. */
  lemma UdpWithoutSumIff(raw: seq<byte>, rawLen: int, z: Datagram, myIp: Ipv4)
    requires WellFormed(z) && Holds(raw, 0, z) && |raw| == 1280 && z.seg.Udp? && z.seg.sum == 0
    requires rawLen >= 20 && z.dst == myIp && Agrees(z.sum, HeaderSum(z))
    ensures AcceptedIn(raw, rawLen, myIp) <==> SegmentSum(z) == 0
  {
    AcceptedInIff(raw, rawLen, z, myIp);
  }

  // ---------------------------------------------------------------- outbound

  predicate PassesOut(x: Datagram, to: Mac, myMac: Mac)
    requires WellFormed(x)
  {
    to == myMac && Agrees(x.sum, HeaderSum(x)) && (x.seg.Echo? ==> x.seg.kind == 0 || x.seg.kind == 8)
  }

  /** The first fragment `d` of a frame that carries `x` holds its header, and the kind of an echo. */
  ghost predicate Starts(d: seq<byte>, g: seq<byte>, x: Datagram)
    requires WellFormed(x)
  {
    |d| >= 14 + HeaderSize(x) + (if x.seg.Echo? then 1 else 0) && |d| <= |g| && d == g[..|d|]
  }

  lemma HeaderPassesOutIff(d: seq<byte>, g: seq<byte>, x: Datagram, to: Mac, from: Mac, myMac: Mac)
    requires WellFormed(x) && IsIp(g, to, from, x) && Starts(d, g, x)
    ensures LayoutOf(d, 14, 0) == LayoutFor(x, 0)
    ensures HeaderPassesOut(d, myMac) <==> to == myMac && Agrees(x.sum, HeaderSum(x))
  {
    StartsRead(d, g, x);
    LayoutRead(g, 14, x, 0);
    HeaderLengthRead(g, 14, x);
    HeaderAgreesIff(g, 14, x);
  }

  lemma StartsRead(d: seq<byte>, g: seq<byte>, x: Datagram)
    requires WellFormed(x) && Starts(d, g, x)
    ensures forall k :: 0 <= k < |d| ==> d[k] == g[k]
    ensures d[..6] == g[..6] && d[14..14 + HeaderSize(x)] == g[14..14 + HeaderSize(x)]
  {
  }

  /** A frame is forwarded, given a mapping, exactly if it is addressed to the gateway, the header of its
      packet verifies, and as ICMP it is an echo. */
  lemma AcceptedOutIff(d: seq<byte>, g: seq<byte>, x: Datagram, to: Mac, from: Mac, myMac: Mac)
    requires WellFormed(x) && IsIp(g, to, from, x) && Starts(d, g, x)
    ensures AcceptedOut(d, myMac) <==> PassesOut(x, to, myMac)
    ensures SoundOut(d, myMac)
  {
    HeaderPassesOutIff(d, g, x, to, from, myMac);
    StartsRead(d, g, x);
    if x.seg.Echo? {
      KindRead(g, 14, x);
    }
  }
}
