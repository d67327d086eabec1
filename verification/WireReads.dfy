/** Every packet the handlers accept is one that `Wire` describes. */
module WireReads {
  import opened Bytes
  import opened Packet
  import opened ArpCache
  import opened Gateway
  import opened Wire
  import opened WireTheorems
  import opened WireChecks

  // ---------------------------------------------------------------- reading fields back

  /** The whole transport header is there. */
  predicate FullHeader(proto: byte, size: int)
  {
    if proto == 6 then 20 <= size else 8 <= size
  }

  function SegmentAt(s: seq<byte>, proto: byte): (g: Segment)
    requires FullHeader(proto, |s|)
  {
    if proto == 17 then Udp(Be16(s[0], s[1]), Be16(s[2], s[3]), Be16(s[4], s[5]), Be16(s[6], s[7]), s[8..])
    else if proto == 6 then
      Tcp(Be16(s[0], s[1]), Be16(s[2], s[3]), Be16(s[4], s[5]), Be16(s[6], s[7]), Be16(s[8], s[9]),
          Be16(s[10], s[11]), Be16(s[12], s[13]), Be16(s[14], s[15]), Be16(s[16], s[17]), Be16(s[18], s[19]), s[20..])
    else Echo(s[0], s[1], Be16(s[2], s[3]), Be16(s[4], s[5]), Be16(s[6], s[7]), s[8..])
  }

  lemma Halves(hi: byte, lo: byte)
    ensures Hi(Be16(hi, lo)) == hi && Lo(Be16(hi, lo)) == lo
  {
  }

  lemma SegmentFits(s: seq<byte>, proto: byte)
    requires FullHeader(proto, |s|) && proto in {1, 6, 17}
    ensures SegmentSize(SegmentAt(s, proto)) == |s| && Protocol(SegmentAt(s, proto)) == proto
  {
  }

  lemma UdpIsRead(s: seq<byte>, k: nat)
    requires 8 <= |s| && k < |s|
    ensures k < SegmentSize(SegmentAt(s, 17)) && SegmentByte(SegmentAt(s, 17), k) == s[k]
  {
    Halves(s[0], s[1]);
    Halves(s[2], s[3]);
    Halves(s[4], s[5]);
    Halves(s[6], s[7]);
  }

  lemma TcpIsRead(s: seq<byte>, k: nat)
    requires 20 <= |s| && k < |s|
    ensures k < SegmentSize(SegmentAt(s, 6)) && SegmentByte(SegmentAt(s, 6), k) == s[k]
  {
    Halves(s[0], s[1]);
    Halves(s[2], s[3]);
    Halves(s[4], s[5]);
    Halves(s[6], s[7]);
    Halves(s[8], s[9]);
    Halves(s[10], s[11]);
    Halves(s[12], s[13]);
    Halves(s[14], s[15]);
    Halves(s[16], s[17]);
    Halves(s[18], s[19]);
  }

  lemma EchoIsRead(s: seq<byte>, k: nat)
    requires 8 <= |s| && k < |s|
    ensures k < SegmentSize(SegmentAt(s, 1)) && SegmentByte(SegmentAt(s, 1), k) == s[k]
  {
    Halves(s[2], s[3]);
    Halves(s[4], s[5]);
    Halves(s[6], s[7]);
  }

  lemma SegmentIsRead(s: seq<byte>, proto: byte, k: nat)
    requires FullHeader(proto, |s|) && proto in {1, 6, 17} && k < |s|
    ensures k < SegmentSize(SegmentAt(s, proto)) && SegmentByte(SegmentAt(s, proto), k) == s[k]
  {
    if proto == 17 {
      UdpIsRead(s, k);
    } else if proto == 6 {
      TcpIsRead(s, k);
    } else {
      EchoIsRead(s, k);
    }
  }

  /** The packet, of these lengths and this protocol, that stands in `p` from `b` on. */
  function DatagramAt(p: seq<byte>, b: nat, hl: nat, len: nat): (x: Datagram)
    requires 20 <= hl <= len && b + len <= |p| && FullHeader(p[b + 9], len - hl)
  {
    Datagram(p[b + 1], Be16(p[b + 4], p[b + 5]), Be16(p[b + 6], p[b + 7]), p[b + 8], Be16(p[b + 10], p[b + 11]),
             IpAt(p, b + 12), IpAt(p, b + 16), p[b + 20..b + hl], SegmentAt(p[b + hl..b + len], p[b + 9]))
  }

  /** What the lengths and the protocol have to be. */
  ghost predicate Spans(p: seq<byte>, b: nat, hl: nat, len: nat)
  {
    && 20 <= hl <= len <= 1280 && b + len <= |p| && p[b + 9] in {1, 6, 17} && FullHeader(p[b + 9], len - hl)
    && hl % 4 == 0 && hl <= 60 && p[b] == 0x40 + hl / 4 && len == Be16(p[b + 2], p[b + 3])
  }

  lemma DatagramFits(p: seq<byte>, b: nat, hl: nat, len: nat)
    requires Spans(p, b, hl, len)
    ensures var x := DatagramAt(p, b, hl, len);
            WellFormed(x) && HeaderSize(x) == hl && Size(x) == len && Protocol(x.seg) == p[b + 9]
  {
    SegmentFits(p[b + hl..b + len], p[b + 9]);
  }

  lemma HeaderIsRead(p: seq<byte>, b: nat, x: Datagram, k: nat)
    requires WellFormed(x) && b + HeaderSize(x) <= |p| && k < HeaderSize(x)
    requires Size(x) == Be16(p[b + 2], p[b + 3]) && Protocol(x.seg) == p[b + 9]
    requires p[b] as int == 0x45 + |x.options| / 4 && x.tos == p[b + 1] && x.ttl == p[b + 8]
    requires x.id == Be16(p[b + 4], p[b + 5]) && x.fragment == Be16(p[b + 6], p[b + 7])
    requires x.sum == Be16(p[b + 10], p[b + 11]) && x.src == IpAt(p, b + 12) && x.dst == IpAt(p, b + 16)
    requires x.options == p[b + 20..b + HeaderSize(x)]
    ensures HeaderByte(x, k) == p[b + k]
  {
    Halves(p[b + 2], p[b + 3]);
    Halves(p[b + 4], p[b + 5]);
    Halves(p[b + 6], p[b + 7]);
    Halves(p[b + 10], p[b + 11]);
  }

  lemma HeaderOfRead(p: seq<byte>, b: nat, hl: nat, len: nat, k: nat)
    requires Spans(p, b, hl, len) && k < hl
    ensures var x := DatagramAt(p, b, hl, len); WellFormed(x) && k < HeaderSize(x) && HeaderByte(x, k) == p[b + k]
  {
    DatagramFits(p, b, hl, len);
    HeaderIsRead(p, b, DatagramAt(p, b, hl, len), k);
  }

  lemma DatagramIsRead(p: seq<byte>, b: nat, hl: nat, len: nat)
    requires Spans(p, b, hl, len)
    ensures var x := DatagramAt(p, b, hl, len); WellFormed(x) && Size(x) == len && Holds(p, b, x)
  {
    var x, s := DatagramAt(p, b, hl, len), p[b + hl..b + len];
    DatagramFits(p, b, hl, len);
    forall k | 0 <= k < len ensures p[b + k] == PacketByte(x, k) {
      if k < hl {
        HeaderOfRead(p, b, hl, len, k);
      } else {
        SegmentIsRead(s, p[b + 9], k - hl);
      }
    }
  }

  // ---------------------------------------------------------------- what is accepted

  lemma LayoutSpans(p: seq<byte>, b: nat, y: Layout)
    requires b + 20 <= |p| && y == LayoutOf(p, b, b) && p[b] / 16 == 4 && 20 <= y.hl < y.len <= 1280 && b + y.len <= |p|
    requires y.proto in {1, 6, 17} && FullHeader(y.proto, y.len - y.hl)
    ensures Spans(p, b, y.hl, y.len)
  {
  }

  /** A packet accepted from the LTE side, with its whole transport header: it is the packet its own fields
      describe, and these pass. */
  lemma AcceptedInIsRead(raw: seq<byte>, rawLen: int, myIp: Ipv4) returns (z: Datagram)
    requires |raw| == 1280 && AcceptedIn(raw, rawLen, myIp) && SoundIn(raw, rawLen, myIp)
    requires var y := LayoutOf(raw, 0, 0); FullHeader(raw[9], y.len - y.hl)
    ensures WellFormed(z) && Holds(raw, 0, z) && PassesIn(z, rawLen, myIp)
  {
    var y := LayoutOf(raw, 0, 0);
    LayoutSpans(raw, 0, y);
    DatagramIsRead(raw, 0, y.hl, y.len);
    z := DatagramAt(raw, 0, y.hl, y.len);
    AcceptedInIff(raw, rawLen, z, myIp);
  }

  lemma StartAgrees(d: seq<byte>, g: seq<byte>)
    requires 34 <= |d| <= |g| && d == g[..|d|]
    ensures g[..6] == d[..6] && g[6..12] == d[6..12] && g[12] == d[12] && g[13] == d[13] && g[14] == d[14]
    ensures g[23] == d[23] && LayoutOf(g, 14, 0) == LayoutOf(d, 14, 0)
  {
  }

  /** And so is one accepted from a client, which came in frame `g` with first fragment `d`. */
  lemma AcceptedOutIsRead(d: seq<byte>, g: seq<byte>, myMac: Mac) returns (x: Datagram)
    requires AcceptedOut(d, myMac) && SoundOut(d, myMac) && |d| <= |g| && d == g[..|d|]
    requires var y := LayoutOf(d, 14, 0); FullHeader(d[23], y.len - y.hl) && 14 + y.len <= |g|
    ensures WellFormed(x) && IsIp(g, myMac, d[6..12], x) && PassesOut(x, myMac, myMac)
  {
    var y := LayoutOf(g, 14, 14);
    StartAgrees(d, g);
    LayoutSpans(g, 14, y);
    DatagramIsRead(g, 14, y.hl, y.len);
    x := DatagramAt(g, 14, y.hl, y.len);
    AcceptedOutIff(d, g, x, myMac, d[6..12], myMac);
  }
}
