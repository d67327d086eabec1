/** What the gateway does to whole packets, in the fields of `Wire`. */
module WireTheorems {
  import opened Bytes
  import opened Checksum
  import opened Packet
  import opened Translate
  import opened Wire

  // ---------------------------------------------------------------- packets in a buffer

  function LayoutFor(x: Datagram, b: nat): (y: Layout)
    requires WellFormed(x)
  {
    Layout(b, HeaderSize(x), Size(x), Protocol(x.seg))
  }

  /** Where the checksum stands in a segment. */
  function SumAt(g: Segment): (n: nat)
    ensures n + 2 <= SegmentSize(g)
  {
    match g
    case Udp(_, _, _, _, _) => 6
    case Tcp(_, _, _, _, _, _, _, _, _, _, _) => 16
    case Echo(_, _, _, _, _, _) => 2
  }

  /** `x` stands there, its two checksums aside. */
  ghost predicate HoldsButSums(p: seq<byte>, b: nat, x: Datagram)
    requires WellFormed(x)
  {
    && b + Size(x) <= |p|
    && var f := HeaderSize(x) + SumAt(x.seg);
       forall k :: 0 <= k < Size(x) && k != 10 && k != 11 && k != f && k != f + 1 ==> p[b + k] == PacketByte(x, k)
  }

  // ---------------------------------------------------------------- both checksums

  lemma HeaderWithoutSum(r: seq<byte>, b: nat, x: Datagram)
    requires WellFormed(x) && HoldsButSums(r, b, x)
    ensures Zeroed(r[b..b + HeaderSize(x)], 10) == HeaderBytes(x.(sum := 0))
  {
    var h, z := HeaderBytes(x.(sum := 0)), Zeroed(r[b..b + HeaderSize(x)], 10);
    forall k | 0 <= k < HeaderSize(x) ensures z[k] == h[k] {
      assert k != 10 && k != 11 ==> r[b + k] == PacketByte(x, k);
    }
  }

  lemma HeaderSumFits(r: seq<byte>, b: nat, x: Datagram)
    requires WellFormed(x) && HoldsButSums(r, b, x) && LayoutFor(x, b).Complete(r)
    requires HeaderCarries(r, LayoutFor(x, b))
    ensures r[b + 10] == Hi(HeaderSum(x)) && r[b + 11] == Lo(HeaderSum(x))
  {
    HeaderWithoutSum(r, b, x);
  }

  lemma SegmentWithoutSum(r: seq<byte>, b: nat, x: Datagram)
    requires WellFormed(x) && HoldsButSums(r, b, x)
    ensures Zeroed(r[b + HeaderSize(x)..b + Size(x)], SumAt(x.seg)) == SegmentBytes(WithSum(x.seg, 0))
  {
    var h := HeaderSize(x);
    var g, z := SegmentBytes(WithSum(x.seg, 0)), Zeroed(r[b + h..b + Size(x)], SumAt(x.seg));
    forall k | 0 <= k < SegmentSize(x.seg) ensures z[k] == g[k] {
      assert k != SumAt(x.seg) && k != SumAt(x.seg) + 1 ==> r[b + (h + k)] == PacketByte(x, h + k);
    }
  }

  lemma PseudoRead(r: seq<byte>, b: nat, x: Datagram)
    requires WellFormed(x) && HoldsButSums(r, b, x)
    ensures Pseudo(r, b, Protocol(x.seg), SegmentSize(x.seg)) == PseudoBytes(x)
  {
    var h, p := Pseudo(r, b, Protocol(x.seg), SegmentSize(x.seg)), PseudoBytes(x);
    forall k | 0 <= k < 8 ensures h[k] == p[k] {
      assert r[b + (12 + k)] == PacketByte(x, 12 + k);
    }
    forall k | 8 <= k < 12 ensures h[k] == p[k] {
    }
  }

  /** What the transport checksum covers, its field cleared. */
  ghost predicate SummedIs(r: seq<byte>, y: Layout, s: seq<byte>)
    requires y.Complete(r)
  {
    SummedField(y.proto) + 2 <= |Summed(r, y)| && Zeroed(Summed(r, y), SummedField(y.proto)) == s
  }

  lemma SummedIsMessage(r: seq<byte>, y: Layout)
    requires y.Complete(r) && y.proto == 1
    ensures Summed(r, y) == r[y.Seg()..y.b + y.len] && SummedField(y.proto) == 2
  {
  }

  lemma SummedIsTransport(r: seq<byte>, y: Layout)
    requires y.Complete(r) && y.proto != 1
    ensures Summed(r, y) == Pseudo(r, y.b, y.proto, y.len - y.hl) + r[y.Seg()..y.b + y.len]
    ensures SummedField(y.proto) == 12 + ChecksumField(y.proto)
  {
  }

  lemma CoveredIsMessage(x: Datagram)
    requires WellFormed(x) && x.seg.Echo?
    ensures Covered(x.(seg := WithSum(x.seg, 0))) == SegmentBytes(WithSum(x.seg, 0))
  {
  }

  lemma MessageWithoutSum(r: seq<byte>, b: nat, x: Datagram)
    requires WellFormed(x) && HoldsButSums(r, b, x) && LayoutFor(x, b).Complete(r) && x.seg.Echo?
    ensures SummedIs(r, LayoutFor(x, b), Covered(x.(seg := WithSum(x.seg, 0))))
  {
    SummedIsMessage(r, LayoutFor(x, b));
    CoveredIsMessage(x);
    SegmentWithoutSum(r, b, x);
  }

  lemma TransportWithoutSum(r: seq<byte>, b: nat, x: Datagram)
    requires WellFormed(x) && HoldsButSums(r, b, x) && LayoutFor(x, b).Complete(r) && !x.seg.Echo?
    ensures SummedIs(r, LayoutFor(x, b), Covered(x.(seg := WithSum(x.seg, 0))))
  {
    SummedIsBoth(r, b, x);
    SegmentWithoutSum(r, b, x);
    PseudoIgnoresSum(x);
    ZeroedBehind(PseudoBytes(x), r[b + HeaderSize(x)..b + Size(x)], SumAt(x.seg));
  }

  lemma SummedIsBoth(r: seq<byte>, b: nat, x: Datagram)
    requires WellFormed(x) && HoldsButSums(r, b, x) && LayoutFor(x, b).Complete(r) && !x.seg.Echo?
    ensures Summed(r, LayoutFor(x, b)) == PseudoBytes(x) + r[b + HeaderSize(x)..b + Size(x)]
    ensures SummedField(Protocol(x.seg)) == 12 + SumAt(x.seg)
  {
    SummedIsTransport(r, LayoutFor(x, b));
    PseudoRead(r, b, x);
    FieldOf(x.seg);
  }

  lemma PseudoIgnoresSum(x: Datagram)
    requires WellFormed(x)
    ensures PseudoBytes(x.(seg := WithSum(x.seg, 0))) == PseudoBytes(x)
  {
  }

  lemma SegmentCleared(r: seq<byte>, b: nat, x: Datagram)
    requires WellFormed(x) && HoldsButSums(r, b, x) && LayoutFor(x, b).Complete(r)
    ensures SummedIs(r, LayoutFor(x, b), Covered(x.(seg := WithSum(x.seg, 0))))
  {
    if x.seg.Echo? {
      MessageWithoutSum(r, b, x);
    } else {
      TransportWithoutSum(r, b, x);
    }
  }

  lemma FieldOf(g: Segment)
    ensures ChecksumField(Protocol(g)) == SumAt(g)
  {
  }

  lemma SegmentSumFits(r: seq<byte>, b: nat, x: Datagram)
    requires WellFormed(x) && HoldsButSums(r, b, x) && LayoutFor(x, b).Complete(r)
    requires SegmentCarries(r, LayoutFor(x, b))
    ensures var f := b + HeaderSize(x) + SumAt(x.seg); r[f] == Hi(SegmentSum(x)) && r[f + 1] == Lo(SegmentSum(x))
  {
    SegmentCleared(r, b, x);
    FieldOf(x.seg);
    CarriedIs(r, LayoutFor(x, b), Covered(x.(seg := WithSum(x.seg, 0))));
  }

  lemma CarriedIs(r: seq<byte>, y: Layout, s: seq<byte>)
    requires y.Complete(r) && SegmentCarries(r, y) && SummedIs(r, y, s)
    ensures var f := y.Seg() + ChecksumField(y.proto); r[f] == Hi(RfcChecksum(s)) && r[f + 1] == Lo(RfcChecksum(s))
  {
  }

  lemma SumsPut(x: Datagram, hs: u16, gs: u16, k: nat)
    requires WellFormed(x) && k < Size(x)
    ensures var f := HeaderSize(x) + SumAt(x.seg);
            PacketByte(WithSums(x, hs, gs), k) ==
            if k == 10 then Hi(hs) else if k == 11 then Lo(hs)
            else if k == f then Hi(gs) else if k == f + 1 then Lo(gs)
            else PacketByte(x, k)
  {
  }

  lemma SumsHeld(r: seq<byte>, b: nat, x: Datagram, hs: u16, gs: u16)
    requires WellFormed(x) && HoldsButSums(r, b, x) && r[b + 10] == Hi(hs) && r[b + 11] == Lo(hs)
    requires var f := b + HeaderSize(x) + SumAt(x.seg); r[f] == Hi(gs) && r[f + 1] == Lo(gs)
    ensures Holds(r, b, WithSums(x, hs, gs))
  {
    forall k | 0 <= k < Size(x) ensures r[b + k] == PacketByte(WithSums(x, hs, gs), k) {
      SumsPut(x, hs, gs, k);
    }
  }

  /** Whoever stores both checksums where they belong gets the packet with both computed. */
  lemma CarriedIsResummed(r: seq<byte>, b: nat, x: Datagram)
    requires WellFormed(x) && HoldsButSums(r, b, x) && LayoutFor(x, b).Complete(r)
    requires HeaderCarries(r, LayoutFor(x, b)) && SegmentCarries(r, LayoutFor(x, b))
    ensures Holds(r, b, Resummed(x))
  {
    HeaderSumFits(r, b, x);
    SegmentSumFits(r, b, x);
    SumsHeld(r, b, x, HeaderSum(x), SegmentSum(x));
  }

  // ---------------------------------------------------------------- address and port

  /** Where the port or identifier stands in a segment from the client, and in one to it. */
  function LocalAt(g: Segment): (n: nat)
  {
    if g.Echo? then 4 else 0
  }

  function RemoteAt(g: Segment): (n: nat)
  {
    if g.Echo? then 4 else 2
  }

  lemma FieldsOf(g: Segment)
    ensures SourceField(Protocol(g)) == LocalAt(g) && TargetField(Protocol(g)) == RemoteAt(g)
  {
  }

  lemma LocalPut(g: Segment, port: u16, k: nat)
    requires k < SegmentSize(g)
    ensures SegmentByte(WithLocal(g, port), k) ==
            if k == LocalAt(g) then Hi(port) else if k == LocalAt(g) + 1 then Lo(port) else SegmentByte(g, k)
  {
  }

  lemma RemotePut(g: Segment, port: u16, k: nat)
    requires k < SegmentSize(g)
    ensures SegmentByte(WithRemote(g, port), k) ==
            if k == RemoteAt(g) then Hi(port) else if k == RemoteAt(g) + 1 then Lo(port) else SegmentByte(g, k)
  {
  }

  /** Byte `k` of the packet belongs to the port, the address or a checksum. */
  predicate Rewritten(x: Datagram, portAt: nat, addrAt: nat, k: nat)
  {
    var n := k - HeaderSize(x);
    addrAt <= k < addrAt + 4 || 10 <= k < 12 || portAt <= n < portAt + 2 || SumAt(x.seg) <= n < SumAt(x.seg) + 2
  }

  ghost predicate Kept(p: seq<byte>, r: seq<byte>, b: nat, x: Datagram, portAt: nat, addrAt: nat)
    requires WellFormed(x)
  {
    && |r| == |p| && b + Size(x) <= |p|
    && forall k :: 0 <= k < Size(x) && !Rewritten(x, portAt, addrAt, k) ==> r[b + k] == p[b + k]
  }

  lemma TranslationKeeps(p: seq<byte>, r: seq<byte>, b: nat, x: Datagram, portAt: nat, addrAt: nat)
    requires WellFormed(x) && b + Size(x) <= |p|
    requires SameBut(p, r, Written(LayoutFor(x, b), portAt, addrAt))
    ensures Kept(p, r, b, x, portAt, addrAt)
  {
    FieldOf(x.seg);
  }

  lemma SourcePut(x: Datagram, addr: Ipv4, g: Segment, k: nat)
    requires WellFormed(x) && SegmentSize(g) == SegmentSize(x.seg) && Protocol(g) == Protocol(x.seg)
    requires k < HeaderSize(x)
    ensures HeaderByte(x.(src := addr, seg := g), k) ==
            if k == 12 then addr.a else if k == 13 then addr.b else if k == 14 then addr.c else if k == 15 then addr.d
            else HeaderByte(x, k)
  {
  }

  lemma TargetPut(x: Datagram, addr: Ipv4, g: Segment, k: nat)
    requires WellFormed(x) && SegmentSize(g) == SegmentSize(x.seg) && Protocol(g) == Protocol(x.seg)
    requires k < HeaderSize(x)
    ensures HeaderByte(x.(dst := addr, seg := g), k) ==
            if k == 16 then addr.a else if k == 17 then addr.b else if k == 18 then addr.c else if k == 19 then addr.d
            else HeaderByte(x, k)
  {
  }

  /** The source reads as given, and nothing but it and the checksums has changed. */
  ghost predicate SourceChanged(p: seq<byte>, r: seq<byte>, b: nat, x: Datagram, addr: Ipv4, port: u16)
    requires WellFormed(x)
  {
    && Kept(p, r, b, x, LocalAt(x.seg), 12) && IpAt(r, b + 12) == addr
    && var q := b + HeaderSize(x) + LocalAt(x.seg);
       r[q] == Hi(port) && r[q + 1] == Lo(port)
  }

  lemma SourceRewritten(p: seq<byte>, r: seq<byte>, b: nat, x: Datagram, addr: Ipv4, port: u16)
    requires WellFormed(x) && Holds(p, b, x) && SourceChanged(p, r, b, x, addr, port)
    ensures HoldsButSums(r, b, FromHere(x, addr, port))
  {
    var z, f := FromHere(x, addr, port), HeaderSize(x) + SumAt(x.seg);
    forall k | 0 <= k < Size(x) && k != 10 && k != 11 && k != f && k != f + 1 ensures r[b + k] == PacketByte(z, k) {
      assert p[b + k] == PacketByte(x, k);
      assert !Rewritten(x, LocalAt(x.seg), 12, k) ==> r[b + k] == p[b + k];
      if k < HeaderSize(x) {
        SourcePut(x, addr, WithLocal(x.seg, port), k);
      } else {
        LocalPut(x.seg, port, k - HeaderSize(x));
      }
    }
  }

  /** The target reads as given, and nothing but it and the checksums has changed. */
  ghost predicate TargetChanged(p: seq<byte>, r: seq<byte>, b: nat, x: Datagram, addr: Ipv4, port: u16)
    requires WellFormed(x)
  {
    && Kept(p, r, b, x, RemoteAt(x.seg), 16) && IpAt(r, b + 16) == addr
    && var q := b + HeaderSize(x) + RemoteAt(x.seg);
       r[q] == Hi(port) && r[q + 1] == Lo(port)
  }

  lemma TargetRewritten(p: seq<byte>, r: seq<byte>, b: nat, x: Datagram, addr: Ipv4, port: u16)
    requires WellFormed(x) && Holds(p, b, x) && TargetChanged(p, r, b, x, addr, port)
    ensures HoldsButSums(r, b, ToThere(x, addr, port))
  {
    var z, f := ToThere(x, addr, port), HeaderSize(x) + SumAt(x.seg);
    forall k | 0 <= k < Size(x) && k != 10 && k != 11 && k != f && k != f + 1 ensures r[b + k] == PacketByte(z, k) {
      assert p[b + k] == PacketByte(x, k);
      assert !Rewritten(x, RemoteAt(x.seg), 16, k) ==> r[b + k] == p[b + k];
      if k < HeaderSize(x) {
        TargetPut(x, addr, WithRemote(x.seg, port), k);
      } else {
        RemotePut(x.seg, port, k - HeaderSize(x));
      }
    }
  }

  lemma PortStored(r: seq<byte>, q: nat, port: u16)
    requires q + 2 <= |r| && Be16(r[q], r[q + 1]) == port
    ensures r[q] == Hi(port) && r[q + 1] == Lo(port)
  {
  }

  lemma FieldsStored(r: seq<byte>, b: nat, x: Datagram, portAt: nat, port: u16, addrAt: nat, addr: Ipv4)
    requires WellFormed(x) && LayoutFor(x, b).Complete(r) && Fields(LayoutFor(x, b), portAt, addrAt)
    requires FieldsRead(r, LayoutFor(x, b), portAt, port, addrAt, addr)
    ensures IpAt(r, b + addrAt) == addr
    ensures var q := b + HeaderSize(x) + portAt; r[q] == Hi(port) && r[q + 1] == Lo(port)
  {
    PortStored(r, b + HeaderSize(x) + portAt, port);
  }

  lemma SourceIsChanged(p: seq<byte>, r: seq<byte>, b: nat, x: Datagram, addr: Ipv4, port: u16)
    requires WellFormed(x) && LayoutFor(x, b).Complete(p) && LayoutFor(x, b).Complete(r)
    requires SameBut(p, r, Written(LayoutFor(x, b), SourceField(Protocol(x.seg)), 12))
    requires FieldsRead(r, LayoutFor(x, b), SourceField(Protocol(x.seg)), port, 12, addr)
    ensures SourceChanged(p, r, b, x, addr, port)
  {
    TranslationKeeps(p, r, b, x, SourceField(Protocol(x.seg)), 12);
    FieldsStored(r, b, x, SourceField(Protocol(x.seg)), port, 12, addr);
    FieldsOf(x.seg);
  }

  lemma TargetIsChanged(p: seq<byte>, r: seq<byte>, b: nat, x: Datagram, addr: Ipv4, port: u16)
    requires WellFormed(x) && LayoutFor(x, b).Complete(p) && LayoutFor(x, b).Complete(r)
    requires SameBut(p, r, Written(LayoutFor(x, b), TargetField(Protocol(x.seg)), 16))
    requires FieldsRead(r, LayoutFor(x, b), TargetField(Protocol(x.seg)), port, 16, addr)
    ensures TargetChanged(p, r, b, x, addr, port)
  {
    TranslationKeeps(p, r, b, x, TargetField(Protocol(x.seg)), 16);
    FieldsStored(r, b, x, TargetField(Protocol(x.seg)), port, 16, addr);
    FieldsOf(x.seg);
  }

  lemma SameLayout(x: Datagram, addr: Ipv4, port: u16, b: nat)
    requires WellFormed(x)
    ensures LayoutFor(FromHere(x, addr, port), b) == LayoutFor(x, b) == LayoutFor(ToThere(x, addr, port), b)
  {
  }

  /** A packet translated on its way out comes from the gateway's address and the external port; both
      checksums are computed anew, and every other field is as it was. */
  lemma TranslatedOutIs(p: seq<byte>, r: seq<byte>, b: nat, x: Datagram, addr: Ipv4, port: u16)
    requires WellFormed(x) && Holds(p, b, x) && LayoutFor(x, b).Complete(p)
    requires IsTranslation(p, r, LayoutFor(x, b), SourceField(Protocol(x.seg)), port, 12, addr)
    ensures Holds(r, b, SentOut(x, addr, port))
  {
    SourceIsChanged(p, r, b, x, addr, port);
    SourceRewritten(p, r, b, x, addr, port);
    SameLayout(x, addr, port, b);
    CarriedIsResummed(r, b, FromHere(x, addr, port));
  }

  /** And one translated on its way in goes to the client's address and port. */
  lemma TranslatedInIs(p: seq<byte>, r: seq<byte>, b: nat, x: Datagram, addr: Ipv4, port: u16)
    requires WellFormed(x) && Holds(p, b, x) && LayoutFor(x, b).Complete(p)
    requires IsTranslation(p, r, LayoutFor(x, b), TargetField(Protocol(x.seg)), port, 16, addr)
    ensures Holds(r, b, SentIn(x, addr, port))
  {
    TargetIsChanged(p, r, b, x, addr, port);
    TargetRewritten(p, r, b, x, addr, port);
    SameLayout(x, addr, port, b);
    CarriedIsResummed(r, b, ToThere(x, addr, port));
  }
}
