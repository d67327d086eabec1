/** The two handlers on packets given by their fields: what is sent on, what comes back, and which frame
    the client gets in answer to the one it sent. */
module WireTrips {
  import opened Wrappers
  import opened Bytes
  import opened NatMachine
  import opened NatTheorems
  import opened Mapper
  import opened Fragments
  import opened Packet
  import opened ArpCache
  import opened Gateway
  import opened RoundTrip
  import opened Wire
  import opened WireTheorems

  // ---------------------------------------------------------------- reading a packet

  lemma LengthRead(p: seq<byte>, b: nat, x: Datagram)
    requires WellFormed(x) && Holds(p, b, x)
    ensures TotalLen(p, b) == Size(x)
  {
    assert p[b + 2] == PacketByte(x, 2) && p[b + 3] == PacketByte(x, 3);
  }

  lemma HeaderLengthRead(p: seq<byte>, b: nat, x: Datagram)
    requires WellFormed(x) && Holds(p, b, x)
    ensures HeaderLen(p, b) == HeaderSize(x) && p[b] / 16 == 4
  {
    assert p[b] == p[b + 0] == PacketByte(x, 0);
  }

  lemma LayoutRead(p: seq<byte>, b: nat, x: Datagram, at: nat)
    requires WellFormed(x) && Holds(p, b, x)
    ensures LayoutOf(p, b, at) == LayoutFor(x, at)
  {
    LengthRead(p, b, x);
    HeaderLengthRead(p, b, x);
    assert p[b + 9] == PacketByte(x, 9);
  }

  lemma AddressesRead(p: seq<byte>, b: nat, x: Datagram)
    requires WellFormed(x) && Holds(p, b, x)
    ensures IpAt(p, b + 12) == x.src && IpAt(p, b + 16) == x.dst
  {
    assert p[b + 12] == PacketByte(x, 12) && p[b + 13] == PacketByte(x, 13);
    assert p[b + 14] == PacketByte(x, 14) && p[b + 15] == PacketByte(x, 15);
    assert p[b + 16] == PacketByte(x, 16) && p[b + 17] == PacketByte(x, 17);
    assert p[b + 18] == PacketByte(x, 18) && p[b + 19] == PacketByte(x, 19);
  }

  lemma SegmentRead(p: seq<byte>, b: nat, x: Datagram, k: nat)
    requires WellFormed(x) && Holds(p, b, x) && k < SegmentSize(x.seg)
    ensures p[b + HeaderSize(x) + k] == SegmentByte(x.seg, k)
  {
    assert p[b + (HeaderSize(x) + k)] == PacketByte(x, HeaderSize(x) + k);
  }

  /** What an outbound packet asks of the table. */
  function RequestBy(x: Datagram): (q: Request)
  {
    Request(Protocol(x.seg), x.src, Local(x.seg), x.dst)
  }

  lemma RequestRead(p: seq<byte>, b: nat, x: Datagram)
    requires WellFormed(x) && Holds(p, b, x) && LayoutFor(x, b).Complete(p)
    ensures RequestFrom(p, LayoutFor(x, b)) == RequestBy(x)
  {
    AddressesRead(p, b, x);
    FieldsOf(x.seg);
    SegmentRead(p, b, x, LocalAt(x.seg));
    SegmentRead(p, b, x, LocalAt(x.seg) + 1);
  }

  lemma TargetPortRead(p: seq<byte>, b: nat, x: Datagram)
    requires WellFormed(x) && Holds(p, b, x) && LayoutFor(x, b).Complete(p)
    ensures TargetPort(p, LayoutFor(x, b)) == Remote(x.seg)
  {
    FieldsOf(x.seg);
    SegmentRead(p, b, x, RemoteAt(x.seg));
    SegmentRead(p, b, x, RemoteAt(x.seg) + 1);
  }

  lemma HeldIsBytes(p: seq<byte>, b: nat, x: Datagram)
    requires WellFormed(x) && Holds(p, b, x)
    ensures p[b..b + Size(x)] == PacketBytes(x)
  {
    forall k | 0 <= k < Size(x) ensures p[b..b + Size(x)][k] == PacketBytes(x)[k] {
      assert p[b + k] == PacketByte(x, k);
    }
  }

  // ---------------------------------------------------------------- from frame to frame

  /** The call copied right a frame that carries `x` and came from MAC `from`. */
  ghost predicate SentBy(k: OutCall, frags: seq<seq<byte>>, before: seq<byte>, x: Datagram, to: Mac, from: Mac)
    requires WellFormed(x)
  {
    CopiedFrom(k, frags, before) && IsIp(Frame(frags, 0), to, from, x)
  }

  lemma FirstBytes(frags: seq<seq<byte>>, n: nat)
    requires |frags| > 0 && n <= |frags[0]|
    ensures |frags[0]| <= |Frame(frags, 0)|
    ensures forall k :: 0 <= k < n ==> frags[0][k] == Frame(frags, 0)[k]
  {
  }

  lemma LayoutAgrees(d: seq<byte>, e: seq<byte>)
    requires |d| >= 34 && |e| >= 34 && forall k :: 0 <= k < 34 ==> d[k] == e[k]
    ensures LayoutOf(d, 14, 0) == LayoutOf(e, 14, 0) && d[6..12] == e[6..12]
  {
  }

  lemma SentLayout(k: OutCall, frags: seq<seq<byte>>, before: seq<byte>, x: Datagram, to: Mac, from: Mac)
    requires WellFormed(x) && SentBy(k, frags, before, x, to, from)
    ensures k.y == LayoutFor(x, 0) && k.mac == from
  {
    FirstBytes(frags, 34);
    LayoutAgrees(frags[0], Frame(frags, 0));
    LayoutRead(Frame(frags, 0), 14, x, 0);
  }

  lemma SentHolds(k: OutCall, frags: seq<seq<byte>>, before: seq<byte>, x: Datagram, to: Mac, from: Mac)
    requires WellFormed(x) && SentBy(k, frags, before, x, to, from)
    ensures Holds(k.p, 0, x)
  {
    SentLayout(k, frags, before, x, to, from);
    LinearizedIsPacket(before, frags, k.y.len);
    SliceHolds(k.p, Frame(frags, 0), x);
  }

  lemma SliceHolds(p: seq<byte>, d: seq<byte>, x: Datagram)
    requires WellFormed(x) && Holds(d, 14, x) && Size(x) <= |p| && p[..Size(x)] == d[14..14 + Size(x)]
    ensures Holds(p, 0, x)
  {
    forall k | 0 <= k < Size(x) ensures p[0 + k] == PacketByte(x, k) {
      assert p[k] == p[..Size(x)][k] == d[14..14 + Size(x)][k] == d[14 + k];
    }
  }

  /** A mapping of the packet's own client; if it was made for this packet, of its server too. */
  ghost predicate MapsClient(f: Flow, x: Datagram, isNew: bool)
  {
    && f.proto == Protocol(x.seg) && f.clientIp == x.src && f.ethPort == Local(x.seg)
    && (isNew ==> f.serverIp == x.dst)
  }

  /** What a call that forwards does to the packet. */
  ghost predicate Sends(p: seq<byte>, q: seq<byte>, y: Layout, f: Flow, isNew: bool, myIp: Ipv4)
  {
    y.Complete(p) && |q| == |p| && SentFor(p, q, y, f, isNew, myIp)
  }

  lemma ForwardingSends(k: OutCall, myIp: Ipv4)
    requires Forwarding(k, myIp)
    ensures Sends(k.p, k.q, k.y, k.flow, k.step.act.Open?, myIp)
  {
  }

  lemma SentMaps(p: seq<byte>, q: seq<byte>, f: Flow, isNew: bool, x: Datagram, myIp: Ipv4)
    requires WellFormed(x) && Holds(p, 0, x) && Sends(p, q, LayoutFor(x, 0), f, isNew, myIp)
    ensures MapsClient(f, x, isNew)
  {
    RequestRead(p, 0, x);
  }

  lemma SentIs(p: seq<byte>, q: seq<byte>, f: Flow, isNew: bool, x: Datagram, myIp: Ipv4)
    requires WellFormed(x) && Holds(p, 0, x) && Sends(p, q, LayoutFor(x, 0), f, isNew, myIp)
    ensures q[..Size(x)] == PacketBytes(SentOut(x, myIp, f.ltePort))
  {
    TranslatedOutIs(p, q, 0, x, myIp, f.ltePort);
    HeldIsBytes(q, 0, SentOut(x, myIp, f.ltePort));
  }

  /** A forwarded packet, field by field: it comes from the gateway's address and the mapping's external
      port, its checksums are computed anew, and it is otherwise as the client sent it. */
  lemma ForwardedIs(k: OutCall, frags: seq<seq<byte>>, before: seq<byte>, x: Datagram, to: Mac, from: Mac, myIp: Ipv4)
    requires WellFormed(x) && SentBy(k, frags, before, x, to, from) && Forwarding(k, myIp)
    ensures MapsClient(k.flow, x, k.step.act.Open?)
    ensures k.q[..k.y.len] == PacketBytes(SentOut(x, myIp, k.flow.ltePort))
  {
    SentLayout(k, frags, before, x, to, from);
    SentHolds(k, frags, before, x, to, from);
    ForwardingSends(k, myIp);
    SentMaps(k.p, k.q, k.flow, k.step.act.Open?, x, myIp);
    SentIs(k.p, k.q, k.flow, k.step.act.Open?, x, myIp);
  }

  /** The packet `z` that an inbound call looked up stands behind an Ethernet header. */
  ghost predicate GotBy(j: InCall, z: Datagram)
    requires WellFormed(z)
  {
    j.y == LayoutFor(z, 14) && Holds(j.p, 14, z)
  }

  /** It answers what `x` was sent out as: it comes from the server `x` went to, by the same protocol, and
      goes to the external port or identifier. */
  predicate IsAnswer(z: Datagram, x: Datagram, port: u16)
  {
    Protocol(z.seg) == Protocol(x.seg) && z.src == x.dst && Remote(z.seg) == port
  }

  lemma SentFields(p: seq<byte>, q: seq<byte>, y: Layout, port: u16, myIp: Ipv4)
    requires y.Complete(p) && SameBut(p, q, Written(y, SourceField(y.proto), 12))
    requires FieldsRead(q, y, SourceField(y.proto), port, 12, myIp)
    ensures var src := y.Seg() + SourceField(y.proto); Be16(q[src], q[src + 1]) == port
    ensures IpAt(q, y.b + 16) == IpAt(p, y.b + 16)
  {
    AddressKept(p, q, y, SourceField(y.proto), 12, 16);
  }

  lemma NamesAnswer(p: seq<byte>, q: seq<byte>, y: Layout, f: Flow, isNew: bool, myIp: Ipv4, m: seq<byte>, w: Layout)
    requires Sends(p, q, y, f, isNew, myIp) && w.Complete(m) && w.proto == y.proto
    requires IpAt(m, w.b + 12) == IpAt(p, y.b + 16) && TargetPort(m, w) == f.ltePort
    ensures Answers(p, q, y, f, isNew, myIp, m, w)
  {
    SentFields(p, q, y, f.ltePort, myIp);
  }

  lemma AnswerRead(p: seq<byte>, y: Layout, x: Datagram, m: seq<byte>, w: Layout, z: Datagram, port: u16)
    requires WellFormed(x) && Holds(p, 0, x) && y == LayoutFor(x, 0)
    requires WellFormed(z) && Holds(m, 14, z) && w == LayoutFor(z, 14) && w.Complete(m) && IsAnswer(z, x, port)
    ensures w.proto == y.proto && w.b + 16 <= |m| && y.b + 20 <= |p|
    ensures IpAt(m, w.b + 12) == IpAt(p, y.b + 16) == x.dst && TargetPort(m, w) == port
  {
    AddressesRead(p, 0, x);
    AddressesRead(m, 14, z);
    TargetPortRead(m, 14, z);
  }

  lemma AnswerIs(p: seq<byte>, q: seq<byte>, y: Layout, f: Flow, isNew: bool, x: Datagram, m: seq<byte>, w: Layout,
                 z: Datagram, myIp: Ipv4)
    requires WellFormed(x) && Holds(p, 0, x) && y == LayoutFor(x, 0) && Sends(p, q, y, f, isNew, myIp)
    requires WellFormed(z) && Holds(m, 14, z) && w == LayoutFor(z, 14) && w.Complete(m) && IsAnswer(z, x, f.ltePort)
    ensures Answers(p, q, y, f, isNew, myIp, m, w) && IpAt(p, y.b + 16) == x.dst
  {
    AnswerRead(p, y, x, m, w, z, f.ltePort);
    NamesAnswer(p, q, y, f, isNew, myIp, m, w);
  }

  lemma ReturnedIs(p: seq<byte>, r: seq<byte>, y: Layout, z: Datagram, f: Flow)
    requires WellFormed(z) && Holds(p, 14, z) && y == LayoutFor(z, 14) && y.Complete(p)
    requires TranslatedIn(p, r, y, Some(f))
    ensures Holds(r, 14, SentIn(z, f.clientIp, f.ethPort))
  {
    TranslatedInIs(p, r, 14, z, f.clientIp, f.ethPort);
  }

  /** The answer comes while row `i`, which the packet went out by, is alive, and from the row's server. */
  ghost predicate InTimeFor(k: OutCall, x: Datagram, i: nat, acts: seq<Action>, j: InCall)
  {
    UsedRow(k.step, k.s', k.flow, i) && InTime(k.s', i, acts, j.s, j.act) && k.flow.serverIp == x.dst
  }

  lemma TripAnswered(k: OutCall, x: Datagram, i: nat, acts: seq<Action>, j: InCall, z: Datagram, myIp: Ipv4)
    requires WellFormed(x) && Holds(k.p, 0, x) && k.y == LayoutFor(x, 0)
    requires Sends(k.p, k.q, k.y, k.flow, k.step.act.Open?, myIp)
    requires WellFormed(z) && GotBy(j, z) && j.y.Complete(j.p) && IsAnswer(z, x, k.flow.ltePort)
    requires InTimeFor(k, x, i, acts, j)
    ensures Answered(k, i, acts, j, myIp)
  {
    AnswerIs(k.p, k.q, k.y, k.flow, k.step.act.Open?, x, j.p, j.y, z, myIp);
  }

  lemma TripReturns(j: InCall, z: Datagram, f: Flow, myMac: Mac)
    requires WellFormed(z) && GotBy(j, z) && Returning(j, myMac) && Mapping(j.s, j.act) == Some(f)
    ensures Holds(j.r, 14, SentIn(z, f.clientIp, f.ethPort)) && j.y.len == Size(z)
  {
    ReturnedIs(j.p, j.r, j.y, z, f);
  }

  /** The two calls of a round trip, in terms of the frame `x` came in and the answer `z`. */
  ghost predicate FieldTrip(k: OutCall, x: Datagram, i: nat, acts: seq<Action>, cacts: seq<ArpAction>, j: InCall,
                            z: Datagram, myIp: Ipv4, myMac: Mac)
    requires WellFormed(x) && WellFormed(z)
  {
    && Forwarding(k, myIp) && Returning(j, myMac) && GotBy(j, z) && IsAnswer(z, x, k.flow.ltePort)
    && InTimeFor(k, x, i, acts, j) && MacKept(k, cacts, j) && x.src != ZERO_IP && HasRoom(k.c, k.use, x.src)
  }

  lemma TripMakesRound(k: OutCall, x: Datagram, i: nat, acts: seq<Action>, cacts: seq<ArpAction>, j: InCall,
                       z: Datagram, myIp: Ipv4, myMac: Mac)
    requires WellFormed(x) && Holds(k.p, 0, x) && k.y == LayoutFor(x, 0)
    requires WellFormed(z) && FieldTrip(k, x, i, acts, cacts, j, z, myIp, myMac)
    ensures MapsClient(k.flow, x, k.step.act.Open?)
    ensures RoundTrips(k, i, acts, cacts, j, myIp, myMac)
  {
    ForwardingSends(k, myIp);
    SentMaps(k.p, k.q, k.flow, k.step.act.Open?, x, myIp);
    TripAnswered(k, x, i, acts, j, z, myIp);
  }

  /** The round trip, field by field. A client sends `x` from MAC `from`; it leaves from the gateway's
      address and an external port. The answer `z` from the server to that port reaches the client in a
      frame to `from`, as a packet to the address and port `x` came from, otherwise as the server sent it. */
  lemma FieldsReturn(k: OutCall, frags: seq<seq<byte>>, before: seq<byte>, x: Datagram, to: Mac, from: Mac,
                     i: nat, acts: seq<Action>, cacts: seq<ArpAction>, j: InCall, z: Datagram, myIp: Ipv4, myMac: Mac)
    requires WellFormed(x) && SentBy(k, frags, before, x, to, from)
    requires WellFormed(z) && FieldTrip(k, x, i, acts, cacts, j, z, myIp, myMac)
    ensures k.q[..k.y.len] == PacketBytes(SentOut(x, myIp, k.flow.ltePort))
    ensures j.out == Framed(IpFrame(from, myMac, PacketBytes(SentIn(z, x.src, Local(x.seg)))))
  {
    ForwardedIs(k, frags, before, x, to, from, myIp);
    SentLayout(k, frags, before, x, to, from);
    SentHolds(k, frags, before, x, to, from);
    TripFramed(k, x, i, acts, cacts, j, z, myIp, myMac);
  }

  lemma TripFramed(k: OutCall, x: Datagram, i: nat, acts: seq<Action>, cacts: seq<ArpAction>, j: InCall, z: Datagram,
                   myIp: Ipv4, myMac: Mac)
    requires WellFormed(x) && Holds(k.p, 0, x) && k.y == LayoutFor(x, 0)
    requires WellFormed(z) && FieldTrip(k, x, i, acts, cacts, j, z, myIp, myMac)
    ensures j.out == Framed(IpFrame(k.mac, myMac, PacketBytes(SentIn(z, x.src, Local(x.seg)))))
  {
    TripMakesRound(k, x, i, acts, cacts, j, z, myIp, myMac);
    AnswerIsFramed(k, i, acts, cacts, j, myIp, myMac);
    TripBack(k, x, i, acts, j, z, myIp, myMac);
    DeliveredIs(k, j, SentIn(z, x.src, Local(x.seg)), myMac);
  }

  lemma TripBack(k: OutCall, x: Datagram, i: nat, acts: seq<Action>, j: InCall, z: Datagram, myIp: Ipv4, myMac: Mac)
    requires WellFormed(z) && GotBy(j, z) && MapsClient(k.flow, x, k.step.act.Open?)
    requires Forwarding(k, myIp) && Returning(j, myMac) && Answered(k, i, acts, j, myIp)
    ensures Holds(j.r, 14, SentIn(z, x.src, Local(x.seg))) && j.y.len == Size(z)
  {
    HandlersRoundTrip(k, i, acts, j, myIp, myMac);
    TripReturns(j, z, k.flow, myMac);
  }

  lemma DeliveredIs(k: OutCall, j: InCall, t: Datagram, myMac: Mac)
    requires WellFormed(t) && Delivered(k, j, myMac) && Holds(j.r, 14, t) && j.y.len == Size(t)
    ensures j.out == Framed(IpFrame(k.mac, myMac, PacketBytes(t)))
  {
    HeldIsBytes(j.r, 14, t);
  }
}
