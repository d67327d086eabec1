/** Calls of the two handlers on packets given by their fields. */
module WireHandlers {
  import opened Wrappers
  import opened Bytes
  import opened NatMachine
  import opened Mapper
  import opened Fragments
  import opened Packet
  import opened ArpCache
  import opened Gateway
  import opened RoundTrip
  import opened Wire
  import opened WireTheorems
  import opened WireTrips
  import opened WireChecks

  // ---------------------------------------------------------------- to the LTE side

  /** What leaves the gateway for an accepted packet. */
  function OutFor(x: Datagram, res: MapResult, myIp: Ipv4): (out: LteOut)
    requires WellFormed(x)
  {
    match res
    case Mapped(f) => Forwarded(PacketBytes(SentOut(x, myIp, f.ltePort)))
    case TableFull => Dropped
    case NeverEnds => Hung
  }

  /** The frame arrives in buffers the copy loop gets right, the header, and the kind of an echo, in the
      first. */
  ghost predicate Arrives(frags: seq<seq<byte>>, x: Datagram)
    requires WellFormed(x)
  {
    && |frags| > 0 && |frags[0]| >= 14 + HeaderSize(x) + (if x.seg.Echo? then 1 else 0)
    && (|frags[0]| <= 1280 || Size(x) <= 1266) && 14 + Size(x) <= |Reach(frags, 0)|
  }

  lemma ArrivesStarts(frags: seq<seq<byte>>, x: Datagram)
    requires WellFormed(x) && Arrives(frags, x)
    ensures Starts(frags[0], Frame(frags, 0), x)
  {
  }

  lemma ArrivesHeld(before: seq<byte>, frags: seq<seq<byte>>, x: Datagram)
    requires WellFormed(x) && Arrives(frags, x) && Holds(Frame(frags, 0), 14, x) && Size(x) <= |before|
    ensures Holds(Linearized(before, frags, Size(x)), 0, x)
  {
    LinearizedIsPacket(before, frags, Size(x));
    SliceHolds(Linearized(before, frags, Size(x)), Frame(frags, 0), x);
  }

  lemma EmittedIs(p: seq<byte>, q: seq<byte>, y: Layout, x: Datagram, res: MapResult, out: LteOut, myIp: Ipv4)
    requires WellFormed(x) && Holds(p, 0, x) && y == LayoutFor(x, 0) && y.Complete(p)
    requires Emitted(p, q, y, res, out, myIp)
    ensures out == OutFor(x, res, myIp)
  {
    if res.Mapped? {
      TranslatedOutIs(p, q, 0, x, myIp, res.flow.ltePort);
      HeldIsBytes(q, 0, SentOut(x, myIp, res.flow.ltePort));
    }
  }

  /** The outcome of an accepted packet, in its fields. */
  ghost predicate SentAs(s: State, x: Datagram, from: Mac, step: Step, res: MapResult, use: CacheUse, out: LteOut,
                         myIp: Ipv4)
    requires WellFormed(x)
  {
    && Shape(s) && step.look.Outbound? && Enabled(s, step.look) && Shape(step.pre) && Enabled(step.pre, step.act)
    && MapOutcome(s, Request(Protocol(x.seg), x.src, Local(x.seg), x.dst), step, res)
    && Teaches(use, if res.Mapped? then Some((x.src, from)) else None)
    && out == OutFor(x, res, myIp)
  }

  lemma OutcomeIs(s: State, p: seq<byte>, q: seq<byte>, y: Layout, x: Datagram, step: Step, res: MapResult,
                  use: CacheUse, out: LteOut, from: Mac, myIp: Ipv4)
    requires WellFormed(x) && Holds(p, 0, x) && y == LayoutFor(x, 0)
    requires Shape(s) && step.look.Outbound? && Enabled(s, step.look) && Shape(step.pre) && Enabled(step.pre, step.act)
    requires Outcome(s, p, q, y, step, res, use, out, from, myIp)
    ensures SentAs(s, x, from, step, res, use, out, myIp)
  {
    RequestRead(p, 0, x);
    AddressesRead(p, 0, x);
    EmittedIs(p, q, y, x, res, out, myIp);
  }

  lemma FrameClassified(frags: seq<seq<byte>>, x: Datagram, to: Mac, from: Mac, myMac: Mac)
    requires WellFormed(x) && Arrives(frags, x) && IsIp(Frame(frags, 0), to, from, x)
    ensures var d := frags[0];
            && Readable(d) && |d| >= 34 && d[6..12] == from && !IsArpFrame(d, myMac)
            && LayoutOf(d, 14, 0) == LayoutFor(x, 0) && SoundOut(d, myMac)
            && (AcceptedOut(d, myMac) <==> PassesOut(x, to, myMac))
  {
    ArrivesStarts(frags, x);
    StartsRead(frags[0], Frame(frags, 0), x);
    AcceptedOutIff(frags[0], Frame(frags, 0), x, to, from, myMac);
    HeaderPassesOutIff(frags[0], Frame(frags, 0), x, to, from, myMac);
  }

  /** `EthReceive` of any frame that carries a packet `x`. */
  method SendPacket(dev: Device, frags: seq<seq<byte>>, ghost x: Datagram, ghost to: Mac, ghost from: Mac)
    returns (out: LteOut, ghost step: Option<Step>, ghost res: MapResult, ghost use: CacheUse)
    requires dev.Valid() && dev.mapper.machine.pc.Idle? && dev.myIp != ZERO_IP
    requires WellFormed(x) && Arrives(frags, x) && IsIp(Frame(frags, 0), to, from, x)
    modifies dev.mapper`machine, dev.mapper.table.row, dev.mapper.gen, dev.mapper.clock
    modifies dev.arp`state, dev.arp.cache.row, dev.lteTx
    ensures dev.Valid()
    ensures step.Some? <==> PassesOut(x, to, dev.myMac)
    ensures step.Some? ==>
              && MachineStep(old(dev.mapper.machine), step.value, dev.mapper.machine)
              && SentAs(old(dev.mapper.machine), x, from, step.value, res, use, out, dev.myIp)
    ensures step.None? ==> out.Dropped? && use.NoUse? && Waited(old(dev.mapper.machine), dev.mapper.machine)
    ensures CacheStep(old(dev.arp.state), use, dev.arp.state)
  {
    ghost var s, before := dev.mapper.machine, dev.lteTx[..];
    FrameClassified(frags, x, to, from, dev.myMac);
    ArrivesHeld(before, frags, x);
    out, step, res, use := dev.EthReceive(frags);
    if step.Some? {
      OutcomeIs(s, Linearized(before, frags, Size(x)), dev.lteTx[..], LayoutFor(x, 0), x, step.value, res, use, out,
                from, dev.myIp);
    }
  }

  // ---------------------------------------------------------------- to the client

  lemma CopiedHeld(raw: seq<byte>, p: seq<byte>, y: Layout, z: Datagram)
    requires WellFormed(z) && Holds(raw, 0, z) && y == LayoutFor(z, 14) && Copied(raw, p, y)
    ensures Holds(p, 14, z)
  {
    forall k | 0 <= k < Size(z) ensures p[14 + k] == PacketByte(z, k) {
      assert p[14 + k] == p[14..14 + y.len][k] == raw[..y.len][k] == raw[0 + k];
    }
  }

  /** The table is asked for the packet's source, protocol and port or identifier. */
  ghost predicate AsksFor(a: Action, z: Datagram)
  {
    a.Inbound? && a.proto == Protocol(z.seg) && a.serverIp == z.src && a.port == Remote(z.seg)
  }

  lemma InboundIs(p: seq<byte>, y: Layout, z: Datagram, a: Action)
    requires WellFormed(z) && Holds(p, 14, z) && y == LayoutFor(z, 14) && y.Complete(p) && InboundOf(p, y, a)
    ensures AsksFor(a, z)
  {
    AddressesRead(p, 14, z);
    TargetPortRead(p, 14, z);
  }

  /** What is made of a packet for this client: a frame to the MAC the cache answers with, if it does. */
  ghost predicate DeliveredAs(c: ArpState, use: CacheUse, z: Datagram, f: Flow, myMac: Mac, out: EthOut)
    requires WellFormed(z)
  {
    && use.Use? && use.act.Lookup? && use.act.ip == f.clientIp
    && var t := c.(now := use.start);
       && ArpShape(t) && ArpEnabled(t, use.act)
       && out == match Answer(t, use.act)
                 case None => Unresolved(f.clientIp)
                 case Some(mac) => Framed(IpFrame(mac, myMac, PacketBytes(SentIn(z, f.clientIp, f.ethPort))))
  }

  lemma FramingIs(c: ArpState, use: CacheUse, r: seq<byte>, z: Datagram, f: Flow, myMac: Mac, out: EthOut)
    requires WellFormed(z) && Holds(r, 14, SentIn(z, f.clientIp, f.ethPort))
    requires Framing(c, use, r, Size(z), f.clientIp, myMac, out)
    ensures DeliveredAs(c, use, z, f, myMac, out)
  {
    HeldIsBytes(r, 14, SentIn(z, f.clientIp, f.ethPort));
  }

  /** The outcome of an accepted packet, in its fields. */
  ghost predicate ReturnedAs(s: State, c: ArpState, z: Datagram, a: Action, use: CacheUse, out: EthOut, myMac: Mac)
    requires WellFormed(z)
  {
    && Shape(s) && Enabled(s, a) && AsksFor(a, z)
    && match Mapping(s, a)
       case None => out.Refused? && use.NoUse?
       case Some(f) => DeliveredAs(c, use, z, f, myMac, out)
  }

  lemma ReceivedIs(s: State, a: Action, s': State, p: seq<byte>, r: seq<byte>, y: Layout, c: ArpState, use: CacheUse,
                   out: EthOut, z: Datagram, myMac: Mac)
    requires WellFormed(z) && Holds(p, 14, z) && y == LayoutFor(z, 14) && y.Complete(p) && |r| == |p|
    requires Received(s, a, s', p, r, y) && Delivery(c, use, r, y, ClientOf(Mapping(s, a)), myMac, out)
    ensures ReturnedAs(s, c, z, a, use, out, myMac)
  {
    InboundIs(p, y, z, a);
    var m := Mapping(s, a);
    if m.Some? {
      ReturnedIs(p, r, y, z, m.value);
      FramingIs(c, use, r, z, m.value, myMac, out);
    }
  }

  /** `LteReceive` of any packet `z`. */
  method ReceivePacket(dev: Device, raw: seq<byte>, rawLen: int, ghost z: Datagram)
    returns (out: EthOut, ghost a: Option<Action>, ghost use: CacheUse)
    requires dev.Valid() && WellFormed(z) && |raw| == 1280 && Holds(raw, 0, z)
    modifies dev.mapper`machine, dev.mapper.table.row, dev.mapper.clock
    modifies dev.arp`state, dev.arp.cache.row, dev.ethTx
    ensures dev.Valid()
    ensures a.Some? <==> PassesIn(z, rawLen, dev.myIp)
    ensures a.Some? ==>
              && ReturnedAs(old(dev.mapper.machine), old(dev.arp.state), z, a.value, use, out, dev.myMac)
              && Waited(Next(old(dev.mapper.machine), a.value), dev.mapper.machine)
    ensures a.None? ==> out.Refused? && use.NoUse? && dev.mapper.machine == old(dev.mapper.machine)
    ensures CacheStep(old(dev.arp.state), use, dev.arp.state)
  {
    ghost var s, c := dev.mapper.machine, dev.arp.state;
    ghost var p: seq<byte>, r: seq<byte>;
    AcceptedInIff(raw, rawLen, z, dev.myIp);
    LayoutRead(raw, 0, z, 14);
    out, a, p, r, use := dev.LteReceive(raw, rawLen);
    if a.Some? {
      CopiedHeld(raw, p, LayoutFor(z, 14), z);
      ReceivedIs(s, a.value, dev.mapper.machine, p, r, LayoutFor(z, 14), c, use, out, z, dev.myMac);
    }
  }
}
