/** The two packet handlers: frames from the Ethernet side go out to LTE under an external port,
    packets from LTE come back to the client that holds the port. */
module Gateway {
  import opened Wrappers
  import opened Bytes
  import opened Checksum
  import opened ChecksumCode
  import opened Clock
  import opened PortTable
  import opened NatMachine
  import opened NatTheorems
  import opened Mapper
  import opened Fragments
  import opened Packet
  import opened Translate
  import opened ArpCache

  /** How the outbound handler ends; `Hung` stands for an identifier search without an end. */
  datatype LteOut = Dropped | ArpSeen | Hung | Forwarded(packet: seq<byte>)

  /** An inbound packet ends as a frame for the client, or waits for the client's MAC. */
  datatype EthOut = Refused | Unresolved(clientIp: Ipv4) | Framed(frame: seq<byte>)

  /** What a handler did with the ARP cache: nothing, or a step begun at time `start`. */
  datatype CacheUse = NoUse | Use(start: nat, act: ArpAction)

  // ---------------------------------------------------------------- which packets are accepted

  predicate IsIpFrame(d: seq<byte>, mac: Mac)
  {
    && |d| >= 34 && d[12] == 0x08 && d[13] == 0x00 && d[..6] == mac
    && d[14] / 16 == 4 && d[23] in {UDP, TCP, ICMP}
  }

  predicate IsArpFrame(d: seq<byte>, mac: Mac)
  {
    |d| >= 42 && d[12] == 0x08 && d[13] == 0x06 && d[..6] == mac
  }

  /** The bytes the handler looks at before any length check: the frame type, and the total length of
      a frame typed IPv4. */
  predicate Readable(d: seq<byte>)
  {
    |d| >= 14 && (d[12] == 0x08 && d[13] == 0x00 ==> |d| >= 18)
  }

  /** Only echo requests and replies carry an identifier to translate. */
  predicate IsEcho(kind: byte)
  {
    kind == 0 || kind == 8
  }

  function LayoutOf(p: seq<byte>, b: nat, at: nat): (y: Layout)
    requires b + 20 <= |p|
  {
    Layout(at, HeaderLen(p, b), TotalLen(p, b), p[b + 9])
  }

  /** An IPv4 frame whose lengths are sound and whose header checksum verifies. */
  ghost predicate HeaderPassesOut(d: seq<byte>, mac: Mac)
  {
    && IsIpFrame(d, mac)
    && var y := LayoutOf(d, 14, 0);
       && y.hl < y.len && y.len <= MTU && 14 + y.hl <= |d|
       && Complement(OnesSum(Little, d[14..14 + y.hl])) == 0
  }

  /** The outbound handler forwards this frame, if the table has a mapping for it. */
  ghost predicate AcceptedOut(d: seq<byte>, mac: Mac)
  {
    && HeaderPassesOut(d, mac)
    && var y := LayoutOf(d, 14, 0); y.proto == ICMP ==> 14 + y.hl < |d| && IsEcho(d[14 + y.hl])
  }

  /** The segment holds what is read and written of its header: up to the identifier of an echo, or the
      checksum. */
  predicate HasRoomFor(y: Layout)
  {
    y.hl + (if y.proto == 1 then 6 else if y.proto == 6 then 18 else 8) <= y.len
  }

  /** What the code takes for granted: the header lies in the first fragment, and so does the kind of an
      ICMP message; a header that passes has at least five words; and a packet that is accepted has room
      for the transport fields. */
  ghost predicate SoundOut(d: seq<byte>, mac: Mac)
  {
    IsIpFrame(d, mac) ==>
      var y := LayoutOf(d, 14, 0);
      && (y.hl < y.len && y.len <= MTU ==> 14 + y.hl <= |d|)
      && (HeaderPassesOut(d, mac) ==> 20 <= y.hl && (y.proto == ICMP ==> 14 + y.hl < |d|))
      && (AcceptedOut(d, mac) ==> HasRoomFor(y))
  }

  ghost predicate HeaderPassesIn(p: seq<byte>, rawLen: int, myIp: Ipv4)
    requires |p| == MTU
  {
    && rawLen >= 20 && p[0] / 16 == 4 && p[9] in {UDP, TCP, ICMP}
    && var y := LayoutOf(p, 0, 0);
       && y.hl < y.len && y.len <= MTU && IpAt(p, 16) == myIp
       && Complement(OnesSum(Little, p[..y.hl])) == 0
  }

  /** The inbound handler looks this packet up. UDP and ICMP checksums are verified, TCP's is not. */
  ghost predicate AcceptedIn(p: seq<byte>, rawLen: int, myIp: Ipv4)
    requires |p| == MTU
  {
    && HeaderPassesIn(p, rawLen, myIp)
    && var y := LayoutOf(p, 0, 0);
       && y.Fits(p) && (y.proto == ICMP ==> IsEcho(p[y.hl]))
       && (y.proto != TCP ==> Complement(OnesSum(Little, Summed(p, y))) == 0)
  }

  /** The same for an inbound packet, which lies in one buffer. */
  ghost predicate SoundIn(p: seq<byte>, rawLen: int, myIp: Ipv4)
    requires |p| == MTU
  {
    var y := LayoutOf(p, 0, 0);
    && (HeaderPassesIn(p, rawLen, myIp) ==> 20 <= y.hl)
    && (AcceptedIn(p, rawLen, myIp) ==> HasRoomFor(y))
  }

  /** The request an outbound packet makes of the table. */
  function RequestFrom(p: seq<byte>, y: Layout): (q: Request)
    requires y.Fits(p)
  {
    var at := y.Seg() + SourceField(y.proto);
    Request(y.proto, IpAt(p, y.b + 12), Be16(p[at], p[at + 1]), IpAt(p, y.b + 16))
  }

  function TargetPort(p: seq<byte>, y: Layout): (port: u16)
    requires y.Fits(p)
  {
    var at := y.Seg() + TargetField(y.proto);
    Be16(p[at], p[at + 1])
  }

  // ---------------------------------------------------------------- ARP packets

  /** What an ARP packet teaches: the sender's address and MAC, from a broadcast request or from a
      reply sent to this gateway, if it asks for or is addressed to the gateway's own address. */
  function Learnt(d: seq<byte>, myEthIp: seq<byte>, mac: Mac): (l: Option<(Ipv4, Mac)>)
    requires |d| >= 42 && |myEthIp| == 4
  {
    var op := Be16(d[20], d[21]);
    if && d[38..42] == myEthIp && Be16(d[14], d[15]) == 1 && Be16(d[16], d[17]) == 0x0800
       && d[18] == 6 && d[19] == 4
       && ((op == 1 && d[..6] == seq(6, _ => 0xFF)) || (op == 2 && d[..6] == mac))
    then Some((IpAt(d, 28), d[22..28])) else None
  }

  /** As the outbound handler only passes on frames addressed to the gateway's own MAC, requests
      teach it nothing; replies do. */
  lemma OnlyRepliesTeach(d: seq<byte>, myEthIp: seq<byte>, mac: Mac)
    requires |myEthIp| == 4 && IsArpFrame(d, mac) && mac != seq(6, _ => 0xFF)
    ensures Learnt(d, myEthIp, mac).Some? ==> Be16(d[20], d[21]) == 2
  {
  }

  ghost predicate Teaches(use: CacheUse, l: Option<(Ipv4, Mac)>)
  {
    if l.None? then use.NoUse?
    else use.Use? && use.act.Learn? && use.act.ip == l.value.0 && use.act.mac == l.value.1
  }

  // ---------------------------------------------------------------- the handlers

  class Device {
    const mapper: NatTable
    const arp: Resolver
    const lteTx: array<byte>
    const ethTx: array<byte>
    const myIp: Ipv4
    const myEthIp: seq<byte>
    const myMac: Mac

    ghost predicate Valid()
      reads this, mapper, mapper.table.row, mapper.gen, mapper.clock, arp, arp.cache.row, arp.clock
    {
      && mapper.Valid() && arp.Valid() && arp.clock == mapper.clock
      && lteTx.Length == MTU && ethTx.Length == MTU + ETH && lteTx != ethTx && |myEthIp| == 4
    }

    /** Start-up: an empty table, an empty cache, cleared buffers. */
    constructor (clock: Uptime, myIp: Ipv4, myEthIp: seq<byte>, myMac: Mac)
      requires |myEthIp| == 4
      ensures Valid() && mapper.machine == Init(0, clock.now) && arp.state == ArpInit(clock.now)
      ensures lteTx[..] == seq(1280, _ => 0) && ethTx[..] == seq(1294, _ => 0)
      ensures this.myIp == myIp && this.myEthIp == myEthIp && this.myMac == myMac
    {
      mapper := new NatTable(clock);
      arp := new Resolver(clock);
      lteTx := new byte[MTU](_ => 0);
      ethTx := new byte[MTU + ETH](_ => 0);
      this.myIp, this.myEthIp, this.myMac := myIp, myEthIp, myMac;
    }

    /** `update_arp_cache_by_ip`, for the table side no more than a lapse of time. */
    method Teach(ip: Ipv4, mac: Mac) returns (ghost use: CacheUse)
      requires Valid()
      modifies mapper`machine, mapper.clock, arp`state, arp.cache.row
      ensures Valid() && Waited(old(mapper.machine), mapper.machine)
      ensures CacheStep(old(arp.state), use, arp.state) && Teaches(use, Some((ip, mac)))
    {
      ghost var start := arp.clock.now;
      ghost var act := arp.Teach(ip, mac);
      use := Use(start, act);
      mapper.Tick();
    }

    /** `operate_packet_arp`. */
    method OperateArp(d: seq<byte>) returns (ghost use: CacheUse)
      requires Valid() && |d| >= 42
      modifies mapper`machine, mapper.clock, arp`state, arp.cache.row
      ensures Valid() && Waited(old(mapper.machine), mapper.machine)
      ensures CacheStep(old(arp.state), use, arp.state) && Teaches(use, Learnt(d, myEthIp, myMac))
    {
      use := NoUse;
      var l := Learnt(d, myEthIp, myMac);
      if l.Some? {
        use := Teach(l.value.0, l.value.1);
      }
    }

    /** The cache notes that time has passed. */
    ghost method CatchUp()
      requires mapper.Valid() && arp.Behind() && arp.clock == mapper.clock
      requires lteTx.Length == MTU && ethTx.Length == MTU + ETH && lteTx != ethTx && |myEthIp| == 4
      modifies arp`state
      ensures Valid() && CacheStep(old(arp.state), NoUse, arp.state)
    {
      arp.Tick();
    }

    /** Find or make the mapping. */
    method MapOut(req: Request) returns (res: MapResult, ghost step: Step)
      requires Valid() && mapper.machine.pc.Idle? && req.proto in {ICMP, TCP, UDP}
      modifies mapper`machine, mapper.table.row, mapper.gen, mapper.clock, arp`state
      ensures Valid() && (mapper.machine.pc.Idle? <==> !res.NeverEnds?)
      ensures MachineStep(old(mapper.machine), step, mapper.machine)
      ensures MapOutcome(old(mapper.machine), req, step, res)
      ensures CacheStep(old(arp.state), NoUse, arp.state)
    {
      res, step := mapper.MapOutbound(req);
      CatchUp();
    }

    /** Find or make the mapping, and note the client's MAC. */
    method MapAndLearn(req: Request, mac: Mac) returns (res: MapResult, ghost step: Step, ghost use: CacheUse)
      requires Valid() && mapper.machine.pc.Idle? && req.proto in {ICMP, TCP, UDP}
      modifies mapper`machine, mapper.table.row, mapper.gen, mapper.clock, arp`state, arp.cache.row
      ensures Valid() && (mapper.machine.pc.Idle? <==> !res.NeverEnds?)
      ensures MachineStep(old(mapper.machine), step, mapper.machine)
      ensures MapOutcome(old(mapper.machine), req, step, res)
      ensures CacheStep(old(arp.state), use, arp.state)
      ensures Teaches(use, if res.Mapped? then Some((req.clientIp, mac)) else None)
    {
      res, step := MapOut(req);
      use := NoUse;
      if res.Mapped? {
        ghost var s, c := mapper.machine, arp.state;
        use := Teach(res.flow.clientIp, mac);
        ThenWaited(old(mapper.machine), step, s, mapper.machine);
        WaitedThen(old(arp.state), c, use, arp.state);
      }
    }

    /** Translate the packet with the mapping, if there is one. */
    method Emit(y: Layout, res: MapResult) returns (out: LteOut)
      requires lteTx.Length == MTU && y.b == 0 && y.Complete(lteTx[..])
      modifies lteTx
      ensures Emitted(old(lteTx[..]), lteTx[..], y, res, out, myIp)
    {
      match res {
        case Mapped(flow) =>
          TranslateInPlace(lteTx, y, SourceField(y.proto), flow.ltePort, 12, myIp);
          out := Forwarded(lteTx[..y.len]);
        case TableFull => out := Dropped;
        case NeverEnds => out := Hung;
      }
    }

    /** From the table lookup to the finished packet. The packet lies at the start of `lteTx`. */
    method TranslateOut(y: Layout, mac: Mac)
      returns (out: LteOut, ghost step: Step, ghost res: MapResult, ghost use: CacheUse)
      requires Valid() && mapper.machine.pc.Idle? && y.b == 0 && y.Complete(lteTx[..])
      modifies mapper`machine, mapper.table.row, mapper.gen, mapper.clock, arp`state, arp.cache.row, lteTx
      ensures Valid() && (mapper.machine.pc.Idle? <==> !out.Hung?)
      ensures MachineStep(old(mapper.machine), step, mapper.machine) && CacheStep(old(arp.state), use, arp.state)
      ensures Outcome(old(mapper.machine), old(lteTx[..]), lteTx[..], y, step, res, use, out, mac, myIp)
    {
      var found: MapResult;
      found, step, use := MapAndLearn(RequestFrom(lteTx[..], y), mac);
      res := found;
      out := Emit(y, found);
    }

    /** The packet as it lies in `lteTx` once the fragments are copied. */
    ghost function Incoming(frags: seq<seq<byte>>): (p: seq<byte>)
      requires |frags| > 0 && |frags[0]| >= 18
      reads lteTx
    {
      var tsz := TotalLen(frags[0], ETH);
      if tsz <= lteTx.Length then Linearized(lteTx[..], frags, tsz) else lteTx[..]
    }

    /** The checks left for a frame that carries IPv4: lengths, header checksum, and the kind of an ICMP
        message. The protocol is looked up in the copied packet. */
    method ScreenOut(d: seq<byte>) returns (ok: bool)
      requires lteTx.Length == MTU && IsIpFrame(d, myMac) && SoundOut(d, myMac) && TotalLen(d, ETH) <= MTU
      requires HeaderPassesOut(d, myMac) ==> lteTx[9] == d[23]
      ensures ok <==> AcceptedOut(d, myMac)
    {
      var y := LayoutOf(d, ETH, 0);
      if y.len <= y.hl {
        return false;
      }
      var hcs := CheckIcs(d[ETH..ETH + y.hl]);
      if hcs != 0 || (lteTx[9] == ICMP && !IsEcho(d[ETH + y.hl])) {
        return false;
      }
      ok := true;
    }

    /** The outbound handler once the frame is known to carry IPv4 for this gateway. */
    method HandleIp(d: seq<byte>)
      returns (out: LteOut, ghost step: Option<Step>, ghost res: MapResult, ghost use: CacheUse)
      requires Valid() && mapper.machine.pc.Idle?
      requires IsIpFrame(d, myMac) && SoundOut(d, myMac) && TotalLen(d, ETH) <= MTU
      requires HeaderPassesOut(d, myMac) ==> lteTx[9] == d[23]
      modifies mapper`machine, mapper.table.row, mapper.gen, mapper.clock, arp`state, arp.cache.row, lteTx
      ensures Valid() && (mapper.machine.pc.Idle? <==> !out.Hung?)
      ensures step.Some? <==> AcceptedOut(d, myMac)
      ensures step.Some? ==>
                && MachineStep(old(mapper.machine), step.value, mapper.machine)
                && Outcome(old(mapper.machine), old(lteTx[..]), lteTx[..], LayoutOf(d, ETH, 0), step.value, res, use,
                           out, d[6..12], myIp)
      ensures step.None? ==> out.Dropped? && use.NoUse? && Waited(old(mapper.machine), mapper.machine)
      ensures CacheStep(old(arp.state), use, arp.state)
    {
      var ok := ScreenOut(d);
      if ok {
        ghost var s: Step;
        out, s, res, use := TranslateOut(LayoutOf(d, ETH, 0), d[6..12]);
        step := Some(s);
      } else {
        out, step, res, use := Dropped, None, TableFull, NoUse;
      }
    }

    /** What the outbound handler does with a frame, by its type, once the packet of an IPv4 frame is
        copied. */
    method Dispatch(d: seq<byte>)
      returns (out: LteOut, ghost step: Option<Step>, ghost res: MapResult, ghost use: CacheUse)
      requires Valid() && mapper.machine.pc.Idle? && |d| >= 14 && SoundOut(d, myMac)
      requires IsIpFrame(d, myMac) ==> TotalLen(d, ETH) <= MTU
      requires HeaderPassesOut(d, myMac) ==> lteTx[9] == d[23]
      modifies mapper`machine, mapper.table.row, mapper.gen, mapper.clock, arp`state, arp.cache.row, lteTx
      ensures Valid() && (mapper.machine.pc.Idle? <==> !out.Hung?)
      ensures step.Some? <==> myIp != ZERO_IP && AcceptedOut(d, myMac)
      ensures step.Some? ==>
                && MachineStep(old(mapper.machine), step.value, mapper.machine)
                && Outcome(old(mapper.machine), old(lteTx[..]), lteTx[..], LayoutOf(d, ETH, 0), step.value, res, use,
                           out, d[6..12], myIp)
      ensures step.None? ==>
                && Waited(old(mapper.machine), mapper.machine)
                && out == (if myIp != ZERO_IP && IsArpFrame(d, myMac) then ArpSeen else Dropped)
                && Teaches(use, if out.ArpSeen? then Learnt(d, myEthIp, myMac) else None)
      ensures CacheStep(old(arp.state), use, arp.state)
    {
      step, res, use := None, TableFull, NoUse;
      if myIp != ZERO_IP && IsArpFrame(d, myMac) {
        use := OperateArp(d);
        return ArpSeen, step, res, use;
      }
      if myIp != ZERO_IP && IsIpFrame(d, myMac) {
        out, step, res, use := HandleIp(d);
      } else {
        out := Dropped;
      }
    }

    /** `eth_recv_cb`: flatten, classify, check, map, translate. */
    method EthReceive(frags: seq<seq<byte>>)
      returns (out: LteOut, ghost step: Option<Step>, ghost res: MapResult, ghost use: CacheUse)
      requires Valid() && mapper.machine.pc.Idle?
      requires |frags| > 0 && Readable(frags[0]) && SoundOut(frags[0], myMac)
      modifies mapper`machine, mapper.table.row, mapper.gen, mapper.clock, arp`state, arp.cache.row, lteTx
      ensures Valid() && (mapper.machine.pc.Idle? <==> !out.Hung?)
      ensures step.Some? <==> myIp != ZERO_IP && AcceptedOut(frags[0], myMac)
      ensures step.Some? ==>
                && MachineStep(old(mapper.machine), step.value, mapper.machine)
                && Outcome(old(mapper.machine), old(Incoming(frags)), lteTx[..], LayoutOf(frags[0], ETH, 0),
                           step.value, res, use, out, frags[0][6..12], myIp)
      ensures step.None? ==>
                && Waited(old(mapper.machine), mapper.machine)
                && out == (if myIp != ZERO_IP && IsArpFrame(frags[0], myMac) then ArpSeen else Dropped)
                && Teaches(use, if out.ArpSeen? then Learnt(frags[0], myEthIp, myMac) else None)
      ensures CacheStep(old(arp.state), use, arp.state)
    {
      var d := frags[0];
      if d[12] == 0x08 && d[13] == 0x00 {
        var tsz := TotalLen(d, ETH);
        if MTU < tsz {
          return Dropped, None, TableFull, NoUse;
        }
        Linearize(lteTx, frags, tsz);
        if HeaderPassesOut(d, myMac) {
          KindCopied(old(lteTx[..]), frags, myMac);
        }
      }
      out, step, res, use := Dispatch(d);
    }

    /** The lookup for an inbound packet in `ethTx`. */
    method MapIn(y: Layout) returns (f: Option<Flow>, ghost a: Action)
      requires Valid() && y.Complete(ethTx[..])
      modifies mapper`machine, mapper.table.row, mapper.clock, arp`state
      ensures Valid() && mapper.machine.pc == old(mapper.machine.pc)
      ensures InboundOf(ethTx[..], y, a) && Enabled(old(mapper.machine), a)
      ensures mapper.machine == Next(old(mapper.machine), a) && f == Mapping(old(mapper.machine), a)
      ensures CacheStep(old(arp.state), NoUse, arp.state)
    {
      var at := y.Seg() + TargetField(y.proto);
      var r: int;
      r, a := mapper.MapInbound(y.proto, IpAt(ethTx[..], y.b + 12), Be16(ethTx[at], ethTx[at + 1]));
      f := if r < 0 then None else Some(Identity(mapper.table.row[r]));
      CatchUp();
    }

    /** Translate the packet with the mapping, if there is one. */
    method Readdress(y: Layout, f: Option<Flow>)
      requires ethTx.Length == MTU + ETH && y.Complete(ethTx[..])
      modifies ethTx
      ensures TranslatedIn(old(ethTx[..]), ethTx[..], y, f)
    {
      if f.Some? {
        TranslateInPlace(ethTx, y, TargetField(y.proto), f.value.ethPort, 16, f.value.clientIp);
      }
    }

    /** From the table lookup to the finished packet, which lies behind an Ethernet header in `ethTx`. */
    method TranslateIn(y: Layout) returns (client: Option<Ipv4>, ghost a: Action)
      requires Valid() && y.b == ETH && y.Complete(ethTx[..])
      modifies mapper`machine, mapper.table.row, mapper.clock, arp`state, ethTx
      ensures Valid() && mapper.machine.pc == old(mapper.machine.pc)
      ensures Received(old(mapper.machine), a, mapper.machine, old(ethTx[..]), ethTx[..], y)
      ensures client == ClientOf(Mapping(old(mapper.machine), a))
      ensures CacheStep(old(arp.state), NoUse, arp.state)
    {
      var f: Option<Flow>;
      f, a := MapIn(y);
      client := ClientOf(f);
      Readdress(y, f);
    }

    /** The cache half of `resolve_arp`, and the Ethernet header of the frame. */
    method Frame(clientIp: Ipv4, len: nat) returns (out: EthOut, ghost use: CacheUse)
      requires Valid() && len <= MTU
      modifies mapper`machine, mapper.clock, arp`state, arp.cache.row, ethTx
      ensures Valid() && Waited(old(mapper.machine), mapper.machine)
      ensures CacheStep(old(arp.state), use, arp.state)
      ensures Framing(old(arp.state), use, old(ethTx[..]), len, clientIp, myMac, out)
    {
      ghost var start := arp.clock.now;
      ghost var act: ArpAction;
      var mac: Option<Mac>;
      mac, act := arp.LookUp(clientIp);
      use := Use(start, act);
      mapper.Tick();
      if mac.None? {
        return Unresolved(clientIp), use;
      }
      var header := mac.value + myMac + [0x08, 0x00];
      ghost var p := ethTx[..];
      CopyInto(ethTx, 0, header);
      HeaderPut(p, ethTx[..], header, len);
      out := Framed(ethTx[..][..ETH + len]);
    }

    /** The checks an inbound packet has to pass. */
    method ScreenIn(raw: seq<byte>, rawLen: int) returns (ok: bool)
      requires |raw| == MTU && SoundIn(raw, rawLen, myIp)
      ensures ok <==> AcceptedIn(raw, rawLen, myIp)
    {
      if rawLen < 20 || raw[0] / 16 != 4 || raw[9] !in {UDP, TCP, ICMP} {
        return false;
      }
      var y := LayoutOf(raw, 0, 0);
      if MTU < y.len || IpAt(raw, 16) != myIp || y.len <= y.hl {
        return false;
      }
      var hcs := CheckIcs(raw[..y.hl]);
      if hcs != 0 || (y.proto == ICMP && !IsEcho(raw[y.hl])) {
        return false;
      }
      if y.proto == TCP {
        return true;
      }
      var cs := SegmentChecksum(raw, y);
      ok := cs == 0;
    }

    method CopyPacket(raw: seq<byte>, y: Layout)
      requires ethTx.Length == MTU + ETH && |raw| == MTU
      requires y == LayoutOf(raw, 0, ETH) && 20 <= y.hl < y.len <= MTU && y.proto in {ICMP, TCP, UDP}
      requires y.hl + MinSegment(y.proto) <= y.len
      modifies ethTx
      ensures Copied(raw, ethTx[..], y)
    {
      CopyInto(ethTx, ETH, raw[..y.len]);
    }

    /** Map, translate and frame the packet copied into `ethTx`. */
    method Deliver(y: Layout) returns (out: EthOut, ghost a: Action, ghost r: seq<byte>, ghost use: CacheUse)
      requires Valid() && y.b == ETH && y.Complete(ethTx[..])
      modifies mapper`machine, mapper.table.row, mapper.clock, arp`state, arp.cache.row, ethTx
      ensures Valid() && mapper.machine.pc == old(mapper.machine.pc)
      ensures Received(old(mapper.machine), a, mapper.machine, old(ethTx[..]), r, y)
      ensures CacheStep(old(arp.state), use, arp.state)
      ensures Delivery(old(arp.state), use, r, y, ClientOf(Mapping(old(mapper.machine), a)), myMac, out)
    {
      var client: Option<Ipv4>;
      client, a := TranslateIn(y);
      r := ethTx[..];
      if client.None? {
        out, use := Refused, NoUse;
      } else {
        out, use := Frame(client.value, y.len);
      }
    }

    /** The receive loop's body in `eth_tx_thread_func`: check, copy behind an Ethernet header, map,
        translate, frame. `raw` is the receive buffer, `rawLen` what the socket delivered, `p` the
        transmit buffer right after the copy, `r` after the translation. */
    method LteReceive(raw: seq<byte>, rawLen: int)
      returns (out: EthOut, ghost a: Option<Action>, ghost p: seq<byte>, ghost r: seq<byte>, ghost use: CacheUse)
      requires Valid() && |raw| == MTU && SoundIn(raw, rawLen, myIp)
      modifies mapper`machine, mapper.table.row, mapper.clock, arp`state, arp.cache.row, ethTx
      ensures Valid() && mapper.machine.pc == old(mapper.machine.pc)
      ensures a.Some? <==> AcceptedIn(raw, rawLen, myIp)
      ensures a.None? ==> out.Refused? && use.NoUse? && mapper.machine == old(mapper.machine)
      ensures a.Some? ==>
                var y := LayoutOf(raw, 0, ETH);
                && Copied(raw, p, y)
                && Received(old(mapper.machine), a.value, mapper.machine, p, r, y)
                && Delivery(old(arp.state), use, r, y, ClientOf(Mapping(old(mapper.machine), a.value)), myMac, out)
      ensures CacheStep(old(arp.state), use, arp.state)
    {
      a, p, r, use := None, [], [], NoUse;
      var ok := ScreenIn(raw, rawLen);
      if !ok {
        return Refused, a, p, r, use;
      }
      var y := LayoutOf(raw, 0, ETH);
      CopyPacket(raw, y);
      p := ethTx[..];
      ghost var act: Action;
      out, act, r, use := Deliver(y);
      a := Some(act);
    }
  }

  /** The cache went through at most the one step, and time passed. */
  ghost predicate CacheStep(s: ArpState, use: CacheUse, s': ArpState)
  {
    if use.NoUse? then s' == s.(now := s'.now) && s.now <= s'.now
    else
      var t := s.(now := use.start);
      && s.now <= use.start && ArpShape(t) && ArpEnabled(t, use.act)
      && s' == ArpNext(t, use.act).(now := s'.now) && ArpNext(t, use.act).now <= s'.now
  }

  lemma WaitedThen(s: ArpState, m: ArpState, use: CacheUse, s': ArpState)
    requires CacheStep(s, NoUse, m) && CacheStep(m, use, s')
    ensures CacheStep(s, use, s')
  {
  }

  /** What leaves the gateway on the LTE side: the packet translated with the mapping, if there is one. */
  ghost predicate Emitted(p: seq<byte>, r: seq<byte>, y: Layout, res: MapResult, out: LteOut, myIp: Ipv4)
    requires y.Complete(p)
  {
    match res
    case Mapped(f) =>
      IsTranslation(p, r, y, SourceField(y.proto), f.ltePort, 12, myIp) && out == Forwarded(r[..y.len])
    case TableFull => r == p && out.Dropped?
    case NeverEnds => r == p && out.Hung?
  }

  /** The buffer was translated with a mapping of the packet's own client; if the mapping was made for
      this very packet, also of its destination. */
  ghost predicate SentFor(p: seq<byte>, r: seq<byte>, y: Layout, f: Flow, isNew: bool, myIp: Ipv4)
    requires y.Complete(p)
  {
    MapsFor(f, RequestFrom(p, y), isNew) && IsTranslation(p, r, y, SourceField(y.proto), f.ltePort, 12, myIp)
  }

  /** The whole outcome of an accepted packet: the mapping `res`, the packet sent, and the sender's MAC
      taught to the cache if there is a mapping. */
  ghost predicate Outcome(s: State, p: seq<byte>, r: seq<byte>, y: Layout, step: Step, res: MapResult, use: CacheUse,
                          out: LteOut, mac: Mac, myIp: Ipv4)
    requires Shape(s) && step.look.Outbound? && Enabled(s, step.look)
    requires Shape(step.pre) && Enabled(step.pre, step.act)
  {
    && y.Complete(p) && MapOutcome(s, RequestFrom(p, y), step, res) && Emitted(p, r, y, res, out, myIp)
    && Teaches(use, if res.Mapped? then Some((IpAt(p, y.b + 12), mac)) else None)
  }

  /** The lookup an inbound packet causes. */
  ghost predicate InboundOf(p: seq<byte>, y: Layout, a: Action)
    requires y.Fits(p)
  {
    a.Inbound? && a.proto == y.proto && a.serverIp == IpAt(p, y.b + 12) && a.port == TargetPort(p, y)
  }

  /** The protocol byte the handler dispatches on is the one it classified the frame by. */
  lemma KindCopied(old_: seq<byte>, frags: seq<seq<byte>>, mac: Mac)
    requires |frags| > 0 && SoundOut(frags[0], mac) && HeaderPassesOut(frags[0], mac)
    requires TotalLen(frags[0], ETH) <= |old_|
    ensures Linearized(old_, frags, TotalLen(frags[0], ETH))[9] == frags[0][23]
  {
    assert 20 <= HeaderLen(frags[0], ETH) < TotalLen(frags[0], ETH);
    assert Payload(frags, 0)[9] == Piece(frags, 0)[9];
  }

  ghost predicate Copied(raw: seq<byte>, p: seq<byte>, y: Layout)
  {
    |raw| == MTU && y.b == ETH && y.Complete(p) && y.len <= MTU && p[ETH..ETH + y.len] == raw[..y.len]
  }

  lemma HeaderPut(p: seq<byte>, q: seq<byte>, header: seq<byte>, len: nat)
    requires |header| == ETH && ETH + len <= |p| == |q|
    requires forall k :: 0 <= k < |q| ==> q[k] == if k < ETH then header[k] else p[k]
    ensures q[..ETH + len] == header + p[ETH..ETH + len]
  {
  }

  function ClientOf(m: Option<Flow>): (ip: Option<Ipv4>)
  {
    if m.None? then None else Some(m.value.clientIp)
  }

  /** The inbound handler took the machine through `a`, and translated the packet with what the lookup
      found. */
  ghost predicate Received(s: State, a: Action, s': State, p: seq<byte>, r: seq<byte>, y: Layout)
    requires y.Complete(p)
  {
    && Shape(s) && Enabled(s, a) && InboundOf(p, y, a) && Waited(Next(s, a), s')
    && TranslatedIn(p, r, y, Mapping(s, a))
  }

  ghost predicate TranslatedIn(p: seq<byte>, r: seq<byte>, y: Layout, m: Option<Flow>)
    requires y.Complete(p)
  {
    match m
    case None => r == p
    case Some(f) => IsTranslation(p, r, y, TargetField(y.proto), f.ethPort, 16, f.clientIp)
  }

  /** What the client is sent: the packet in `r` behind an Ethernet header with its MAC, if the cache
      answers with one. */
  ghost predicate Framing(s: ArpState, use: CacheUse, r: seq<byte>, len: nat, clientIp: Ipv4, myMac: Mac, out: EthOut)
    requires ETH + len <= |r|
  {
    && use.Use? && use.act.Lookup? && use.act.ip == clientIp
    && var t := s.(now := use.start);
       && ArpShape(t) && ArpEnabled(t, use.act)
       && out == match Answer(t, use.act)
                 case None => Unresolved(clientIp)
                 case Some(mac) => Framed(mac + myMac + [0x08, 0x00] + r[ETH..ETH + len])
  }

  ghost predicate Delivery(s: ArpState, use: CacheUse, r: seq<byte>, y: Layout, client: Option<Ipv4>, myMac: Mac,
                           out: EthOut)
    requires ETH + y.len <= |r|
  {
    if client.None? then out.Refused? && use.NoUse?
    else Framing(s, use, r, y.len, client.value, myMac, out)
  }
}
