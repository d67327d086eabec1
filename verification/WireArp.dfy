/** What ARP packets, given by their fields, teach the gateway. */
module WireArp {
  import opened Wrappers
  import opened Bytes
  import opened NatMachine
  import opened Mapper
  import opened Packet
  import opened ArpCache
  import opened Gateway
  import opened RoundTrip
  import opened Wire
  import opened WireHandlers

  /** A reply to the gateway's MAC, or a broadcast request, about this address of the gateway's. */
  predicate Concerns(a: Arp, myEthIp: Ipv4, myMac: Mac)
  {
    && a.targetIp == myEthIp
    && ((a.op == 2 && a.dst == myMac) || (a.op == 1 && a.dst == [0xFF, 0xFF, 0xFF, 0xFF, 0xFF, 0xFF]))
  }

  lemma ArpHeadRead(d: seq<byte>, a: Arp)
    requires IsArp(d, a)
    ensures d[..6] == a.dst && Be16(d[14], d[15]) == 1 && Be16(d[16], d[17]) == 0x0800 && d[18] == 6 && d[19] == 4
    ensures d[12] == 0x08 && d[13] == 0x06
  {
    assert forall k :: 0 <= k < 6 ==> d[k] == ArpByte(a, k) == a.dst[k];
  }

  lemma ArpSenderRead(d: seq<byte>, a: Arp)
    requires IsArp(d, a)
    ensures d[22..28] == a.senderMac && IpAt(d, 28) == a.senderIp && Be16(d[20], d[21]) == a.op
  {
    forall k | 0 <= k < 6 ensures d[22 + k] == a.senderMac[k] {
      assert d[22 + k] == ArpByte(a, 22 + k);
    }
    assert forall k :: 28 <= k < 32 ==> d[k] == ArpByte(a, k);
  }

  lemma ArpTargetRead(d: seq<byte>, a: Arp, myEthIp: seq<byte>)
    requires IsArp(d, a) && |myEthIp| == 4
    ensures d[38..42] == myEthIp <==> a.targetIp == IpAt(myEthIp, 0)
  {
    var t := d[38..42];
    assert t[0] == ArpByte(a, 38) && t[1] == ArpByte(a, 39) && t[2] == ArpByte(a, 40) && t[3] == ArpByte(a, 41);
    if a.targetIp == IpAt(myEthIp, 0) {
      assert t == myEthIp;
    }
  }

  lemma LearntOf(d: seq<byte>, myEthIp: seq<byte>, myMac: Mac, dst: Mac, op: u16, ip: Ipv4, mac: Mac, mine: bool)
    requires |d| >= 42 && |myEthIp| == 4 && d[..6] == dst && Be16(d[20], d[21]) == op
    requires Be16(d[14], d[15]) == 1 && Be16(d[16], d[17]) == 0x0800 && d[18] == 6 && d[19] == 4
    requires d[22..28] == mac && IpAt(d, 28) == ip && (mine <==> d[38..42] == myEthIp)
    ensures Learnt(d, myEthIp, myMac) ==
            if mine && ((op == 2 && dst == myMac) || (op == 1 && dst == [0xFF, 0xFF, 0xFF, 0xFF, 0xFF, 0xFF]))
            then Some((ip, mac)) else None
  {
    assert seq(6, _ => 0xFF) == [0xFF, 0xFF, 0xFF, 0xFF, 0xFF, 0xFF];
  }

  /** An ARP packet teaches its sender's address and MAC, exactly if it concerns the gateway. */
  lemma LearntIff(d: seq<byte>, a: Arp, myEthIp: seq<byte>, myMac: Mac)
    requires IsArp(d, a) && |myEthIp| == 4
    ensures Learnt(d, myEthIp, myMac) ==
            if Concerns(a, IpAt(myEthIp, 0), myMac) then Some((a.senderIp, a.senderMac)) else None
    ensures IsArpFrame(d, myMac) <==> a.dst == myMac
  {
    ArpHeadRead(d, a);
    ArpSenderRead(d, a);
    ArpTargetRead(d, a, myEthIp);
    LearntOf(d, myEthIp, myMac, a.dst, a.op, a.senderIp, a.senderMac, a.targetIp == IpAt(myEthIp, 0));
  }

  function ArpAt(d: seq<byte>): (a: Arp)
    requires |d| >= 42
  {
    Arp(d[..6], d[6..12], Be16(d[20], d[21]), d[22..28], IpAt(d, 28), d[32..38], IpAt(d, 38))
  }

  /** Nothing else teaches: a frame that does is an ARP packet for IPv4 over Ethernet. */
  lemma OnlyArpTeaches(d: seq<byte>, myEthIp: seq<byte>, myMac: Mac)
    requires |myEthIp| == 4 && IsArpFrame(d, myMac) && Learnt(d, myEthIp, myMac).Some?
    ensures IsArp(d, ArpAt(d)) && Concerns(ArpAt(d), IpAt(myEthIp, 0), myMac)
  {
    forall k | 0 <= k < 42 ensures d[k] == ArpByte(ArpAt(d), k) {
      ArpByteRead(d, myEthIp, myMac, k);
    }
    LearntIff(d, ArpAt(d), myEthIp, myMac);
  }

  lemma ArpByteRead(d: seq<byte>, myEthIp: seq<byte>, myMac: Mac, k: nat)
    requires |myEthIp| == 4 && IsArpFrame(d, myMac) && Learnt(d, myEthIp, myMac).Some? && k < 42
    ensures d[k] == ArpByte(ArpAt(d), k)
  {
  }

  // ---------------------------------------------------------------- from the reply to the frame

  /** `EthReceive` of any frame that carries an ARP packet `a`. */
  method ReceiveArp(dev: Device, frags: seq<seq<byte>>, ghost a: Arp) returns (out: LteOut, ghost use: CacheUse)
    requires dev.Valid() && dev.mapper.machine.pc.Idle? && dev.myIp != ZERO_IP
    requires |frags| > 0 && IsArp(frags[0], a)
    modifies dev.mapper`machine, dev.mapper.table.row, dev.mapper.gen, dev.mapper.clock
    modifies dev.arp`state, dev.arp.cache.row, dev.lteTx
    ensures dev.Valid() && Waited(old(dev.mapper.machine), dev.mapper.machine)
    ensures out == if a.dst == dev.myMac then ArpSeen else Dropped
    ensures Teaches(use, if a.dst == dev.myMac && Concerns(a, IpAt(dev.myEthIp, 0), dev.myMac)
                         then Some((a.senderIp, a.senderMac)) else None)
    ensures CacheStep(old(dev.arp.state), use, dev.arp.state)
  {
    ghost var step: Option<Step>, res: MapResult;
    ArpHeadRead(frags[0], a);
    LearntIff(frags[0], a, dev.myEthIp, dev.myMac);
    out, step, res, use := dev.EthReceive(frags);
  }

  /** In a call that took the cache from `c` to `c'`, it learnt the sender of `a`. */
  ghost predicate LearntFrom(a: Arp, c: ArpState, use: CacheUse, c': ArpState)
  {
    && ArpInv(c) && CacheStep(c, use, c') && Teaches(use, Some((a.senderIp, a.senderMac)))
    && a.senderIp != ZERO_IP && HasRoom(c, use, a.senderIp)
  }

  /** After any steps of the cache that teach no other MAC for that address, a packet for it, within 20
      minutes, is framed for the MAC that sent the ARP packet. */
  lemma LearntIsFramed(a: Arp, c: ArpState, use: CacheUse, c': ArpState, acts: seq<ArpAction>,
                       d: ArpState, use': CacheUse, d': ArpState, z: Datagram, f: Flow, myMac: Mac, out: EthOut)
    requires LearntFrom(a, c, use, c') && ArpTook(c', acts, d)
    requires AllSpare(acts, a.senderIp, a.senderMac, use.act.at)
    requires WellFormed(z) && CacheStep(d, use', d') && DeliveredAs(d, use', z, f, myMac, out)
    requires f.clientIp == a.senderIp && use'.act.at < use.act.at + 1_200_000
    ensures out == Framed(IpFrame(a.senderMac, myMac, PacketBytes(SentIn(z, f.clientIp, f.ethPort))))
  {
    LearntInCall(c, use, c', a.senderIp, a.senderMac);
    RunSpares(c', acts, a.senderIp, a.senderMac, use.act.at);
    ArpRunKeeps(c', acts);
    AnsweredInCall(d, use', d', a.senderIp, a.senderMac, use.act.at);
  }
}
