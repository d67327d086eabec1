/** A packet out and its reply back, end to end: through the state machine, over any run in between,
    and down to the bytes. */
module RoundTrip {
  import opened Wrappers
  import opened Bytes
  import opened PortTable
  import opened NatMachine
  import opened NatTheorems
  import opened Replies
  import opened Mapper
  import opened Fragments
  import opened Packet
  import opened ArpCache
  import opened Gateway

  /** In state `s` step `a` used row `i` with mapping `f`; after any steps `acts` that keep the row
      alive, inbound step `b` comes in time. */
  ghost predicate KeptThrough(s: State, a: Action, f: Flow, i: nat, acts: seq<Action>, b: Action)
  {
    && Inv(s) && Enabled(s, a) && Mapping(s, a) == Some(f)
    && var s1 := Next(s, a);
       && i < ROWS && Live(s1.rows[i]) && Identity(s1.rows[i]) == f
       && Valid(s1, acts) && KeptAlive(s1, acts, i)
       && var s2 := Run(s1, acts);
          Enabled(s2, b) && b.Inbound? && b.at < s2.touched[i] + TIMEOUT
  }

  /** The state in which the inbound step takes place. */
  ghost function Later(s: State, a: Action, acts: seq<Action>): (s': State)
    requires Shape(s) && Enabled(s, a) && Valid(Next(s, a), acts)
    ensures Shape(s')
  {
    Run(Next(s, a), acts)
  }

  lemma KeptReply(s: State, a: Action, f: Flow, i: nat, acts: seq<Action>, b: Action)
    requires KeptThrough(s, a, f, i, acts, b)
    requires b.port == f.ltePort && b.proto == f.proto
    ensures Mapping(Later(s, a, acts), b) == if b.serverIp == f.serverIp then Some(f) else None
  {
    StepKeepsInv(s, a);
    ReplyFindsRowIff(Next(s, a), acts, i, b);
  }

  /** The two packets of a round trip: `q` is `p` as sent to LTE under mapping `f`, and `m` comes from
      the server `p` went to and is addressed to the external port it was sent from. */
  ghost predicate Answers(p: seq<byte>, q: seq<byte>, y: Layout, f: Flow, isNew: bool, myIp: Ipv4,
                          m: seq<byte>, z: Layout)
  {
    && y.Complete(p) && z.Complete(m) && SentFor(p, q, y, f, isNew, myIp)
    && z.proto == y.proto
    && IpAt(m, z.b + 12) == IpAt(q, y.b + 16)
    && var src := y.Seg() + SourceField(y.proto);
       TargetPort(m, z) == Be16(q[src], q[src + 1])
  }

  /** Rewriting one address leaves the other. */
  lemma AddressKept(p: seq<byte>, q: seq<byte>, y: Layout, portAt: nat, addrAt: nat, other: nat)
    requires y.Complete(p) && Fields(y, portAt, addrAt) && other in {12, 16} && other != addrAt
    requires SameBut(p, q, Written(y, portAt, addrAt))
    ensures IpAt(q, y.b + other) == IpAt(p, y.b + other)
  {
    var k := y.b + other;
    assert {k, k + 1, k + 2, k + 3} !! Written(y, portAt, addrAt);
    SameWord(p, q, k);
  }

  lemma SameWord(p: seq<byte>, q: seq<byte>, k: nat)
    requires k + 4 <= |p| && |q| == |p| && forall j :: j in {k, k + 1, k + 2, k + 3} ==> q[j] == p[j]
    ensures IpAt(q, k) == IpAt(p, k)
  {
  }

  /** The answer's destination port is the mapping's external port. */
  lemma AnswerPort(q: seq<byte>, y: Layout, f: Flow, myIp: Ipv4, m: seq<byte>, z: Layout)
    requires y.Complete(q) && z.Complete(m) && FieldsRead(q, y, SourceField(y.proto), f.ltePort, 12, myIp)
    requires var src := y.Seg() + SourceField(y.proto); TargetPort(m, z) == Be16(q[src], q[src + 1])
    ensures TargetPort(m, z) == f.ltePort
  {
  }

  /** The answer's source is where the packet went. */
  lemma AnswerSource(p: seq<byte>, q: seq<byte>, y: Layout, m: seq<byte>, z: Layout)
    requires y.Complete(p) && z.Complete(m) && SameBut(p, q, Written(y, SourceField(y.proto), 12))
    requires IpAt(m, z.b + 12) == IpAt(q, y.b + 16)
    ensures IpAt(m, z.b + 12) == IpAt(p, y.b + 16)
  {
    AddressKept(p, q, y, SourceField(y.proto), 12, 16);
  }

  lemma AnswerNamesMapping(p: seq<byte>, q: seq<byte>, y: Layout, f: Flow, isNew: bool, myIp: Ipv4,
                           m: seq<byte>, z: Layout)
    requires Answers(p, q, y, f, isNew, myIp, m, z)
    ensures TargetPort(m, z) == f.ltePort && z.proto == f.proto
    ensures IpAt(m, z.b + 12) == IpAt(p, y.b + 16)
    ensures isNew ==> f.serverIp == IpAt(p, y.b + 16)
  {
    AnswerPort(q, y, f, myIp, m, z);
    AnswerSource(p, q, y, m, z);
  }

  /** What the client gets back is addressed to where `p` came from, and comes from where it went. */
  ghost predicate Restored(p: seq<byte>, y: Layout, r: seq<byte>, z: Layout)
    requires y.Complete(p) && z.Complete(r)
  {
    var at := y.Seg() + SourceField(y.proto);
    && IpAt(r, z.b + 16) == IpAt(p, y.b + 12) && TargetPort(r, z) == Be16(p[at], p[at + 1])
    && IpAt(r, z.b + 12) == IpAt(p, y.b + 16)
  }

  lemma TargetIsClient(p: seq<byte>, y: Layout, f: Flow, z: Layout, r: seq<byte>)
    requires y.Complete(p) && z.Complete(r) && z.proto == y.proto
    requires ClientKey(RequestOf(f)) == ClientKey(RequestFrom(p, y))
    requires FieldsRead(r, z, TargetField(z.proto), f.ethPort, 16, f.clientIp)
    ensures IpAt(r, z.b + 16) == IpAt(p, y.b + 12)
    ensures var at := y.Seg() + SourceField(y.proto); TargetPort(r, z) == Be16(p[at], p[at + 1])
  {
  }

  lemma SourceIsServer(p: seq<byte>, y: Layout, m: seq<byte>, z: Layout, r: seq<byte>)
    requires y.Complete(p) && z.Complete(m) && IpAt(m, z.b + 12) == IpAt(p, y.b + 16)
    requires SameBut(m, r, Written(z, TargetField(z.proto), 16))
    ensures IpAt(r, z.b + 12) == IpAt(p, y.b + 16)
  {
    AddressKept(m, r, z, TargetField(z.proto), 16, 12);
  }

  lemma AnswerIsRestored(p: seq<byte>, y: Layout, f: Flow, m: seq<byte>, z: Layout, r: seq<byte>)
    requires y.Complete(p) && z.Complete(m) && z.proto == y.proto
    requires ClientKey(RequestOf(f)) == ClientKey(RequestFrom(p, y)) && IpAt(m, z.b + 12) == IpAt(p, y.b + 16)
    requires SameBut(m, r, Written(z, TargetField(z.proto), 16))
    requires FieldsRead(r, z, TargetField(z.proto), f.ethPort, 16, f.clientIp)
    ensures Restored(p, y, r, z)
  {
    TargetIsClient(p, y, f, z, r);
    SourceIsServer(p, y, m, z, r);
  }

  /** The bytes of a round trip: both packets verify, and the second has the client's original address
      and port as its destination. */
  lemma BytesRestored(p: seq<byte>, q: seq<byte>, y: Layout, f: Flow, isNew: bool, myIp: Ipv4,
                      m: seq<byte>, r: seq<byte>, z: Layout)
    requires Answers(p, q, y, f, isNew, myIp, m, z) && TranslatedIn(m, r, z, Some(f))
    ensures z.Complete(r) && Restored(p, y, r, z) && Verifies(r, z)
    ensures y.Complete(q) && Verifies(q, y)
  {
    AnswerNamesMapping(p, q, y, f, isNew, myIp, m, z);
    AnswerIsRestored(p, y, f, m, z, r);
    TranslationVerifies(p, q, y, SourceField(y.proto), f.ltePort, 12, myIp);
    TranslationVerifies(m, r, z, TargetField(z.proto), f.ethPort, 16, f.clientIp);
  }

  /** The NAT round trip. A packet `p` is sent out as `q` with mapping `f`; any steps follow that keep
      the mapping's row alive; then an answer `m` arrives and is translated to `r`. If `f` is for the
      server `p` went to, the answer has the client's original address and port as its destination, the
      two packets verify, and each differs from what came in only in the bytes translation names. */
  lemma RoundTripRestores(s: State, a: Action, f: Flow, i: nat, acts: seq<Action>, b: Action, myIp: Ipv4,
                          p: seq<byte>, q: seq<byte>, y: Layout, m: seq<byte>, r: seq<byte>, z: Layout)
    requires KeptThrough(s, a, f, i, acts, b)
    requires Answers(p, q, y, f, a.Open?, myIp, m, z) && InboundOf(m, z, b)
    requires f.serverIp == IpAt(p, y.b + 16)
    requires TranslatedIn(m, r, z, Mapping(Later(s, a, acts), b))
    ensures Mapping(Later(s, a, acts), b) == Some(f)
    ensures z.Complete(r) && Restored(p, y, r, z) && Verifies(r, z)
    ensures y.Complete(q) && Verifies(q, y)
    ensures SameBut(p, q, Written(y, SourceField(y.proto), 12)) && SameBut(m, r, Written(z, TargetField(z.proto), 16))
  {
    AnswerNamesMapping(p, q, y, f, a.Open?, myIp, m, z);
    KeptReply(s, a, f, i, acts, b);
    BytesRestored(p, q, y, f, a.Open?, myIp, m, r, z);
  }

  /** A mapping keeps the server it was made for. A later packet of the same client and port to another
      server goes out under it too, but answers get through only if they come from the first one: the
      round trip works exactly when the mapping's server is the packet's destination. */
  lemma AnswerGetsThroughIff(s: State, a: Action, f: Flow, i: nat, acts: seq<Action>, b: Action, myIp: Ipv4,
                             p: seq<byte>, q: seq<byte>, y: Layout, m: seq<byte>, z: Layout)
    requires KeptThrough(s, a, f, i, acts, b)
    requires Answers(p, q, y, f, a.Open?, myIp, m, z) && InboundOf(m, z, b)
    ensures Mapping(Later(s, a, acts), b).Some? <==> f.serverIp == IpAt(p, y.b + 16)
    ensures a.Open? ==> Mapping(Later(s, a, acts), b).Some?
  {
    AnswerNamesMapping(p, q, y, f, a.Open?, myIp, m, z);
    KeptReply(s, a, f, i, acts, b);
  }

  // ---------------------------------------------------------------- handler calls as runs

  /** What a call does to the cache, as a run of the cache. */
  function CacheActs(use: CacheUse, now: nat): (acts: seq<ArpAction>)
  {
    if use.NoUse? then [ArpTick(now)] else [ArpTick(use.start), use.act, ArpTick(now)]
  }

  lemma CacheStepIsRun(s: ArpState, use: CacheUse, s': ArpState)
    requires ArpShape(s) && CacheStep(s, use, s')
    ensures ArpTook(s, CacheActs(use, s'.now), s')
  {
    if use.NoUse? {
      ArpTookOne(s, ArpTick(s'.now));
    } else {
      var t := s.(now := use.start);
      var u := ArpNext(t, use.act);
      ArpTookOne(s, ArpTick(use.start));
      ArpTookOne(t, use.act);
      ArpTookOne(u, ArpTick(s'.now));
      ArpTookThen(s, [ArpTick(use.start)], t, [use.act], u);
      ArpTookThen(s, [ArpTick(use.start)] + [use.act], u, [ArpTick(s'.now)], s');
      assert CacheActs(use, s'.now) == [ArpTick(use.start)] + [use.act] + [ArpTick(s'.now)];
    }
  }

  /** What a handler call did to the port mapping: an outbound packet's steps, an inbound packet's, or
      none. */
  datatype Move = OutMove(step: Step) | InMove(act: Action) | NoMove

  /** A handler call, and the states it left. */
  datatype Call = Call(move: Move, use: CacheUse, s: State, c: ArpState)

  ghost predicate Moved(s: State, move: Move, s': State)
  {
    && Shape(s)
    && match move
       case OutMove(step) => MachineStep(s, step, s')
       case InMove(a) => Enabled(s, a) && Waited(Next(s, a), s')
       case NoMove => Waited(s, s')
  }

  /** The calls, one after the other, lead from `s` and `c` to `s'` and `c'`, each as its contract says. */
  ghost predicate Calls(s: State, c: ArpState, calls: seq<Call>, s': State, c': ArpState)
    decreases |calls|
  {
    if calls == [] then s' == s && c' == c
    else
      var k := calls[0];
      Moved(s, k.move, k.s) && CacheStep(c, k.use, k.c) && Calls(k.s, k.c, calls[1..], s', c')
  }

  function MoveActs(k: Call): (acts: seq<Action>)
  {
    match k.move
    case OutMove(step) => step.acts + [step.act] + [Tick(k.s.now)]
    case InMove(a) => [] + [a] + [Tick(k.s.now)]
    case NoMove => [] + [Tick(k.s.now)]
  }

  function AllMoveActs(calls: seq<Call>): (acts: seq<Action>)
  {
    if calls == [] then [] else MoveActs(calls[0]) + AllMoveActs(calls[1..])
  }

  function AllCacheActs(calls: seq<Call>): (acts: seq<ArpAction>)
  {
    if calls == [] then [] else CacheActs(calls[0].use, calls[0].c.now) + AllCacheActs(calls[1..])
  }

  lemma CallIsRun(s: State, k: Call)
    requires Moved(s, k.move, k.s)
    ensures Took(s, MoveActs(k), k.s) && Shape(k.s)
  {
    var tick := Tick(k.s.now);
    match k.move
    case OutMove(step) =>
      TookOneMore(s, step.acts, step.pre, step.act);
      TookOneMore(s, step.acts + [step.act], Next(step.pre, step.act), tick);
    case InMove(a) =>
      TookOneMore(s, [], s, a);
      TookOneMore(s, [] + [a], Next(s, a), tick);
    case NoMove =>
      TookOneMore(s, [], s, tick);
  }

  /** Handler calls in any number and order are a run of the port mapping and a run of the cache: what
      holds after any run holds after any calls. */
  lemma {:induction false} CallsAreRuns(s: State, c: ArpState, calls: seq<Call>, s': State, c': ArpState)
    requires Shape(s) && ArpShape(c) && Calls(s, c, calls, s', c')
    ensures Took(s, AllMoveActs(calls), s') && ArpTook(c, AllCacheActs(calls), c')
    decreases |calls|
  {
    if calls != [] {
      var k, rest := calls[0], calls[1..];
      CallIsRun(s, k);
      CacheStepIsRun(c, k.use, k.c);
      CallsAreRuns(k.s, k.c, rest, s', c');
      TookThen(s, MoveActs(k), k.s, AllMoveActs(rest), s');
      ArpTookThen(c, CacheActs(k.use, k.c.now), k.c, AllCacheActs(rest), c');
    }
  }

  // ---------------------------------------------------------------- from frame to frame

  /** A call of `EthReceive` that forwarded a packet: the states of mapping and cache before it and
      after, the packet as it was copied and as it was sent, the sender's MAC, and what was done. */
  datatype OutCall = OutCall(s: State, c: ArpState, p: seq<byte>, q: seq<byte>, y: Layout, mac: Mac,
                             step: Step, flow: Flow, use: CacheUse, s': State, c': ArpState)

  /** What `EthReceive` ensures of a packet it forwards. */
  ghost predicate Forwarding(k: OutCall, myIp: Ipv4)
  {
    && Inv(k.s) && ArpInv(k.c) && MachineStep(k.s, k.step, k.s') && CacheStep(k.c, k.use, k.c')
    && |k.q| >= k.y.len && k.y.b == 0
    && Outcome(k.s, k.p, k.q, k.y, k.step, Mapped(k.flow), k.use, Forwarded(k.q[..k.y.len]), k.mac, myIp)
  }

  /** A call of `LteReceive` for an accepted packet: `p` is the packet behind a place for the Ethernet
      header, `r` the same after translation. */
  datatype InCall = InCall(s: State, c: ArpState, p: seq<byte>, r: seq<byte>, y: Layout, act: Action, use: CacheUse,
                           out: EthOut, s': State, c': ArpState)

  /** What `LteReceive` ensures of such a packet. */
  ghost predicate Returning(j: InCall, myMac: Mac)
  {
    && j.y.b == ETH && j.y.Complete(j.p) && |j.r| == |j.p|
    && Received(j.s, j.act, j.s', j.p, j.r, j.y) && CacheStep(j.c, j.use, j.c')
    && Delivery(j.c, j.use, j.r, j.y, ClientOf(Mapping(j.s, j.act)), myMac, j.out)
  }

  /** `EthReceive`, called for any frame: if it forwards a packet, the call is such a record. */
  method ForwardFrame(dev: Device, frags: seq<seq<byte>>) returns (out: LteOut, ghost k: Option<OutCall>)
    requires dev.Valid() && dev.mapper.machine.pc.Idle?
    requires |frags| > 0 && Readable(frags[0]) && SoundOut(frags[0], dev.myMac)
    modifies dev.mapper`machine, dev.mapper.table.row, dev.mapper.gen, dev.mapper.clock
    modifies dev.arp`state, dev.arp.cache.row, dev.lteTx
    ensures dev.Valid() && (out.Forwarded? <==> k.Some?)
    ensures k.Some? ==>
              && Forwarding(k.value, dev.myIp) && CopiedBy(k.value, frags, old(dev.lteTx[..]))
              && out == Forwarded(k.value.q[..k.value.y.len])
              && k.value.s == old(dev.mapper.machine) && k.value.s' == dev.mapper.machine
              && k.value.c == old(dev.arp.state) && k.value.c' == dev.arp.state
  {
    ghost var s, c, before := dev.mapper.machine, dev.arp.state, dev.lteTx[..];
    ghost var step: Option<Step>, res: MapResult, use: CacheUse;
    out, step, res, use := dev.EthReceive(frags);
    k := None;
    if out.Forwarded? {
      ghost var p := Linearized(before, frags, TotalLen(frags[0], ETH));
      k := Some(OutCall(s, c, p, dev.lteTx[..], LayoutOf(frags[0], ETH, 0), frags[0][6..12],
                        step.value, res.flow, use, dev.mapper.machine, dev.arp.state));
    }
  }

  /** `LteReceive`, called for any packet: if it accepts the packet, the call is such a record. */
  method ReturnPacket(dev: Device, raw: seq<byte>, rawLen: int) returns (out: EthOut, ghost j: Option<InCall>)
    requires dev.Valid() && |raw| == MTU && SoundIn(raw, rawLen, dev.myIp)
    modifies dev.mapper`machine, dev.mapper.table.row, dev.mapper.clock
    modifies dev.arp`state, dev.arp.cache.row, dev.ethTx
    ensures dev.Valid() && (j.Some? <==> AcceptedIn(raw, rawLen, dev.myIp))
    ensures j.None? ==> out.Refused?
    ensures j.Some? ==>
              && Returning(j.value, dev.myMac) && Copied(raw, j.value.p, j.value.y) && out == j.value.out
              && j.value.s == old(dev.mapper.machine) && j.value.s' == dev.mapper.machine
              && j.value.c == old(dev.arp.state) && j.value.c' == dev.arp.state
  {
    ghost var s, c := dev.mapper.machine, dev.arp.state;
    ghost var a: Option<Action>, p: seq<byte>, r: seq<byte>, use: CacheUse;
    out, a, p, r, use := dev.LteReceive(raw, rawLen);
    j := None;
    if a.Some? {
      j := Some(InCall(s, c, p, r, LayoutOf(raw, 0, ETH), a.value, use, out, dev.mapper.machine, dev.arp.state));
    }
  }

  lemma CallKeepsInv(s: State, step: Step, s': State)
    requires Inv(s) && MachineStep(s, step, s')
    ensures Inv(step.pre) && Inv(s')
  {
    RunKeepsInv(s, step.acts);
    StepKeepsInv(step.pre, step.act);
    StepKeepsInv(Next(step.pre, step.act), Tick(s'.now));
  }

  /** Row `i`, with this mapping, is what the call found or opened. */
  ghost predicate UsedRow(step: Step, s': State, f: Flow, i: nat)
  {
    && Shape(step.pre) && Enabled(step.pre, step.act) && (step.act.Outbound? || step.act.Open?) && Shape(s')
    && i == RowUsed(step.pre, step.act) && Live(s'.rows[i]) && Identity(s'.rows[i]) == f
  }

  lemma CallUsesRow(s: State, step: Step, s': State, req: Request, f: Flow) returns (i: nat)
    requires Inv(s) && MachineStep(s, step, s') && MapOutcome(s, req, step, Mapped(f))
    ensures UsedRow(step, s', f, i)
  {
    CallKeepsInv(s, step, s');
    MappedRow(step.pre, step.act);
    i := RowUsed(step.pre, step.act);
  }

  /** Any steps that keep row `i` alive may come between the two calls; the answer comes in time. */
  ghost predicate InTime(s: State, i: nat, acts: seq<Action>, s': State, b: Action)
  {
    && Took(s, acts, s') && i < ROWS && KeptAlive(s, acts, i)
    && b.Inbound? && b.at < s'.touched[i] + 20_000
  }

  /** The answer finds the mapping the packet was sent with, if that is for the packet's destination. */
  lemma AnswerIsMapped(k: OutCall, i: nat, acts: seq<Action>, s': State, b: Action, myIp: Ipv4, m: seq<byte>, z: Layout)
    requires Inv(k.s') && UsedRow(k.step, k.s', k.flow, i) && InTime(k.s', i, acts, s', b) && Enabled(s', b)
    requires Answers(k.p, k.q, k.y, k.flow, k.step.act.Open?, myIp, m, z) && InboundOf(m, z, b)
    ensures Mapping(s', b) == if k.flow.serverIp == IpAt(k.p, k.y.b + 16) then Some(k.flow) else None
  {
    AnswerNamesMapping(k.p, k.q, k.y, k.flow, k.step.act.Open?, myIp, m, z);
    ReplyFindsRowIff(k.s', acts, i, b);
  }

  /** What the second call gets, in answer to what the first one sent. */
  ghost predicate Answered(k: OutCall, i: nat, acts: seq<Action>, j: InCall, myIp: Ipv4)
  {
    && UsedRow(k.step, k.s', k.flow, i) && InTime(k.s', i, acts, j.s, j.act)
    && Answers(k.p, k.q, k.y, k.flow, k.step.act.Open?, myIp, j.p, j.y)
    && k.flow.serverIp == IpAt(k.p, k.y.b + 16)
  }

  /** The two handlers together, whatever calls come between: what `EthReceive` promises of a packet it
      forwards and `LteReceive` of the answer it gets make the round trip. */
  lemma HandlersRoundTrip(k: OutCall, i: nat, acts: seq<Action>, j: InCall, myIp: Ipv4, myMac: Mac)
    requires Forwarding(k, myIp) && Returning(j, myMac) && Answered(k, i, acts, j, myIp)
    ensures Mapping(j.s, j.act) == Some(k.flow)
    ensures j.y.Complete(j.r) && Restored(k.p, k.y, j.r, j.y) && Verifies(j.r, j.y)
    ensures k.y.Complete(k.q) && Verifies(k.q, k.y)
  {
    CallKeepsInv(k.s, k.step, k.s');
    AnswerIsMapped(k, i, acts, j.s, j.act, myIp, j.p, j.y);
    BytesRestored(k.p, k.q, k.y, k.flow, k.step.act.Open?, myIp, j.p, j.r, j.y);
  }

  // ---------------------------------------------------------------- the client's MAC

  lemma LearntInCall(c: ArpState, use: CacheUse, c': ArpState, ip: Ipv4, mac: Mac)
    requires ArpInv(c) && CacheStep(c, use, c') && Teaches(use, Some((ip, mac))) && ip != ZERO_IP
    ensures ArpInv(c')
    ensures if HasRoom(c, use, ip) then Keeps(c', ip, mac, use.act.at) else ArpFind(c'.rows, ip) < 0
  {
    var t := c.(now := use.start);
    ArpStepKeepsInv(c, ArpTick(use.start));
    ArpStepKeepsInv(t, use.act);
    ArpStepKeepsInv(ArpNext(t, use.act), ArpTick(c'.now));
    LearntKeeps(t, use.act);
  }

  lemma AnsweredInCall(c: ArpState, use: CacheUse, c': ArpState, ip: Ipv4, mac: Mac, since: nat)
    requires ArpInv(c) && CacheStep(c, use, c') && use.Use? && use.act.Lookup? && use.act.ip == ip
    requires ip != ZERO_IP && Keeps(c, ip, mac, since) && use.act.at < since + ARP_TIMEOUT
    ensures Answer(c.(now := use.start), use.act) == Some(mac)
  {
    var t := c.(now := use.start);
    ArpStepKeepsInv(c, ArpTick(use.start));
    SweepSpares(t, use.act.times, use.act.at, ip, mac, since);
  }

  /** The cache steps between the two calls teach no other MAC for the client, and the lookup comes
      within 20 minutes. */
  ghost predicate MacKept(k: OutCall, acts: seq<ArpAction>, j: InCall)
  {
    && k.use.Use? && j.use.Use? && ArpTook(k.c', acts, j.c)
    && AllSpare(acts, k.flow.clientIp, k.mac, k.use.act.at) && j.use.act.at < k.use.act.at + 1_200_000
  }

  /** After its own sweep the update found the address's row or a free one. */
  ghost predicate HasRoom(c: ArpState, use: CacheUse, ip: Ipv4)
  {
    use.Use? && use.act.Learn? && |use.act.times| == |c.rows| && !FullOfOthers(ArpSweep(c.rows, use.act.times), ip)
  }

  lemma MacIsFound(k: OutCall, acts: seq<ArpAction>, j: InCall)
    requires Taught(k) && k.flow.clientIp != ZERO_IP && HasRoom(k.c, k.use, k.flow.clientIp)
    requires MacKept(k, acts, j) && CacheStep(j.c, j.use, j.c') && j.use.act.Lookup? && j.use.act.ip == k.flow.clientIp
    ensures Answer(j.c.(now := j.use.start), j.use.act) == Some(k.mac)
  {
    LearntInCall(k.c, k.use, k.c', k.flow.clientIp, k.mac);
    RunSpares(k.c', acts, k.flow.clientIp, k.mac, k.use.act.at);
    ArpRunKeeps(k.c', acts);
    AnsweredInCall(j.c, j.use, j.c', k.flow.clientIp, k.mac, k.use.act.at);
  }

  lemma MacIsMissing(k: OutCall, acts: seq<ArpAction>, j: InCall)
    requires Taught(k) && k.flow.clientIp != ZERO_IP && !HasRoom(k.c, k.use, k.flow.clientIp)
    requires ArpTook(k.c', acts, j.c)
    requires forall n :: 0 <= n < |acts| && acts[n].Learn? ==> acts[n].ip != k.flow.clientIp
    requires CacheStep(j.c, j.use, j.c') && j.use.Use? && j.use.act.Lookup? && j.use.act.ip == k.flow.clientIp
    ensures Answer(j.c.(now := j.use.start), j.use.act) == None
  {
    LearntInCall(k.c, k.use, k.c', k.flow.clientIp, k.mac);
    UnknownStays(k.c', acts, k.flow.clientIp);
  }

  /** The two calls of a round trip. The cache had room for the client's MAC. */
  ghost predicate RoundTrips(k: OutCall, i: nat, acts: seq<Action>, cacts: seq<ArpAction>, j: InCall, myIp: Ipv4,
                             myMac: Mac)
  {
    && Forwarding(k, myIp) && Returning(j, myMac) && Answered(k, i, acts, j, myIp) && MacKept(k, cacts, j)
    && k.flow.clientIp != ZERO_IP && HasRoom(k.c, k.use, k.flow.clientIp)
  }

  ghost predicate Delivered(k: OutCall, j: InCall, myMac: Mac)
  {
    && k.y.Complete(k.p) && j.y.Complete(j.r) && j.y.b == ETH
    && Restored(k.p, k.y, j.r, j.y) && Verifies(j.r, j.y)
    && j.out == Framed(k.mac + myMac + [0x08, 0x00] + j.r[ETH..ETH + j.y.len])
  }

  /** The answer finds the mapping and is restored. */
  ghost predicate BytesBack(k: OutCall, j: InCall)
  {
    && Shape(j.s) && Enabled(j.s, j.act) && Mapping(j.s, j.act) == Some(k.flow)
    && k.y.Complete(k.p) && j.y.Complete(j.r) && j.y.b == ETH && Restored(k.p, k.y, j.r, j.y) && Verifies(j.r, j.y)
  }

  lemma BytesReturn(k: OutCall, i: nat, acts: seq<Action>, j: InCall, myIp: Ipv4, myMac: Mac)
    requires Forwarding(k, myIp) && Returning(j, myMac) && Answered(k, i, acts, j, myIp)
    ensures BytesBack(k, j)
  {
    HandlersRoundTrip(k, i, acts, j, myIp, myMac);
  }

  /** The first call taught the cache the client's MAC, or tried to. */
  ghost predicate Taught(k: OutCall)
  {
    ArpInv(k.c) && CacheStep(k.c, k.use, k.c') && Teaches(k.use, Some((k.flow.clientIp, k.mac)))
  }

  lemma ForwardingTeaches(k: OutCall, myIp: Ipv4)
    requires Forwarding(k, myIp)
    ensures Taught(k)
  {
  }

  /** The second call asks the cache for the client's MAC, and frames the packet with the answer. */
  ghost predicate Asked(k: OutCall, j: InCall, myMac: Mac)
  {
    && CacheStep(j.c, j.use, j.c') && ETH + j.y.len <= |j.r|
    && Framing(j.c, j.use, j.r, j.y.len, k.flow.clientIp, myMac, j.out)
  }

  lemma ReturningAsks(k: OutCall, j: InCall, myMac: Mac)
    requires Returning(j, myMac) && Mapping(j.s, j.act) == Some(k.flow)
    ensures Asked(k, j, myMac)
  {
  }

  /** The answer reaches the client: the frame is addressed to the MAC the client's own packet came from,
      and carries the restored packet. */
  lemma AnswerIsFramed(k: OutCall, i: nat, acts: seq<Action>, cacts: seq<ArpAction>, j: InCall, myIp: Ipv4, myMac: Mac)
    requires RoundTrips(k, i, acts, cacts, j, myIp, myMac)
    ensures Delivered(k, j, myMac)
  {
    BytesReturn(k, i, acts, j, myIp, myMac);
    ForwardingTeaches(k, myIp);
    ReturningAsks(k, j, myMac);
    FrameMade(k, cacts, j, myMac);
  }

  lemma FrameMade(k: OutCall, acts: seq<ArpAction>, j: InCall, myMac: Mac)
    requires BytesBack(k, j) && Taught(k) && Asked(k, j, myMac)
    requires MacKept(k, acts, j) && k.flow.clientIp != ZERO_IP && HasRoom(k.c, k.use, k.flow.clientIp)
    ensures Delivered(k, j, myMac)
  {
    MacIsFound(k, acts, j);
  }

  /** If the cache had no room for the client's MAC, and it is not learnt until the answer comes, the
      answer is translated but cannot be sent on yet. */
  lemma AnswerWaits(k: OutCall, i: nat, acts: seq<Action>, cacts: seq<ArpAction>, j: InCall, myIp: Ipv4, myMac: Mac)
    requires Forwarding(k, myIp) && Returning(j, myMac) && Answered(k, i, acts, j, myIp)
    requires k.flow.clientIp != ZERO_IP && !HasRoom(k.c, k.use, k.flow.clientIp) && ArpTook(k.c', cacts, j.c)
    requires forall n :: 0 <= n < |cacts| && cacts[n].Learn? ==> cacts[n].ip != k.flow.clientIp
    ensures j.out == Unresolved(k.flow.clientIp)
  {
    HandlersRoundTrip(k, i, acts, j, myIp, myMac);
    ForwardingTeaches(k, myIp);
    ReturningAsks(k, j, myMac);
    MacIsMissing(k, cacts, j);
  }

  /** The outbound packet is what the copy loop made of the frame. */
  ghost predicate CopiedBy(k: OutCall, frags: seq<seq<byte>>, before: seq<byte>)
  {
    && |frags| > 0 && |frags[0]| >= 34 && k.mac == frags[0][6..12] && k.y == LayoutOf(frags[0], ETH, 0)
    && k.y.len <= |before| && k.p == Linearized(before, frags, k.y.len)
  }

  /** And the frame is one it copies right. */
  ghost predicate CopiedFrom(k: OutCall, frags: seq<seq<byte>>, before: seq<byte>)
  {
    && CopiedBy(k, frags, before)
    && (|frags[0]| <= MTU || k.y.len <= MTU - ETH) && ETH + k.y.len <= |Reach(frags, 0)|
  }

  /** What a frame lacks of the length it declares is sent from the buffer, under checksums that verify:
      every such byte that translation does not write is one of an earlier packet. */
  lemma MissingBytesAreOld(k: OutCall, frags: seq<seq<byte>>, before: seq<byte>, myIp: Ipv4)
    requires Forwarding(k, myIp) && CopiedBy(k, frags, before)
    ensures k.y.Complete(k.q) && Verifies(k.q, k.y)
    ensures forall n :: |Payload(frags, 0)| <= n < k.y.len && n !in Written(k.y, SourceField(k.y.proto), 12) ==>
              k.q[n] == before[n]
  {
    TranslationVerifies(k.p, k.q, k.y, SourceField(k.y.proto), k.flow.ltePort, 12, myIp);
    forall n | |Payload(frags, 0)| <= n < k.y.len && n !in Written(k.y, SourceField(k.y.proto), 12)
      ensures k.q[n] == before[n]
    {
      StaleTail(before, frags, k.y.len, n);
    }
  }

  lemma CopiedFields(k: OutCall, frags: seq<seq<byte>>, before: seq<byte>)
    requires CopiedFrom(k, frags, before) && k.y.Complete(k.p)
    ensures var d, at := Frame(frags, 0), k.y.hl + SourceField(k.y.proto);
            && ETH + at + 2 <= |d| && 34 <= |d| && d[6..12] == k.mac
            && IpAt(d, 26) == IpAt(k.p, 12) && IpAt(d, 30) == IpAt(k.p, 16)
            && Be16(d[ETH + at], d[ETH + at + 1]) == Be16(k.p[at], k.p[at + 1])
  {
    LinearizedIsPacket(before, frags, k.y.len);
    var d, at, n := Frame(frags, 0), k.y.hl + SourceField(k.y.proto), k.y.len;
    assert forall j :: 0 <= j < n ==> k.p[j] == k.p[..n][j] == d[ETH..ETH + n][j] == d[ETH + j];
    assert d[6..12] == frags[0][6..12];
  }

  lemma FramedFields(g: seq<byte>, header: seq<byte>, r: seq<byte>, y: Layout)
    requires y.Complete(r) && y.b == ETH && |header| == ETH && g == header + r[ETH..ETH + y.len]
    ensures var at := ETH + y.hl + TargetField(y.proto);
            && |g| == ETH + y.len && at + 2 <= |g| && g[..ETH] == header
            && IpAt(g, 26) == IpAt(r, 26) && IpAt(g, 30) == IpAt(r, 30)
            && Be16(g[at], g[at + 1]) == TargetPort(r, y)
  {
    assert forall j :: ETH <= j < |g| ==> g[j] == r[j];
  }

  /** A frame out of the client and a frame back to it: the second is addressed to the MAC, the address
      and the port or identifier the first came from, and comes from the address the first went to. */
  ghost predicate FrameReturned(d: seq<byte>, from: nat, g: seq<byte>, to: nat)
  {
    && 34 <= |d| && from + 2 <= |d| && 34 <= |g| && to + 2 <= |g|
    && g[..6] == d[6..12] && IpAt(g, 30) == IpAt(d, 26) && IpAt(g, 26) == IpAt(d, 30)
    && Be16(g[to], g[to + 1]) == Be16(d[from], d[from + 1])
  }

  ghost predicate ClientServed(k: OutCall, frags: seq<seq<byte>>, j: InCall)
  {
    && j.out.Framed?
    && FrameReturned(Frame(frags, 0), ETH + k.y.hl + SourceField(k.y.proto),
                     j.out.frame, ETH + j.y.hl + TargetField(j.y.proto))
  }

  lemma FrameToFrame(k: OutCall, frags: seq<seq<byte>>, before: seq<byte>, i: nat, acts: seq<Action>,
                     cacts: seq<ArpAction>, j: InCall, myIp: Ipv4, myMac: Mac)
    requires CopiedFrom(k, frags, before) && RoundTrips(k, i, acts, cacts, j, myIp, myMac)
    ensures ClientServed(k, frags, j)
  {
    AnswerIsFramed(k, i, acts, cacts, j, myIp, myMac);
    DeliveredServes(k, frags, before, j, myMac);
  }

  lemma DeliveredServes(k: OutCall, frags: seq<seq<byte>>, before: seq<byte>, j: InCall, myMac: Mac)
    requires CopiedFrom(k, frags, before) && Delivered(k, j, myMac)
    ensures ClientServed(k, frags, j)
  {
    FramesMatch(k, frags, before, j.r, j.y, j.out.frame, k.mac + myMac + [0x08, 0x00]);
  }

  lemma FramesMatch(k: OutCall, frags: seq<seq<byte>>, before: seq<byte>, r: seq<byte>, z: Layout, g: seq<byte>,
                    header: seq<byte>)
    requires CopiedFrom(k, frags, before) && k.y.Complete(k.p) && z.Complete(r) && z.b == ETH
    requires Restored(k.p, k.y, r, z)
    requires |header| == ETH && header[..6] == k.mac && g == header + r[ETH..ETH + z.len]
    ensures FrameReturned(Frame(frags, 0), ETH + k.y.hl + SourceField(k.y.proto),
                          g, ETH + z.hl + TargetField(z.proto))
  {
    CopiedFields(k, frags, before);
    FramedFields(g, header, r, z);
    Assembled(k, Frame(frags, 0), r, z, g, header);
  }

  lemma Assembled(k: OutCall, d: seq<byte>, r: seq<byte>, z: Layout, g: seq<byte>, header: seq<byte>)
    requires k.y.Complete(k.p) && k.y.b == 0 && z.Complete(r) && z.b == ETH && Restored(k.p, k.y, r, z)
    requires var from := k.y.hl + SourceField(k.y.proto);
             && 34 <= |d| && ETH + from + 2 <= |d| && d[6..12] == k.mac
             && IpAt(d, 26) == IpAt(k.p, 12) && IpAt(d, 30) == IpAt(k.p, 16)
             && Be16(d[ETH + from], d[ETH + from + 1]) == Be16(k.p[from], k.p[from + 1])
    requires var to := ETH + z.hl + TargetField(z.proto);
             && 34 <= |g| && to + 2 <= |g| && |header| == ETH && g[..ETH] == header && header[..6] == k.mac
             && IpAt(g, 26) == IpAt(r, 26) && IpAt(g, 30) == IpAt(r, 30)
             && Be16(g[to], g[to + 1]) == TargetPort(r, z)
    ensures FrameReturned(d, ETH + k.y.hl + SourceField(k.y.proto), g, ETH + z.hl + TargetField(z.proto))
  {
    assert g[..6] == g[..ETH][..6];
  }
}
