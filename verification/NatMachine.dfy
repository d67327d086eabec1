/** The port mapping as a state machine. One thread sends packets out: it looks a client up, chooses
    an external port, and opens a row, in separate steps. Another thread looks inbound packets up,
    and may do so between any two of those steps, or between two comparisons of the port search. */
module NatMachine {
  import opened Wrappers
  import opened Bytes
  import opened PortTable
  import opened PortChoice

  /** The five identity fields of a row. */
  datatype Flow = Flow(proto: byte, clientIp: Ipv4, ethPort: u16, serverIp: Ipv4, ltePort: u16)

  /** What an outbound packet brings to the table. */
  datatype Request = Request(proto: byte, clientIp: Ipv4, ethPort: u16, serverIp: Ipv4)

  /** An external name: an ICMP identifier, or a port shared by all other protocols. */
  datatype Ext = Ext(icmp: bool, port: u16)

  /** History, kept only to state properties with. */
  datatype Event =
    | Sent(req: Request)
    | Opened(flow: Flow, at: nat, steps: nat)
    | Refreshed(flow: Flow, at: nat)
    | Closed(flow: Flow, at: nat)

  /** Where the outbound thread stands. */
  datatype Pc =
    | Idle
    | Missed(req: Request)
    | Probing(req: Request, port: u16, next: nat)
    | Chosen(req: Request, port: u16)

  /** `rows` and `portSeq` are the firmware's own state. `now` is the true time; `touched[i]` the
      true time row `i` was last stamped; `swept` a time no later than the samples of the last
      sweep; `steps` all increments of `port_seq` so far. */
  datatype State = State(
    rows: seq<Row>, portSeq: nat, pc: Pc,
    now: nat, touched: seq<nat>, swept: nat, steps: nat, log: seq<Event>)

  /** `Choose` is a whole port search, `Spin` one that has failed for `n` candidates so far, `Probe` a
      single comparison of one. */
  datatype Action =
    | Tick(at: nat)
    | Outbound(req: Request, times: seq<nat>, at: nat)
    | Choose(n: nat)
    | Spin(n: nat)
    | Probe
    | Open(times: seq<nat>, mid: nat, times2: seq<nat>, at: nat)
    | Inbound(proto: byte, serverIp: Ipv4, port: u16, times: seq<nat>, at: nat)
    | Remove(key: Key, times: seq<nat>, at: nat)

  function Identity(r: Row): (f: Flow)
  {
    Flow(r.proto, r.clientIp, r.ethPort, r.serverIp, r.ltePort)
  }

  function RowOf(f: Flow, t: nat): (r: Row)
  {
    Row(f.proto, f.clientIp, f.ethPort, f.serverIp, f.ltePort, t % WRAP32)
  }

  function ExtOf(f: Flow): (x: Ext)
  {
    Ext(f.proto == ICMP, f.ltePort)
  }

  function ClientKey(q: Request): (k: Key)
  {
    Client(q.proto, q.clientIp, q.ethPort)
  }

  function RequestOf(f: Flow): (q: Request)
  {
    Request(f.proto, f.clientIp, f.ethPort, f.serverIp)
  }

  function FlowOf(q: Request, port: u16): (f: Flow)
  {
    Flow(q.proto, q.clientIp, q.ethPort, q.serverIp, port)
  }

  // ---------------------------------------------------------------- steps

  ghost predicate Shape(s: State)
  {
    |s.rows| == ROWS && |s.touched| == ROWS && s.portSeq < SEQ
  }

  function Init(portSeq: nat, now: nat): (s: State)
    requires portSeq < SEQ
  {
    State(seq(ROWS, _ => ZERO_ROW), portSeq, Idle, now, seq(ROWS, _ => 0), now, portSeq, [])
  }

  function Swept(s: State, times: seq<nat>, at: nat): (s': State)
    requires |times| == |s.rows|
  {
    s.(rows := Sweep(s.rows, times), now := at, swept := s.now)
  }

  function Refresh(s: State, i: nat): (s': State)
    requires i < |s.rows| == |s.touched|
  {
    s.(rows := s.rows[i := Stamped(s.rows[i], s.now)], touched := s.touched[i := s.now],
       log := s.log + [Refreshed(Identity(s.rows[i]), s.now)])
  }

  function Insert(s: State, i: nat, f: Flow): (s': State)
    requires i < |s.rows| == |s.touched|
  {
    s.(rows := s.rows[i := RowOf(f, s.now)], touched := s.touched[i := s.now],
       log := s.log + [Opened(f, s.now, s.steps)])
  }

  function Close(s: State, i: nat): (s': State)
    requires i < |s.rows| == |s.touched|
  {
    s.(rows := s.rows[i := ZERO_ROW], log := s.log + [Closed(Identity(s.rows[i]), s.now)])
  }

  ghost predicate Enabled(s: State, a: Action)
    requires Shape(s)
  {
    match a
    case Tick(at) => s.now <= at
    case Outbound(req, times, at) =>
      s.pc.Idle? && req.proto in {ICMP, TCP, UDP} && Samples(times, ROWS, s.now, at)
    case Choose(n) => s.pc.Missed? && FirstFree(s.rows, s.pc.req.proto == ICMP, s.portSeq, n)
    case Spin(n) => s.pc.Missed? && Fruitless(s.rows, s.pc.req.proto == ICMP, s.portSeq, n)
    case Probe => s.pc.Missed? || s.pc.Probing?
    case Open(times, mid, times2, at) =>
      s.pc.Chosen? && Samples(times, ROWS, s.now, mid) && Samples(times2, ROWS, mid, at)
    case Inbound(_, _, _, times, at) => Samples(times, ROWS, s.now, at)
    case Remove(key, times, at) => !key.Vacant? && Samples(times, ROWS, s.now, at)
  }

  /** One comparison of the port search, or the move to its next candidate. */
  function Probed(s: State): (s': State)
    requires s.portSeq < SEQ
    requires s.pc.Missed? || s.pc.Probing?
  {
    match s.pc
    case Missed(req) =>
      var q := Advance(s.portSeq, 1);
      s.(portSeq := q, steps := s.steps + 1, pc := Probing(req, Candidate(req.proto == ICMP, q), 0))
    case Probing(req, port, next) =>
      if next >= |s.rows| then s.(pc := Chosen(req, port))
      else if Blocks(s.rows[next], req.proto == ICMP, port) then s.(pc := Missed(req))
      else s.(pc := Probing(req, port, next + 1))
  }

  ghost function Next(s: State, a: Action): (s': State)
    requires Shape(s) && Enabled(s, a)
    ensures Shape(s')
  {
    match a
    case Tick(at) => s.(now := at)
    case Outbound(req, times, at) =>
      var t := Swept(s, times, at).(log := s.log + [Sent(req)]);
      var i := Find(t.rows, ClientKey(req));
      if i < 0 then t.(pc := Missed(req)) else Refresh(t, i)
    case Choose(n) =>
      var q := Advance(s.portSeq, n);
      s.(portSeq := q, steps := s.steps + n, pc := Chosen(s.pc.req, Candidate(s.pc.req.proto == ICMP, q)))
    case Spin(n) => s.(portSeq := Advance(s.portSeq, n), steps := s.steps + n)
    case Probe => Probed(s)
    case Open(times, mid, times2, at) =>
      var t := Swept(Swept(s, times, mid), times2, at).(pc := Idle);
      var i := Find(t.rows, Vacant);
      if i < 0 then t else Insert(t, i, FlowOf(s.pc.req, s.pc.port))
    case Inbound(proto, ip, port, times, at) =>
      var t := Swept(s, times, at);
      var i := Find(t.rows, Server(proto, ip, port));
      if i < 0 then t else Refresh(t, i)
    case Remove(key, times, at) =>
      var t := Swept(s, times, at);
      var i := Find(t.rows, key);
      if i < 0 then t else Close(t, i)
  }

  /** The row an action hits or opens, which the packet is then translated with. */
  ghost function Mapping(s: State, a: Action): (f: Option<Flow>)
    requires Shape(s) && Enabled(s, a)
  {
    match a
    case Outbound(req, times, at) =>
      var rows := Sweep(s.rows, times);
      var i := Find(rows, ClientKey(req));
      if i < 0 then None else Some(Identity(rows[i]))
    case Open(times, mid, times2, at) =>
      if Find(Sweep(Sweep(s.rows, times), times2), Vacant) < 0 then None
      else Some(FlowOf(s.pc.req, s.pc.port))
    case Inbound(proto, ip, port, times, at) =>
      var rows := Sweep(s.rows, times);
      var i := Find(rows, Server(proto, ip, port));
      if i < 0 then None else Some(Identity(rows[i]))
    case _ => None
  }

  // ---------------------------------------------------------------- history

  /** The last event about an external name. */
  function LastEvent(log: seq<Event>, x: Ext): (e: Option<Event>)
    ensures e.Some? ==> !e.value.Sent? && ExtOf(e.value.flow) == x && e.value in log
  {
    if log == [] then None
    else
      var e := log[|log| - 1];
      if !e.Sent? && ExtOf(e.flow) == x then Some(e) else LastEvent(log[..|log| - 1], x)
  }

  /** The flow an external name was last given to. */
  function LastOpened(log: seq<Event>, x: Ext): (f: Option<Flow>)
    ensures f.Some? ==> ExtOf(f.value) == x
  {
    if log == [] then None
    else
      var e := log[|log| - 1];
      if e.Opened? && ExtOf(e.flow) == x then Some(e.flow) else LastOpened(log[..|log| - 1], x)
  }

  lemma AfterAppend(log: seq<Event>, e: Event, x: Ext)
    ensures LastEvent(log + [e], x) == if !e.Sent? && ExtOf(e.flow) == x then Some(e) else LastEvent(log, x)
    ensures LastOpened(log + [e], x) == if e.Opened? && ExtOf(e.flow) == x then Some(e.flow) else LastOpened(log, x)
  {
  }

  // ---------------------------------------------------------------- invariant

  ghost predicate UniqueClients(rows: seq<Row>)
  {
    forall i, j :: 0 <= i < j < |rows| && Live(rows[i]) && Live(rows[j]) ==>
      rows[i].proto != rows[j].proto || rows[i].clientIp != rows[j].clientIp || rows[i].ethPort != rows[j].ethPort
  }

  ghost predicate UniqueExts(rows: seq<Row>)
  {
    forall i, j :: 0 <= i < j < |rows| && Live(rows[i]) && Live(rows[j]) ==>
      ExtOf(Identity(rows[i])) != ExtOf(Identity(rows[j]))
  }

  /** No row at all for the request's client, and, once a port is chosen, none with that name. */
  ghost predicate PcOk(s: State)
    requires Shape(s)
  {
    match s.pc
    case Idle => true
    case Missed(req) => Unmapped(s, req)
    case Probing(req, port, next) =>
      && Unmapped(s, req) && next <= |s.rows|
      && port == Candidate(req.proto == ICMP, s.portSeq)
      && forall i :: 0 <= i < next ==> !Blocks(s.rows[i], req.proto == ICMP, port)
    case Chosen(req, port) =>
      && Unmapped(s, req)
      && port == Candidate(req.proto == ICMP, s.portSeq)
      && forall i :: 0 <= i < |s.rows| ==> !Blocks(s.rows[i], req.proto == ICMP, port)
  }

  ghost predicate Unmapped(s: State, req: Request)
  {
    && req.proto in {ICMP, TCP, UDP}
    && Sent(req) in s.log
    && forall i :: 0 <= i < |s.rows| ==> !Matches(s.rows[i], ClientKey(req))
  }

  ghost predicate Stamps(s: State)
    requires Shape(s)
  {
    && s.swept <= s.now
    && forall i :: 0 <= i < |s.rows| && Live(s.rows[i]) ==>
         s.touched[i] <= s.now && s.rows[i].ts == s.touched[i] % WRAP32
  }

  /** The last event about a live row's external name is its last stamp, and it is its holder. */
  ghost predicate LoggedRow(s: State, i: nat)
    requires i < |s.rows| == |s.touched|
  {
    var f := Identity(s.rows[i]);
    var e := LastEvent(s.log, ExtOf(f));
    && e.Some? && !e.value.Closed? && e.value.flow == f && e.value.at == s.touched[i]
    && LastOpened(s.log, ExtOf(f)) == Some(f)
  }

  ghost predicate Logged(s: State)
    requires Shape(s)
  {
    forall i :: 0 <= i < |s.rows| && Live(s.rows[i]) ==> LoggedRow(s, i)
  }

  /** Every row was opened for a packet sent before. */
  ghost predicate Originated(log: seq<Event>)
  {
    forall k :: 0 <= k < |log| && log[k].Opened? ==> Sent(RequestOf(log[k].flow)) in log[..k]
  }

  ghost predicate Settled(pc: Pc)
  {
    pc.Idle? || pc.Missed?
  }

  /** Each opening consumed at least one new step of the port sequence, and its port is the
      candidate of that step. */
  ghost predicate Numbered(s: State)
  {
    && s.portSeq == s.steps % SEQ
    && (forall k :: 0 <= k < |s.log| && s.log[k].Opened? ==>
          && s.log[k].flow.ltePort == Candidate(s.log[k].flow.proto == ICMP, s.log[k].steps % SEQ)
          && if Settled(s.pc) then s.log[k].steps <= s.steps else s.log[k].steps < s.steps)
    && forall j, k :: 0 <= j < k < |s.log| && s.log[j].Opened? && s.log[k].Opened? ==>
         s.log[j].steps < s.log[k].steps
  }

  ghost predicate Inv(s: State)
  {
    && Shape(s)
    && UniqueClients(s.rows)
    && UniqueExts(s.rows)
    && PcOk(s)
    && Stamps(s)
    && Logged(s)
    && Originated(s.log)
    && Numbered(s)
  }

  lemma InitHolds(portSeq: nat, now: nat)
    requires portSeq < SEQ
    ensures Inv(Init(portSeq, now))
  {
  }

  // ---------------------------------------------------------------- preservation, piece by piece

  /** Rows only leave the table, or keep their identity. */
  ghost predicate Subtable(rows': seq<Row>, rows: seq<Row>)
  {
    && |rows'| == |rows|
    && forall i :: 0 <= i < |rows| && Live(rows'[i]) ==> Live(rows[i]) && Identity(rows'[i]) == Identity(rows[i])
  }

  lemma SubtableKeeps(s: State, s': State)
    requires Inv(s) && Shape(s')
    requires Subtable(s'.rows, s.rows)
    requires s'.pc == s.pc && s'.portSeq == s.portSeq && s'.steps == s.steps && s.log <= s'.log
    ensures UniqueClients(s'.rows) && UniqueExts(s'.rows) && PcOk(s')
  {
    assert forall e :: e in s.log ==> e in s'.log;
    forall i | 0 <= i < |s'.rows| && Live(s'.rows[i])
      ensures Live(s.rows[i]) && Identity(s'.rows[i]) == Identity(s.rows[i])
    {
    }
  }

  lemma SweptKeeps(s: State, times: seq<nat>, at: nat)
    requires Inv(s) && Samples(times, ROWS, s.now, at)
    ensures Inv(Swept(s, times, at))
  {
    var s' := Swept(s, times, at);
    SubtableKeeps(s, s');
    forall i | 0 <= i < |s'.rows| && Live(s'.rows[i]) ensures LoggedRow(s', i) {
      assert s'.rows[i] == s.rows[i] && LoggedRow(s, i);
    }
  }

  lemma LogKeeps(s: State, e: Event, i: nat)
    requires Shape(s) && i < |s.rows| && LoggedRow(s, i)
    requires !e.Sent? ==> ExtOf(e.flow) != ExtOf(Identity(s.rows[i]))
    ensures LoggedRow(s.(log := s.log + [e]), i)
  {
  }

  lemma RefreshKeeps(s: State, i: nat)
    requires Inv(s) && i < |s.rows| && Live(s.rows[i])
    ensures Inv(Refresh(s, i))
  {
    var s' := Refresh(s, i);
    var e := s'.log[|s.log|];
    SubtableKeeps(s, s');
    forall j | 0 <= j < |s'.rows| && Live(s'.rows[j]) ensures LoggedRow(s', j) {
      assert LoggedRow(s, j);
      AfterAppend(s.log, e, ExtOf(Identity(s.rows[j])));
    }
    NoOpeningKeeps(s, s', e);
  }

  lemma CloseKeeps(s: State, i: nat)
    requires Inv(s) && i < |s.rows| && Live(s.rows[i])
    ensures Inv(Close(s, i))
  {
    var s' := Close(s, i);
    var e := s'.log[|s.log|];
    SubtableKeeps(s, s');
    forall j | 0 <= j < |s'.rows| && Live(s'.rows[j]) ensures LoggedRow(s', j) {
      assert LoggedRow(s, j);
      LogKeeps(s, e, j);
    }
    NoOpeningKeeps(s, s', e);
  }

  lemma NoOpeningKeeps(s: State, s': State, e: Event)
    requires Inv(s) && !e.Opened? && s'.log == s.log + [e]
    requires s'.pc == s.pc && s'.portSeq == s.portSeq && s'.steps == s.steps
    ensures Originated(s'.log) && Numbered(s')
  {
    forall k | 0 <= k < |s'.log| && s'.log[k].Opened? ensures Sent(RequestOf(s'.log[k].flow)) in s'.log[..k] {
      assert s'.log[..k] == s.log[..k] && s'.log[k] == s.log[k];
    }
  }

  lemma SentKeeps(s: State, req: Request)
    requires Inv(s)
    ensures Inv(s.(log := s.log + [Sent(req)]))
  {
    var e := Sent(req);
    var s' := s.(log := s.log + [e]);
    SubtableKeeps(s, s');
    forall j | 0 <= j < |s'.rows| && Live(s'.rows[j]) ensures LoggedRow(s', j) {
      assert LoggedRow(s, j);
      LogKeeps(s, e, j);
    }
    NoOpeningKeeps(s, s', e);
  }

  /** Opening a row in a free place, under a name no live row holds, for a client without a row. */
  lemma InsertKeeps(s: State, i: nat)
    requires Inv(s) && s.pc.Chosen? && i < |s.rows| && !Live(s.rows[i])
    ensures Inv(Insert(s.(pc := Idle), i, FlowOf(s.pc.req, s.pc.port)))
  {
    InsertKeepsUnique(s, i);
    InsertKeepsLogged(s, i);
    InsertKeepsHistory(s, i);
  }

  lemma InsertKeepsLogged(s: State, i: nat)
    requires Inv(s) && s.pc.Chosen? && i < |s.rows| && !Live(s.rows[i])
    ensures Logged(Insert(s.(pc := Idle), i, FlowOf(s.pc.req, s.pc.port)))
  {
    var f := FlowOf(s.pc.req, s.pc.port);
    var s' := Insert(s.(pc := Idle), i, f);
    forall j | 0 <= j < |s'.rows| && Live(s'.rows[j]) ensures LoggedRow(s', j) {
      AfterAppend(s.log, s'.log[|s.log|], ExtOf(Identity(s'.rows[j])));
      if j != i {
        assert LoggedRow(s, j) && !Blocks(s.rows[j], f.proto == ICMP, f.ltePort);
      }
    }
  }

  lemma InsertKeepsHistory(s: State, i: nat)
    requires Inv(s) && s.pc.Chosen? && i < |s.rows|
    ensures var s' := Insert(s.(pc := Idle), i, FlowOf(s.pc.req, s.pc.port));
            Originated(s'.log) && Numbered(s')
  {
    var s' := Insert(s.(pc := Idle), i, FlowOf(s.pc.req, s.pc.port));
    forall k | 0 <= k < |s'.log| && s'.log[k].Opened? ensures Sent(RequestOf(s'.log[k].flow)) in s'.log[..k] {
      if k < |s.log| {
        assert s'.log[..k] == s.log[..k] && s'.log[k] == s.log[k];
      } else {
        assert s'.log[..k] == s.log;
      }
    }
  }

  lemma InsertKeepsUnique(s: State, i: nat)
    requires Inv(s) && s.pc.Chosen? && i < |s.rows| && !Live(s.rows[i])
    ensures var rows := Insert(s.(pc := Idle), i, FlowOf(s.pc.req, s.pc.port)).rows;
            UniqueClients(rows) && UniqueExts(rows)
  {
    var f := FlowOf(s.pc.req, s.pc.port);
    forall j | 0 <= j < |s.rows| && j != i && Live(s.rows[j])
      ensures !Matches(s.rows[j], ClientKey(s.pc.req)) && ExtOf(Identity(s.rows[j])) != ExtOf(f)
    {
      assert !Blocks(s.rows[j], f.proto == ICMP, f.ltePort);
    }
  }

  /** Steps that leave rows and history alone need only look at the outbound thread's own state. */
  lemma TableUntouched(s: State, s': State)
    requires Inv(s) && s'.rows == s.rows && s'.touched == s.touched && s'.log == s.log
    requires s'.swept == s.swept && s.now <= s'.now && s'.portSeq < SEQ
    requires PcOk(s') && Numbered(s')
    ensures Inv(s')
  {
  }

  lemma ChooseKeeps(s: State, n: nat)
    requires Inv(s) && Enabled(s, Choose(n))
    ensures Inv(Next(s, Choose(n)))
  {
    var s' := Next(s, Choose(n));
    assert !TakenAt(s.rows, s.pc.req.proto == ICMP, s.portSeq, n);
    StepsAdvance(s.steps, n);
    TableUntouched(s, s');
  }

  lemma SpinKeeps(s: State, n: nat)
    requires Inv(s) && Enabled(s, Spin(n))
    ensures Inv(Next(s, Spin(n)))
  {
    var s' := Next(s, Spin(n));
    assert Unmapped(s', s.pc.req);
    StepsAdvance(s.steps, n);
    TableUntouched(s, s');
  }

  lemma StepsAdvance(steps: nat, n: nat)
    ensures Advance(steps % SEQ, n) == (steps + n) % SEQ
  {
  }

  lemma ProbeKeeps(s: State)
    requires Inv(s) && Enabled(s, Probe)
    ensures Inv(Next(s, Probe))
  {
    var s' := Next(s, Probe);
    StepsAdvance(s.steps, 1);
    ProbeKeepsPc(s);
    TableUntouched(s, s');
  }

  lemma ProbeKeepsPc(s: State)
    requires Inv(s) && Enabled(s, Probe)
    ensures PcOk(Probed(s))
  {
    if s.pc.Missed? || (s.pc.next < ROWS && Blocks(s.rows[s.pc.next], s.pc.req.proto == ICMP, s.pc.port)) {
      assert Unmapped(Probed(s), s.pc.req);
    } else {
      ProbeGoesOn(s, Probed(s), s.pc.req);
    }
  }

  lemma ProbeGoesOn(s: State, s': State, req: Request)
    requires Inv(s) && s.pc.Probing? && s.pc.req == req
    requires s.pc.next < ROWS ==> !Blocks(s.rows[s.pc.next], req.proto == ICMP, s.pc.port)
    requires s' == Probed(s)
    ensures PcOk(s')
  {
    assert Unmapped(s', req);
  }

  lemma OpenKeeps(s: State, a: Action)
    requires Inv(s) && Enabled(s, a) && a.Open?
    ensures Inv(Next(s, a))
  {
    SweptKeeps(s, a.times, a.mid);
    var m := Swept(s, a.times, a.mid);
    SweptKeeps(m, a.times2, a.at);
    var t := Swept(m, a.times2, a.at);
    var i := Find(t.rows, Vacant);
    if i < 0 {
      TableUntouched(t, t.(pc := Idle));
    } else {
      InsertKeeps(t, i);
    }
  }

  lemma OutboundKeeps(s: State, a: Action)
    requires Inv(s) && Enabled(s, a) && a.Outbound?
    ensures Inv(Next(s, a))
  {
    SweptKeeps(s, a.times, a.at);
    var t := Swept(s, a.times, a.at);
    SentKeeps(t, a.req);
    t := t.(log := s.log + [Sent(a.req)]);
    var i := Find(t.rows, ClientKey(a.req));
    if i < 0 {
      assert t.log[|s.log|] == Sent(a.req);
      TableUntouched(t, t.(pc := Missed(a.req)));
    } else {
      RefreshKeeps(t, i);
    }
  }

  /** Every step, whoever takes it, keeps the invariant. */
  lemma StepKeepsInv(s: State, a: Action)
    requires Inv(s) && Enabled(s, a)
    ensures Inv(Next(s, a))
  {
    match a
    case Tick(at) =>
      TableUntouched(s, s.(now := at));
    case Outbound(_, _, _) => OutboundKeeps(s, a);
    case Choose(n) => ChooseKeeps(s, n);
    case Spin(n) => SpinKeeps(s, n);
    case Probe => ProbeKeeps(s);
    case Open(_, _, _, _) => OpenKeeps(s, a);
    case Inbound(proto, ip, port, times, at) =>
      SweptKeeps(s, times, at);
      var t := Swept(s, times, at);
      var i := Find(t.rows, Server(proto, ip, port));
      if i >= 0 {
        RefreshKeeps(t, i);
      }
    case Remove(key, times, at) =>
      SweptKeeps(s, times, at);
      var t := Swept(s, times, at);
      var i := Find(t.rows, key);
      if i >= 0 {
        CloseKeeps(t, i);
      }
  }
}
