/** What the port mapping guarantees over every run of the state machine. */
module NatTheorems {
  import opened Wrappers
  import opened Bytes
  import opened Clock
  import opened PortTable
  import opened PortChoice
  import opened NatMachine

  // ---------------------------------------------------------------- runs

  ghost predicate Valid(s: State, acts: seq<Action>)
    requires Shape(s)
    decreases |acts|
  {
    acts == [] || (Enabled(s, acts[0]) && Valid(Next(s, acts[0]), acts[1..]))
  }

  ghost function Run(s: State, acts: seq<Action>): (s': State)
    requires Shape(s) && Valid(s, acts)
    ensures Shape(s')
    decreases |acts|
  {
    if acts == [] then s else Run(Next(s, acts[0]), acts[1..])
  }

  /** `acts` lead from `s` to `s'`. */
  ghost predicate Took(s: State, acts: seq<Action>, s': State)
  {
    Shape(s) && Valid(s, acts) && Run(s, acts) == s'
  }

  lemma {:induction false} TookOneMore(s: State, acts: seq<Action>, s': State, a: Action)
    requires Took(s, acts, s') && Enabled(s', a)
    ensures Took(s, acts + [a], Next(s', a))
    decreases |acts|
  {
    if acts == [] {
      assert (acts + [a])[1..] == [];
    } else {
      TookOneMore(Next(s, acts[0]), acts[1..], s', a);
      assert (acts + [a])[1..] == acts[1..] + [a];
    }
  }

  lemma {:induction false} TookThen(s: State, acts: seq<Action>, s': State, acts': seq<Action>, s'': State)
    requires Took(s, acts, s') && Took(s', acts', s'')
    ensures Took(s, acts + acts', s'')
    decreases |acts|
  {
    if acts == [] {
      assert acts + acts' == acts';
    } else {
      TookThen(Next(s, acts[0]), acts[1..], s', acts', s'');
      assert (acts + acts')[1..] == acts[1..] + acts';
    }
  }

  /** Safety over whole runs, however the two threads interleave. */
  lemma {:induction false} RunKeepsInv(s: State, acts: seq<Action>)
    requires Inv(s) && Valid(s, acts)
    ensures Inv(Run(s, acts))
    decreases |acts|
  {
    if acts != [] {
      StepKeepsInv(s, acts[0]);
      RunKeepsInv(Next(s, acts[0]), acts[1..]);
    }
  }

  lemma MatchIsUnique(s: State, k: Key, i: nat, j: nat)
    requires Inv(s) && !k.Vacant? && i < ROWS && j < ROWS
    requires Matches(s.rows[i], k) && Matches(s.rows[j], k)
    ensures i == j
  {
  }

  /** In every reachable state no two live rows share a client, and no two share an external name:
      a port among all rows but the ICMP ones, an identifier among those. A packet, inbound or
      outbound, therefore matches at most one row. */
  lemma ReachableRowsAreDistinct(portSeq: nat, now: nat, acts: seq<Action>)
    requires portSeq < SEQ && Valid(Init(portSeq, now), acts)
    ensures var rows := Run(Init(portSeq, now), acts).rows;
            && (forall i, j :: 0 <= i < j < ROWS && Live(rows[i]) && Live(rows[j]) ==>
                  && (rows[i].proto, rows[i].clientIp, rows[i].ethPort)
                     != (rows[j].proto, rows[j].clientIp, rows[j].ethPort)
                  && ((rows[i].proto == ICMP) == (rows[j].proto == ICMP) ==> rows[i].ltePort != rows[j].ltePort))
            && (forall k: Key, i: nat, j: nat | !k.Vacant? && i < ROWS && j < ROWS ::
                  Matches(rows[i], k) && Matches(rows[j], k) ==> i == j)
  {
    InitHolds(portSeq, now);
    RunKeepsInv(Init(portSeq, now), acts);
    var s := Run(Init(portSeq, now), acts);
    forall i, j | 0 <= i < j < ROWS && Live(s.rows[i]) && Live(s.rows[j])
      ensures ExtOf(Identity(s.rows[i])) != ExtOf(Identity(s.rows[j]))
    {
    }
    forall k: Key, i, j | !k.Vacant? && 0 <= i < ROWS && 0 <= j < ROWS && Matches(s.rows[i], k) && Matches(s.rows[j], k)
      ensures i == j
    {
      MatchIsUnique(s, k, i, j);
    }
  }

  // ---------------------------------------------------------------- expiry across clock wrap

  /** When the step is over. */
  function End(s: State, a: Action): (t: nat)
  {
    match a
    case Choose(_) => s.now
    case Spin(_) => s.now
    case Probe => s.now
    case _ => a.at
  }

  ghost predicate Empty(rows: seq<Row>)
  {
    forall i :: 0 <= i < |rows| ==> !Live(rows[i])
  }

  /** A sweep that ends at `at` ends at most 2^32 - 20000 ms after the one before it began, or has no
      rows to judge. */
  ghost predicate GapWithin(s: State, at: nat)
  {
    Empty(s.rows) || at - s.swept <= WRAP32 - TIMEOUT
  }

  ghost predicate GapOk(s: State, a: Action)
  {
    a.Outbound? || a.Open? || a.Inbound? || a.Remove? ==> GapWithin(s, a.at)
  }

  /** A name whose last holder has no row left, and was not removed, was last used too long ago. */
  ghost predicate LapsedIsOld(s: State, x: Ext)
  {
    var e := LastEvent(s.log, x);
    && e.Some? && !e.value.Closed?
    && (forall i :: 0 <= i < |s.rows| && Live(s.rows[i]) ==> ExtOf(Identity(s.rows[i])) != x)
    ==> e.value.at + TIMEOUT <= s.now
  }

  ghost predicate Exact(s: State)
    requires Shape(s)
  {
    && (forall i :: 0 <= i < ROWS && Live(s.rows[i]) ==> s.swept < s.touched[i] + TIMEOUT)
    && forall x :: LapsedIsOld(s, x)
  }

  /** A row survives the sweep exactly when its true age, at the moment the sweep looks at it, is below
      20 seconds. */
  ghost predicate JudgedRight(s: State, times: seq<nat>)
    requires Shape(s) && |times| == ROWS
  {
    forall i :: 0 <= i < ROWS && Live(s.rows[i]) ==>
      (Live(Sweep(s.rows, times)[i]) <==> times[i] < s.touched[i] + 20_000)
  }

  /** Although only 32-bit stamps are kept, sweeps that are not too far apart are exact. */
  lemma SweepIsExact(s: State, times: seq<nat>, at: nat)
    requires Inv(s) && Exact(s) && Samples(times, ROWS, s.now, at)
    requires GapWithin(s, at)
    ensures JudgedRight(s, times)
  {
    forall i | 0 <= i < ROWS && Live(s.rows[i])
      ensures Live(Sweep(s.rows, times)[i]) <==> times[i] < s.touched[i] + 20_000
    {
      RightBelowWrap(TIMEOUT, s.touched[i], times[i]);
    }
  }

  lemma SweptKeepsExact(s: State, times: seq<nat>, at: nat)
    requires Inv(s) && Exact(s) && Samples(times, ROWS, s.now, at)
    requires GapWithin(s, at)
    ensures Exact(Swept(s, times, at))
  {
    var s' := Swept(s, times, at);
    SweepIsExact(s, times, at);
    forall x ensures LapsedIsOld(s', x) {
      assert LapsedIsOld(s, x);
      if i :| 0 <= i < ROWS && Live(s.rows[i]) && ExtOf(Identity(s.rows[i])) == x {
        assert LoggedRow(s, i);
        if !Live(s'.rows[i]) {
          assert times[i] - s.touched[i] >= TIMEOUT;
        }
      }
    }
  }

  /** A new event about `e.flow`'s name, with a live row of that name or a removal, lapses nothing. */
  lemma EventKeepsExact(s: State, s': State, e: Event, i: nat)
    requires Inv(s) && Exact(s) && Shape(s') && i < ROWS
    requires s'.log == s.log + [e] && s'.now == s.now && s'.swept == s.swept && !e.Sent?
    requires forall j :: 0 <= j < ROWS && j != i ==> s'.rows[j] == s.rows[j] && s'.touched[j] == s.touched[j]
    requires Live(s.rows[i]) ==> ExtOf(Identity(s.rows[i])) == ExtOf(e.flow)
    requires if Live(s'.rows[i]) then ExtOf(Identity(s'.rows[i])) == ExtOf(e.flow) && s'.touched[i] == s.now
             else e.Closed?
    ensures Exact(s')
  {
    forall x ensures LapsedIsOld(s', x) {
      assert LapsedIsOld(s, x);
      AfterAppend(s.log, e, x);
      if x != ExtOf(e.flow) {
        if j :| 0 <= j < ROWS && Live(s.rows[j]) && ExtOf(Identity(s.rows[j])) == x {
          assert Live(s'.rows[j]) && ExtOf(Identity(s'.rows[j])) == x;
        }
      }
    }
  }

  lemma SameTableKeepsExact(s: State, s': State)
    requires Shape(s) && Exact(s) && Shape(s')
    requires s'.rows == s.rows && s'.touched == s.touched && s'.swept == s.swept && s.now <= s'.now
    requires forall x :: LastEvent(s'.log, x) == LastEvent(s.log, x)
    ensures Exact(s')
  {
    forall x ensures LapsedIsOld(s', x) {
      assert LapsedIsOld(s, x);
    }
  }

  lemma LookupKeepsExact(s: State, k: Key)
    requires Inv(s) && Exact(s) && !k.Vacant?
    ensures var i := Find(s.rows, k); i >= 0 ==> Exact(Refresh(s, i)) && Exact(Close(s, i))
  {
    var i := Find(s.rows, k);
    if i >= 0 {
      var r, c := Refresh(s, i), Close(s, i);
      EventKeepsExact(s, r, r.log[|s.log|], i);
      EventKeepsExact(s, c, c.log[|s.log|], i);
    }
  }

  lemma StepKeepsExact(s: State, a: Action)
    requires Inv(s) && Exact(s) && Enabled(s, a) && GapOk(s, a)
    ensures Exact(Next(s, a))
  {
    match a
    case Tick(_) => SameTableKeepsExact(s, Next(s, a));
    case Choose(_) => SameTableKeepsExact(s, Next(s, a));
    case Spin(_) => SameTableKeepsExact(s, Next(s, a));
    case Probe => SameTableKeepsExact(s, Next(s, a));
    case Outbound(req, times, at) =>
      SweptKeeps(s, times, at);
      SweptKeepsExact(s, times, at);
      var t := Swept(s, times, at);
      SentKeeps(t, req);
      var u := t.(log := s.log + [Sent(req)]);
      forall x ensures LastEvent(u.log, x) == LastEvent(t.log, x) {
        AfterAppend(t.log, Sent(req), x);
      }
      SameTableKeepsExact(t, u);
      SameTableKeepsExact(u, u.(pc := Missed(req)));
      LookupKeepsExact(u, ClientKey(req));
    case Inbound(proto, ip, port, times, at) =>
      SweptKeeps(s, times, at);
      SweptKeepsExact(s, times, at);
      LookupKeepsExact(Swept(s, times, at), Server(proto, ip, port));
    case Remove(key, times, at) =>
      SweptKeeps(s, times, at);
      SweptKeepsExact(s, times, at);
      LookupKeepsExact(Swept(s, times, at), key);
    case Open(_, _, _, _) => OpenKeepsExact(s, a);
  }

  lemma SweptTwiceKeeps(s: State, times: seq<nat>, mid: nat, times2: seq<nat>, at: nat)
    requires Inv(s) && Exact(s) && Samples(times, ROWS, s.now, mid) && Samples(times2, ROWS, mid, at)
    requires GapWithin(s, at)
    ensures var t := Swept(Swept(s, times, mid), times2, at); Inv(t) && Exact(t)
  {
    SweptKeeps(s, times, mid);
    SweptKeepsExact(s, times, mid);
    SweptKeeps(Swept(s, times, mid), times2, at);
    SweptKeepsExact(Swept(s, times, mid), times2, at);
  }

  lemma InsertKeepsExact(s: State, i: nat, f: Flow)
    requires Inv(s) && Exact(s) && i < ROWS && !Live(s.rows[i]) && f.proto != 0
    ensures Exact(Insert(s, i, f))
  {
    var s' := Insert(s, i, f);
    EventKeepsExact(s, s', s'.log[|s.log|], i);
  }

  lemma OpenKeepsExact(s: State, a: Action)
    requires Inv(s) && Exact(s) && Enabled(s, a) && GapOk(s, a) && a.Open?
    ensures Exact(Next(s, a))
  {
    SweptTwiceKeeps(s, a.times, a.mid, a.times2, a.at);
    var t := Swept(Swept(s, a.times, a.mid), a.times2, a.at);
    var u := t.(pc := Idle);
    TableUntouched(t, u);
    SameTableKeepsExact(t, u);
    var i := Find(u.rows, Vacant);
    if i >= 0 {
      InsertKeepsExact(u, i, FlowOf(s.pc.req, s.pc.port));
    }
  }

  ghost predicate Gapped(s: State, acts: seq<Action>)
    requires Shape(s) && Valid(s, acts)
    decreases |acts|
  {
    acts == [] || (GapOk(s, acts[0]) && Gapped(Next(s, acts[0]), acts[1..]))
  }

  lemma {:induction false} RunKeepsExact(s: State, acts: seq<Action>)
    requires Inv(s) && Exact(s) && Valid(s, acts) && Gapped(s, acts)
    ensures Inv(Run(s, acts)) && Exact(Run(s, acts))
    decreases |acts|
  {
    if acts != [] {
      StepKeepsInv(s, acts[0]);
      StepKeepsExact(s, acts[0]);
      RunKeepsExact(Next(s, acts[0]), acts[1..]);
    }
  }

  /** All sweeps a step makes, both of them when it opens a row. */
  ghost predicate SweepsRight(s: State, a: Action)
    requires Shape(s) && Enabled(s, a)
  {
    match a
    case Outbound(_, times, _) => JudgedRight(s, times)
    case Inbound(_, _, _, times, _) => JudgedRight(s, times)
    case Remove(_, times, _) => JudgedRight(s, times)
    case Open(times, mid, times2, _) => JudgedRight(s, times) && JudgedRight(Swept(s, times, mid), times2)
    case _ => true
  }

  lemma StepSweepsRight(s: State, a: Action)
    requires Inv(s) && Exact(s) && Enabled(s, a) && GapOk(s, a)
    ensures SweepsRight(s, a)
  {
    match a
    case Outbound(_, times, at) => SweepIsExact(s, times, at);
    case Inbound(_, _, _, times, at) => SweepIsExact(s, times, at);
    case Remove(_, times, at) => SweepIsExact(s, times, at);
    case Open(times, mid, times2, at) =>
      SweepIsExact(s, times, mid);
      SweptKeeps(s, times, mid);
      SweptKeepsExact(s, times, mid);
      SweepIsExact(Swept(s, times, mid), times2, at);
    case _ =>
  }

  /** Expiry is exact at every sweep of every run whose sweeps are not too far apart. */
  lemma ExpiryIsExactOverRuns(portSeq: nat, now: nat, acts: seq<Action>, a: Action)
    requires portSeq < SEQ && Valid(Init(portSeq, now), acts) && Gapped(Init(portSeq, now), acts)
    requires var s := Run(Init(portSeq, now), acts); Enabled(s, a) && GapOk(s, a)
    ensures SweepsRight(Run(Init(portSeq, now), acts), a)
  {
    var s0 := Init(portSeq, now);
    InitHolds(portSeq, now);
    RunKeepsExact(s0, acts);
    StepSweepsRight(Run(s0, acts), a);
  }

  // ---------------------------------------------------------------- filtering

  /** Where an external name was last handed out; nobody else got it since. */
  lemma {:induction false} LastOpenedAt(log: seq<Event>, x: Ext) returns (k: nat)
    requires LastOpened(log, x).Some?
    ensures k < |log| && log[k].Opened? && log[k].flow == LastOpened(log, x).value
    ensures forall j :: k < j < |log| && log[j].Opened? ==> ExtOf(log[j].flow) != x
  {
    var last := |log| - 1;
    if log[last].Opened? && ExtOf(log[last].flow) == x {
      k := last;
    } else {
      k := LastOpenedAt(log[..last], x);
    }
  }

  /** An inbound packet is only ever forwarded to the most recent holder of its external name, and
      that holder had sent a packet to the same server before the name was given to it. */
  lemma ForwardedOnlyToLatestHolder(s: State, a: Action) returns (k: nat)
    requires Inv(s) && Enabled(s, a) && a.Inbound? && Mapping(s, a).Some?
    ensures var f := Mapping(s, a).value;
            && f.proto == a.proto && f.serverIp == a.serverIp && f.ltePort == a.port
            && k < |s.log| && s.log[k].Opened? && s.log[k].flow == f
            && Sent(Request(a.proto, f.clientIp, f.ethPort, a.serverIp)) in s.log[..k]
            && forall j :: k < j < |s.log| && s.log[j].Opened? ==> ExtOf(s.log[j].flow) != ExtOf(f)
  {
    var rows := Sweep(s.rows, a.times);
    var i := Find(rows, Server(a.proto, a.serverIp, a.port));
    assert Live(rows[i]) && rows[i] == s.rows[i] && LoggedRow(s, i);
    k := LastOpenedAt(s.log, ExtOf(Identity(s.rows[i])));
  }

  /** The live row with an external name, or -1. */
  ghost function Holder(rows: seq<Row>, x: Ext): (i: int)
    ensures -1 <= i < |rows|
    ensures i >= 0 ==> Live(rows[i]) && ExtOf(Identity(rows[i])) == x
    ensures i < 0 ==> forall j :: 0 <= j < |rows| && Live(rows[j]) ==> ExtOf(Identity(rows[j])) != x
  {
    if j :| 0 <= j < |rows| && Live(rows[j]) && ExtOf(Identity(rows[j])) == x then j else -1
  }

  /** Whether an inbound packet gets through, in terms of history: exactly if its external name has a
      last holder, for that server and protocol, used less than 20 seconds before the sweep looks at the
      holder's row. */
  lemma ForwardedIff(s: State, a: Action)
    requires Inv(s) && Exact(s) && Enabled(s, a) && GapOk(s, a) && a.Inbound?
    ensures var x := Ext(a.proto == ICMP, a.port);
            var e, i := LastEvent(s.log, x), Holder(s.rows, x);
            var looked := if i >= 0 then a.times[i] else s.now;
            Mapping(s, a) ==
            if e.Some? && !e.value.Closed? && e.value.flow.proto == a.proto && e.value.flow.serverIp == a.serverIp
               && looked < e.value.at + 20_000 then Some(e.value.flow) else None
  {
    var x := Ext(a.proto == ICMP, a.port);
    var i := Holder(s.rows, x);
    SweepIsExact(s, a.times, a.at);
    assert LapsedIsOld(s, x);
    if i >= 0 {
      assert LoggedRow(s, i);
      HolderAnswers(s, a, i);
    } else {
      NoHolderNoAnswer(s, a);
    }
  }

  /** The row with the packet's external name is the only one its lookup can hit. */
  lemma HolderAnswers(s: State, a: Action, i: nat)
    requires Inv(s) && Enabled(s, a) && a.Inbound? && i < ROWS && Live(s.rows[i])
    requires ExtOf(Identity(s.rows[i])) == Ext(a.proto == ICMP, a.port)
    ensures Mapping(s, a) ==
            if Live(Sweep(s.rows, a.times)[i]) && s.rows[i].proto == a.proto && s.rows[i].serverIp == a.serverIp
            then Some(Identity(s.rows[i])) else None
  {
    var rows, key := Sweep(s.rows, a.times), Server(a.proto, a.serverIp, a.port);
    var j := Find(rows, key);
    if j >= 0 {
      assert Live(s.rows[j]) && ExtOf(Identity(s.rows[j])) == ExtOf(Identity(s.rows[i]));
      assert j == i;
    } else {
      assert !Matches(rows[i], key);
    }
  }

  lemma NoHolderNoAnswer(s: State, a: Action)
    requires Inv(s) && Enabled(s, a) && a.Inbound? && Holder(s.rows, Ext(a.proto == ICMP, a.port)) < 0
    ensures Mapping(s, a) == None
  {
    var rows, x := Sweep(s.rows, a.times), Ext(a.proto == ICMP, a.port);
    assert forall j :: 0 <= j < ROWS && Live(rows[j]) ==> rows[j] == s.rows[j] && ExtOf(Identity(s.rows[j])) != x;
  }

  // ---------------------------------------------------------------- stability

  ghost predicate OfFlow(a: Action, f: Flow)
  {
    || (a.Outbound? && ClientKey(a.req) == ClientKey(RequestOf(f)))
    || (a.Inbound? && a.proto == f.proto && a.serverIp == f.serverIp && a.port == f.ltePort)
  }

  /** A row used less than 20 seconds before the step ends, and not removed by it, stays as it is;
      only its own flow's packets stamp it, and they are translated with it. */
  ghost predicate RowKept(s: State, a: Action, i: nat)
    requires Shape(s) && Enabled(s, a) && i < ROWS
  {
    var f, s' := Identity(s.rows[i]), Next(s, a);
    && Live(s'.rows[i]) && Identity(s'.rows[i]) == f
    && (OfFlow(a, f) ==> Mapping(s, a) == Some(f) && s'.touched[i] == a.at)
    && (!OfFlow(a, f) ==> s'.touched[i] == s.touched[i])
  }

  lemma StepKeepsRow(s: State, a: Action, i: nat)
    requires Inv(s) && Enabled(s, a) && i < ROWS && Live(s.rows[i])
    requires End(s, a) < s.touched[i] + TIMEOUT
    requires a.Remove? ==> !Matches(s.rows[i], a.key)
    ensures RowKept(s, a, i)
  {
    match a
    case Tick(_) =>
    case Choose(_) =>
    case Spin(_) =>
    case Probe =>
    case Outbound(_, _, _) => OutboundKeepsRow(s, a, i);
    case Inbound(_, _, _, _, _) => InboundKeepsRow(s, a, i);
    case Remove(key, times, at) => UniqueAfterSweep(s, times, at, key, i);
    case Open(_, _, _, _) => OpenKeepsRow(s, a, i);
  }

  lemma OutboundKeepsRow(s: State, a: Action, i: nat)
    requires Inv(s) && Enabled(s, a) && a.Outbound? && i < ROWS && Live(s.rows[i])
    requires a.at < s.touched[i] + TIMEOUT
    ensures RowKept(s, a, i)
  {
    UniqueAfterSweep(s, a.times, a.at, ClientKey(a.req), i);
  }

  lemma InboundKeepsRow(s: State, a: Action, i: nat)
    requires Inv(s) && Enabled(s, a) && a.Inbound? && i < ROWS && Live(s.rows[i])
    requires a.at < s.touched[i] + TIMEOUT
    ensures RowKept(s, a, i)
  {
    UniqueAfterSweep(s, a.times, a.at, Server(a.proto, a.serverIp, a.port), i);
  }

  lemma OpenKeepsRow(s: State, a: Action, i: nat)
    requires Inv(s) && Enabled(s, a) && a.Open? && i < ROWS && Live(s.rows[i])
    requires a.at < s.touched[i] + TIMEOUT
    ensures RowKept(s, a, i)
  {
    SurvivesSweep(s, a.times, a.mid, i);
    SweptKeeps(s, a.times, a.mid);
    SurvivesSweep(Swept(s, a.times, a.mid), a.times2, a.at, i);
  }

  lemma UniqueAfterSweep(s: State, times: seq<nat>, at: nat, k: Key, i: nat)
    requires Inv(s) && Samples(times, ROWS, s.now, at) && !k.Vacant?
    requires i < ROWS && Live(s.rows[i]) && at < s.touched[i] + TIMEOUT
    ensures var rows := Sweep(s.rows, times);
            rows[i] == s.rows[i] && if Matches(rows[i], k) then Find(rows, k) == i else Find(rows, k) != i
  {
    SurvivesSweep(s, times, at, i);
    SweptKeeps(s, times, at);
    var t := Swept(s, times, at);
    if Matches(t.rows[i], k) {
      MatchIsUnique(t, k, i, Find(t.rows, k));
    }
  }

  lemma SurvivesSweep(s: State, times: seq<nat>, at: nat, i: nat)
    requires Inv(s) && Samples(times, ROWS, s.now, at)
    requires i < ROWS && Live(s.rows[i]) && at < s.touched[i] + TIMEOUT
    ensures Swept(s, times, at).rows[i] == s.rows[i]
  {
    RightBelowWrap(TIMEOUT, s.touched[i], times[i]);
  }

  /** At every step the row is less than 20 seconds old, and no step removes it. */
  ghost predicate KeptAlive(s: State, acts: seq<Action>, i: nat)
    requires Shape(s) && Valid(s, acts) && i < ROWS
    decreases |acts|
  {
    acts == [] ||
    (&& End(s, acts[0]) < s.touched[i] + TIMEOUT
     && (acts[0].Remove? ==> !Matches(s.rows[i], acts[0].key))
     && KeptAlive(Next(s, acts[0]), acts[1..], i))
  }

  /** Every packet of the flow is translated with the same mapping. */
  ghost predicate AlwaysMapped(s: State, acts: seq<Action>, f: Flow)
    requires Shape(s) && Valid(s, acts)
    decreases |acts|
  {
    acts == [] ||
    ((OfFlow(acts[0], f) ==> Mapping(s, acts[0]) == Some(f)) && AlwaysMapped(Next(s, acts[0]), acts[1..], f))
  }

  /** Mapping stability: while a flow is kept alive its row and its external name never change,
      whatever other flows do in between. */
  lemma {:induction false} MappingIsStable(s: State, acts: seq<Action>, i: nat)
    requires Inv(s) && Valid(s, acts) && i < ROWS && Live(s.rows[i]) && KeptAlive(s, acts, i)
    ensures var s' := Run(s, acts);
            Live(s'.rows[i]) && Identity(s'.rows[i]) == Identity(s.rows[i])
    ensures AlwaysMapped(s, acts, Identity(s.rows[i]))
    decreases |acts|
  {
    if acts != [] {
      StepKeepsRow(s, acts[0], i);
      StepKeepsInv(s, acts[0]);
      MappingIsStable(Next(s, acts[0]), acts[1..], i);
    }
  }

  // ---------------------------------------------------------------- the search for a port

  /** In a table swept down to `rows` an outbound packet finds no row, and its identifier search finds
      no identifier. */
  ghost predicate SearchIsVain(rows: seq<Row>, req: Request)
  {
    req.proto == ICMP && Find(rows, ClientKey(req)) < 0 && AllTaken(rows)
  }

  /** The search can end exactly when it is not for an identifier, or one is free. */
  lemma SearchEndsIff(s: State)
    requires Inv(s) && s.pc.Missed?
    ensures (exists n :: Enabled(s, Choose(n))) <==> !(s.pc.req.proto == ICMP && AllTaken(s.rows))
  {
    if s.pc.req.proto == ICMP {
      IdentifierFoundIff(s.rows, s.portSeq);
      if n :| FirstFree(s.rows, true, s.portSeq, n) {
        assert Enabled(s, Choose(n));
      }
    } else {
      var n := PortFoundWithin2049(s.rows, s.portSeq);
      assert Enabled(s, Choose(n));
    }
  }

  /** An identifier search, anywhere in its course, while every identifier is in use. */
  ghost predicate Stuck(s: State)
  {
    && Shape(s) && AllTaken(s.rows)
    && match s.pc
       case Missed(req) => req.proto == ICMP
       case Probing(req, port, next) =>
         req.proto == ICMP && exists i :: next <= i < ROWS && Blocks(s.rows[i], true, port)
       case _ => false
  }

  /** A step of the outbound thread, or time passing. */
  predicate OwnStep(a: Action)
  {
    a.Tick? || a.Outbound? || a.Choose? || a.Spin? || a.Probe? || a.Open?
  }

  lemma StepStaysStuck(s: State, a: Action)
    requires Stuck(s) && Enabled(s, a) && OwnStep(a)
    ensures Stuck(Next(s, a))
  {
    if a.Probe? && s.pc.Missed? {
      assert Taken(s.rows, true, Candidate(true, Advance(s.portSeq, 1)));
    }
  }

  /** Nothing the outbound thread does, and no lapse of time, ends such a search: it can only end after
      the other thread has swept the table. */
  lemma {:induction false} StuckUntilSwept(s: State, acts: seq<Action>)
    requires Stuck(s) && Valid(s, acts) && forall k :: 0 <= k < |acts| ==> OwnStep(acts[k])
    ensures Stuck(Run(s, acts)) && Run(s, acts).rows == s.rows
    decreases |acts|
  {
    if acts != [] {
      StepStaysStuck(s, acts[0]);
      StuckUntilSwept(Next(s, acts[0]), acts[1..]);
    }
  }

  // ---------------------------------------------------------------- reuse of external ports

  /** Between two openings with the same external port, other than ICMP, the port sequence takes a
      positive multiple of 8193 steps. */
  lemma ReuseDistance(s: State, j: nat, k: nat)
    requires Inv(s) && j < k < |s.log| && s.log[j].Opened? && s.log[k].Opened?
    requires s.log[j].flow.proto != ICMP && s.log[k].flow.proto != ICMP
    requires s.log[j].flow.ltePort == s.log[k].flow.ltePort
    ensures (s.log[k].steps - s.log[j].steps) % SEQ == 0
    ensures s.log[k].steps - s.log[j].steps >= SEQ
  {
    SameResidue(s.log[j].steps, s.log[k].steps);
  }

  lemma SameResidue(a: nat, b: nat)
    requires a < b && a % SEQ == b % SEQ
    ensures (b - a) % SEQ == 0 && b - a >= SEQ
  {
  }

  // ---------------------------------------------------------------- which ports are given out

  /** Every live row was opened with the port its place in the sequence gives: 32768 and the number of
      steps so far modulo 8193, or for ICMP that number modulo 256. */
  lemma PortOfRow(s: State, i: nat) returns (k: nat)
    requires Inv(s) && i < |s.rows| && s.rows[i].proto != 0
    ensures k < |s.log| && s.log[k].Opened? && s.log[k].flow == Identity(s.rows[i])
    ensures s.rows[i].ltePort as int ==
            if s.rows[i].proto == 1 then s.log[k].steps % 8193 % 256 else 32768 + s.log[k].steps % 8193
  {
    assert LoggedRow(s, i);
    k := LastOpenedAt(s.log, ExtOf(Identity(s.rows[i])));
  }

  /** In every run from start-up: ports lie from 32768 to 40960, identifiers below 256. */
  lemma PortsInRange(portSeq: nat, now: nat, acts: seq<Action>, i: nat)
    requires portSeq < 8193 && Valid(Init(portSeq, now), acts)
    requires var s := Run(Init(portSeq, now), acts); i < |s.rows| && s.rows[i].proto != 0
    ensures var r := Run(Init(portSeq, now), acts).rows[i];
            if r.proto == 1 then r.ltePort < 256 else 32768 <= r.ltePort <= 40960
  {
    InitHolds(portSeq, now);
    RunKeepsInv(Init(portSeq, now), acts);
    var k := PortOfRow(Run(Init(portSeq, now), acts), i);
  }

  /** With no row alive the first candidate is taken: right after start-up port 32769, or identifier 1. */
  lemma FirstPort(s: State, n: nat)
    requires Shape(s) && s.portSeq == 0 && s.pc.Missed? && Enabled(s, Choose(n))
    requires forall i :: 0 <= i < |s.rows| ==> s.rows[i].proto == 0
    ensures Next(s, Choose(n)).pc == Chosen(s.pc.req, if s.pc.req.proto == 1 then 1 else 32769)
  {
    assert n == 1 by {
      assert n > 1 ==> TakenAt(s.rows, s.pc.req.proto == ICMP, s.portSeq, 1);
    }
  }
}
