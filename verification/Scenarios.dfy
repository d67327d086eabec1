/** Runs from start-up in which things go wrong: sweeps too far apart, a second server, no identifier
    left. */
module Scenarios {
  import opened Wrappers
  import opened Bytes
  import opened Clock
  import opened PortTable
  import opened PortChoice
  import opened NatMachine
  import opened NatTheorems
  import opened Replies

  // ---------------------------------------------------------------- flows opened in an instant

  /** Clock samples of a sweep that takes no time. */
  function Instant(t: nat): (times: seq<nat>)
    ensures Samples(times, ROWS, t, t)
  {
    seq(ROWS, _ => t)
  }

  ghost predicate Fresh(s: State)
    requires Shape(s)
  {
    forall i :: 0 <= i < ROWS && Live(s.rows[i]) ==> s.now < s.touched[i] + TIMEOUT
  }

  lemma SweepsNothing(s: State)
    requires Inv(s) && Fresh(s)
    ensures Sweep(s.rows, Instant(s.now)) == s.rows
  {
    forall i | 0 <= i < ROWS && Live(s.rows[i]) ensures SweepRow(s.rows[i], s.now) == s.rows[i] {
      RightBelowWrap(TIMEOUT, s.touched[i], s.now);
    }
  }

  /** The parts of a state these runs are about. */
  ghost predicate StateIs(s: State, rows: seq<Row>, touched: seq<nat>, pc: Pc, portSeq: nat, now: nat)
  {
    && Inv(s) && s.rows == rows && s.touched == touched && s.pc == pc && s.portSeq == portSeq
    && s.now == now && s.swept == now
  }

  ghost predicate Led(s: State, acts: seq<Action>, s': State)
  {
    Took(s, acts, s') && Gapped(s, acts)
  }

  lemma LedByOne(s: State, a: Action)
    requires Inv(s) && Enabled(s, a) && GapOk(s, a)
    ensures Led(s, [a], Next(s, a)) && Inv(Next(s, a))
  {
    StepKeepsInv(s, a);
    TookOneMore(s, [], s, a);
    assert [] + [a] == [a] && [a][1..] == [];
    assert Gapped(Next(s, a), [a][1..]);
  }

  lemma {:induction false} LedThen(s: State, acts: seq<Action>, s': State, acts': seq<Action>, s'': State)
    requires Led(s, acts, s') && Led(s', acts', s'')
    ensures Led(s, acts + acts', s'')
    decreases |acts|
  {
    if acts == [] {
      assert acts + acts' == acts';
    } else {
      LedThen(Next(s, acts[0]), acts[1..], s', acts', s'');
      assert (acts + acts')[1..] == acts[1..] + acts';
    }
  }

  lemma MissNow(s: State, req: Request) returns (a: Action, s': State)
    requires Inv(s) && Fresh(s) && s.pc.Idle? && req.proto in {ICMP, TCP, UDP} && Find(s.rows, ClientKey(req)) < 0
    requires GapWithin(s, s.now)
    ensures Led(s, [a], s') && StateIs(s', s.rows, s.touched, Missed(req), s.portSeq, s.now)
  {
    a := Outbound(req, Instant(s.now), s.now);
    SweepsNothing(s);
    LedByOne(s, a);
    s' := Next(s, a);
  }

  lemma ChooseNow(s: State, n: nat) returns (s': State)
    requires Inv(s) && s.pc.Missed? && s.swept == s.now
    requires FirstFree(s.rows, s.pc.req.proto == ICMP, s.portSeq, n)
    ensures Led(s, [Choose(n)], s')
    ensures var q := Advance(s.portSeq, n);
            StateIs(s', s.rows, s.touched, Chosen(s.pc.req, Candidate(s.pc.req.proto == ICMP, q)), q, s.now)
  {
    LedByOne(s, Choose(n));
    s' := Next(s, Choose(n));
  }

  lemma OpenNow(s: State) returns (a: Action, s': State)
    requires Inv(s) && Fresh(s) && s.pc.Chosen? && Find(s.rows, Vacant) >= 0 && s.swept == s.now
    ensures Led(s, [a], s')
    ensures var i := Find(s.rows, Vacant);
            StateIs(s', s.rows[i := RowOf(FlowOf(s.pc.req, s.pc.port), s.now)], s.touched[i := s.now], Idle,
                    s.portSeq, s.now)
  {
    var times := Instant(s.now);
    a := Open(times, s.now, times, s.now);
    SweepsNothing(s);
    LedByOne(s, a);
    s' := Next(s, a);
  }

  /** Look-up, choice and opening for a new client, with no time passing. */
  lemma NewFlowNow(s: State, req: Request, n: nat) returns (acts: seq<Action>, s': State)
    requires Inv(s) && Fresh(s) && s.pc.Idle? && req.proto in {ICMP, TCP, UDP} && GapWithin(s, s.now)
    requires Find(s.rows, ClientKey(req)) < 0 && Find(s.rows, Vacant) >= 0
    requires FirstFree(s.rows, req.proto == ICMP, s.portSeq, n)
    ensures Led(s, acts, s') && Fresh(s')
    ensures var i, q := Find(s.rows, Vacant), Advance(s.portSeq, n);
            var f := FlowOf(req, Candidate(req.proto == ICMP, q));
            StateIs(s', s.rows[i := RowOf(f, s.now)], s.touched[i := s.now], Idle, q, s.now)
  {
    var look, s1 := MissNow(s, req);
    var s2 := ChooseNow(s1, n);
    var open;
    open, s' := OpenNow(s2);
    LedThen(s, [look], s1, [Choose(n)], s2);
    LedThen(s, [look] + [Choose(n)], s2, [open], s');
    acts := [look] + [Choose(n)] + [open];
  }

  /** In an empty table the very next candidate is free. */
  lemma FirstOfAll(rows: seq<Row>, icmp: bool, q: nat)
    requires Empty(rows)
    ensures FirstFree(rows, icmp, q, 1)
  {
  }

  /** The first flow after start-up. */
  lemma FirstFlow(portSeq: nat, now: nat, req: Request) returns (acts: seq<Action>, s: State, f: Flow)
    requires portSeq < SEQ && req.proto in {ICMP, TCP, UDP}
    ensures Led(Init(portSeq, now), acts, s)
    ensures Inv(s) && Fresh(s) && s.pc.Idle? && s.now == s.swept == now && RequestOf(f) == req
    ensures s.rows[0] == RowOf(f, now) && s.touched[0] == now && forall i :: 0 < i < ROWS ==> !Live(s.rows[i])
  {
    var s0 := Init(portSeq, now);
    InitHolds(portSeq, now);
    FirstOfAll(s0.rows, req.proto == ICMP, portSeq);
    assert Find(s0.rows, Vacant) == 0 by {
      FirstMatchIsFind(s0.rows, Vacant, 0);
    }
    acts, s := NewFlowNow(s0, req, 1);
    f := FlowOf(req, Candidate(req.proto == ICMP, Advance(portSeq, 1)));
  }

  // ---------------------------------------------------------------- sweeps too far apart

  /** A reachable state `gap` after a sweep that took no time, all gaps before having been short. */
  ghost predicate GapAfterSweep(portSeq: nat, now: nat, acts: seq<Action>, gap: nat)
  {
    && portSeq < SEQ && Valid(Init(portSeq, now), acts) && Gapped(Init(portSeq, now), acts)
    && var s := Run(Init(portSeq, now), acts);
       && s.now == s.swept + gap
       && forall i :: 0 <= i < ROWS && Live(s.rows[i]) ==> s.touched[i] <= s.swept
  }

  ghost predicate RightAfter(portSeq: nat, now: nat, acts: seq<Action>)
    requires portSeq < SEQ && Valid(Init(portSeq, now), acts)
  {
    var s := Run(Init(portSeq, now), acts);
    JudgedRight(s, Instant(s.now))
  }

  lemma SafeGapIsRight(portSeq: nat, now: nat, acts: seq<Action>, gap: nat)
    requires GapAfterSweep(portSeq, now, acts, gap) && SafeGap(TIMEOUT, gap)
    ensures RightAfter(portSeq, now, acts)
  {
    InitHolds(portSeq, now);
    RunKeepsExact(Init(portSeq, now), acts);
    GapIsSafeIff(TIMEOUT, gap);
    var s := Run(Init(portSeq, now), acts);
    forall i | 0 <= i < ROWS && Live(s.rows[i])
      ensures Live(Sweep(s.rows, Instant(s.now))[i]) <==> s.now < s.touched[i] + 20_000
    {
      assert RightAbout(TIMEOUT, s.touched[i], s.now);
    }
  }

  /** Time passes until `t`, then a sweep finds nothing to clear. */
  lemma SweepAt(s: State, t: nat) returns (acts: seq<Action>, s': State)
    requires Inv(s) && s.now <= t && Fresh(s.(now := t)) && t - s.swept <= WRAP32 - TIMEOUT
    ensures Led(s, acts, s') && StateIs(s', s.rows, s.touched, s.pc, s.portSeq, t)
  {
    var s1 := Next(s, Tick(t));
    LedByOne(s, Tick(t));
    SweepsNothing(s1);
    var a := Inbound(0, ZERO_IP, 0, Instant(t), t);
    LedByOne(s1, a);
    acts, s' := [Tick(t)] + [a], Next(s1, a);
    LedThen(s, [Tick(t)], s1, [a], s');
  }

  /** After an unsafe gap a row can live that is long too old. */
  lemma UnsafeGapFails(gap: nat, portSeq: nat, now: nat) returns (acts: seq<Action>)
    requires portSeq < SEQ && !SafeGap(TIMEOUT, gap)
    ensures GapAfterSweep(portSeq, now, acts, gap) && !RightAfter(portSeq, now, acts)
    ensures var s := Run(Init(portSeq, now), acts);
            && Live(s.rows[0]) && s.touched[0] + TIMEOUT <= s.now
            && Live(Sweep(s.rows, Instant(s.now))[0])
  {
    var s0 := Init(portSeq, now);
    var age := WrongAge(TIMEOUT, gap);
    var acts1, s1, f := FirstFlow(portSeq, now, Request(UDP, ZERO_IP, 0, ZERO_IP));
    var t := now + (age - gap);
    var acts2, s2 := SweepAt(s1, t);
    var last := Tick(t + gap);
    var s := Next(s2, last);
    LedThen(s0, acts1, s1, acts2, s2);
    LedByOne(s2, last);
    LedThen(s0, acts1 + acts2, s2, [last], s);
    acts := acts1 + acts2 + [last];
    assert s.now == now + age && s.rows[0].ts == now % WRAP32;
    assert SweepRow(s.rows[0], s.now) == s.rows[0];
  }

  /** Which gaps between sweeps a 20-second timeout and 32-bit stamps can stand: exactly the safe ones
      let the next sweep judge every row right, in every run. */
  lemma GapIsExactIff(gap: nat)
    ensures SafeGap(20_000, gap) <==>
            forall portSeq, now, acts | GapAfterSweep(portSeq, now, acts, gap) :: RightAfter(portSeq, now, acts)
  {
    if SafeGap(TIMEOUT, gap) {
      forall portSeq, now, acts | GapAfterSweep(portSeq, now, acts, gap) ensures RightAfter(portSeq, now, acts) {
        SafeGapIsRight(portSeq, now, acts, gap);
      }
    } else {
      var acts := UnsafeGapFails(gap, 0, 0);
    }
  }

  // ---------------------------------------------------------------- a second server

  /** A client sends to one server and then, from the same port, to another. The second packet goes out
      under the mapping of the first, and the second server's answer is refused. */
  lemma SecondServerIsRefused(portSeq: nat, now: nat, req: Request, other: Ipv4)
    returns (acts: seq<Action>, s: State, f: Flow, again: Action, b: Action)
    requires portSeq < SEQ && req.proto in {ICMP, TCP, UDP} && other != req.serverIp
    ensures Took(Init(portSeq, now), acts, s) && Enabled(s, again) && RequestOf(f) == req
    ensures again.Outbound? && again.req == req.(serverIp := other) && Mapping(s, again) == Some(f)
    ensures var s' := Next(s, again);
            && Enabled(s', b) && b.Inbound? && b.proto == req.proto && b.serverIp == other && b.port == f.ltePort
            && Mapping(s', b) == None
  {
    acts, s, f := FirstFlow(portSeq, now, req);
    again := Outbound(req.(serverIp := other), Instant(now), now);
    SweepsNothing(s);
    FirstMatchIsFind(s.rows, ClientKey(req), 0);
    b := Inbound(req.proto, other, f.ltePort, Instant(now), now);
    StepKeepsInv(s, again);
    ReplyFindsRowIff(Next(s, again), [], 0, b);
  }

  // ---------------------------------------------------------------- no identifier left

  /** Pings that differ in client or identifier. */
  ghost predicate Pings(reqs: seq<Request>)
  {
    && (forall i :: 0 <= i < |reqs| ==> reqs[i].proto == ICMP)
    && forall i, j :: 0 <= i < j < |reqs| ==> ClientKey(reqs[i]) != ClientKey(reqs[j])
  }

  /** A row that a ping opened just now. */
  ghost predicate RowOfPing(r: Row, req: Request, now: nat)
  {
    r.ltePort < 256 && r == RowOf(FlowOf(req, r.ltePort), now)
  }

  /** After the first `k` pings, all at the same time: one row each, and no others. */
  ghost predicate Pinged(s: State, reqs: seq<Request>, k: nat, now: nat)
  {
    && Inv(s) && Fresh(s) && s.pc.Idle? && s.now == now && k <= |reqs| && k <= 256 && GapWithin(s, now)
    && (forall i :: 0 <= i < k ==> RowOfPing(s.rows[i], reqs[i], now))
    && forall i :: k <= i < ROWS ==> !Live(s.rows[i])
  }

  function Below(n: nat): (ids: set<nat>)
    ensures |ids| == n && forall id :: id in ids <==> 0 <= id < n
  {
    if n == 0 then {} else Below(n - 1) + {n - 1}
  }

  /** The identifiers of the first `k` rows. */
  function Ids(rows: seq<Row>, k: nat): (ids: set<nat>)
    requires k <= |rows|
    ensures |ids| <= k
    ensures forall i :: 0 <= i < k ==> rows[i].ltePort in ids
  {
    if k == 0 then {} else Ids(rows, k - 1) + {rows[k - 1].ltePort as nat}
  }

  lemma {:induction false} IdOfRow(rows: seq<Row>, k: nat, id: nat) returns (i: nat)
    requires k <= |rows| && id in Ids(rows, k)
    ensures i < k && rows[i].ltePort == id
  {
    if id in Ids(rows, k - 1) {
      i := IdOfRow(rows, k - 1, id);
    } else {
      i := k - 1;
    }
  }

  lemma {:induction false} IdsDiffer(rows: seq<Row>, k: nat)
    requires k <= |rows|
    requires forall i, j :: 0 <= i < j < k ==> rows[i].ltePort != rows[j].ltePort
    ensures |Ids(rows, k)| == k
  {
    if k > 0 {
      IdsDiffer(rows, k - 1);
      if rows[k - 1].ltePort as nat in Ids(rows, k - 1) {
        var i := IdOfRow(rows, k - 1, rows[k - 1].ltePort);
      }
    }
  }

  /** Fewer than 256 rows leave an identifier free. */
  lemma OneIsFree(rows: seq<Row>, k: nat)
    requires k < 256 && k <= |rows| && forall i :: k <= i < |rows| ==> !Live(rows[i])
    ensures !AllTaken(rows)
  {
    if AllTaken(rows) {
      forall id | id in Below(256) ensures id in Ids(rows, k) {
        TakenId(rows, k, id);
      }
      SubsetSize(Below(256), Ids(rows, k));
      assert false;
    }
  }

  lemma TakenId(rows: seq<Row>, k: nat, id: u16)
    requires k <= |rows| && (forall i :: k <= i < |rows| ==> !Live(rows[i])) && Taken(rows, true, id)
    ensures id as nat in Ids(rows, k)
  {
    var i :| 0 <= i < |rows| && Blocks(rows[i], true, id);
  }

  lemma {:induction false} IdsBelow(rows: seq<Row>, k: nat, n: nat)
    requires k <= |rows| && forall i :: 0 <= i < k ==> rows[i].ltePort as nat < n
    ensures Ids(rows, k) <= Below(n)
  {
    if k > 0 {
      IdsBelow(rows, k - 1, n);
    }
  }

  lemma AllOfThem(ids: set<nat>, n: nat, id: nat)
    requires ids <= Below(n) && |ids| == n && id < n
    ensures id in ids
  {
    if id !in ids {
      SubsetSize(ids, Below(n) - {id});
    }
  }

  /** 256 ICMP rows with different identifiers take them all. */
  lemma NoneIsFree(rows: seq<Row>)
    requires 256 <= |rows| && forall i :: 0 <= i < 256 ==> rows[i].proto == ICMP && rows[i].ltePort < 256
    requires forall i, j :: 0 <= i < j < 256 ==> rows[i].ltePort != rows[j].ltePort
    ensures AllTaken(rows)
  {
    IdsDiffer(rows, 256);
    IdsBelow(rows, 256, 256);
    forall id: u16 | id < 256 ensures Taken(rows, true, id) {
      AllOfThem(Ids(rows, 256), 256, id);
      var i := IdOfRow(rows, 256, id);
      assert Blocks(rows[i], true, id);
    }
  }

  lemma PingsTakeAll(s: State, reqs: seq<Request>, now: nat)
    requires Pings(reqs) && Pinged(s, reqs, 256, now)
    ensures AllTaken(s.rows)
  {
    forall i | 0 <= i < 256 ensures s.rows[i].proto == ICMP && s.rows[i].ltePort < 256 {
      assert RowOfPing(s.rows[i], reqs[i], now);
    }
    forall i, j | 0 <= i < j < 256 ensures s.rows[i].ltePort != s.rows[j].ltePort {
      assert ExtOf(Identity(s.rows[i])) != ExtOf(Identity(s.rows[j]));
    }
    NoneIsFree(s.rows);
  }

  lemma PingIsNew(s: State, reqs: seq<Request>, k: nat, now: nat)
    requires Pings(reqs) && Pinged(s, reqs, k, now) && k < |reqs|
    ensures Find(s.rows, ClientKey(reqs[k])) == -1
  {
    forall i | 0 <= i < ROWS ensures !Matches(s.rows[i], ClientKey(reqs[k])) {
      if i < k {
        assert RowOfPing(s.rows[i], reqs[i], now) && ClientKey(reqs[i]) != ClientKey(reqs[k]);
      }
    }
    FirstMatchIsFind(s.rows, ClientKey(reqs[k]), -1);
  }

  lemma OnePingMore(s: State, reqs: seq<Request>, k: nat, now: nat) returns (acts: seq<Action>, s': State)
    requires Pings(reqs) && Pinged(s, reqs, k, now) && k < 256 && k < |reqs|
    ensures Led(s, acts, s') && Pinged(s', reqs, k + 1, now)
  {
    OneIsFree(s.rows, k);
    PingIsNew(s, reqs, k, now);
    FirstMatchIsFind(s.rows, Vacant, k);
    IdentifierFoundIff(s.rows, s.portSeq);
    var n :| FirstFree(s.rows, true, s.portSeq, n);
    acts, s' := NewFlowNow(s, reqs[k], n);
    PingAdded(s, reqs, k, now, s', Candidate(true, Advance(s.portSeq, n)));
  }

  lemma PingAdded(s: State, reqs: seq<Request>, k: nat, now: nat, s': State, id: u16)
    requires Pinged(s, reqs, k, now) && k < 256 && k < |reqs| && id < 256
    requires Inv(s') && Fresh(s') && s'.pc.Idle? && s'.now == now && s'.swept == now
    requires s'.rows == s.rows[k := RowOf(FlowOf(reqs[k], id), now)]
    ensures Pinged(s', reqs, k + 1, now)
  {
    forall i | 0 <= i < k + 1 ensures RowOfPing(s'.rows[i], reqs[i], now) {
      if i < k {
        assert RowOfPing(s.rows[i], reqs[i], now);
      }
    }
  }

  lemma {:induction false} ManyPings(portSeq: nat, now: nat, reqs: seq<Request>, k: nat)
    returns (acts: seq<Action>, s: State)
    requires portSeq < SEQ && Pings(reqs) && k <= |reqs| && k <= 256
    ensures Led(Init(portSeq, now), acts, s) && Pinged(s, reqs, k, now)
  {
    if k == 0 {
      acts, s := [], Init(portSeq, now);
      InitHolds(portSeq, now);
    } else {
      var before, s0 := ManyPings(portSeq, now, reqs, k - 1);
      var more;
      more, s := OnePingMore(s0, reqs, k - 1, now);
      acts := before + more;
      LedThen(Init(portSeq, now), before, s0, more, s);
    }
  }

  /** Any 257 pings that differ in client or identifier, from any position of the port sequence: the
      first 256 take all identifiers, and the search for the last one is stuck. */
  lemma PingsGetStuck(portSeq: nat, now: nat, reqs: seq<Request>) returns (acts: seq<Action>, s: State)
    requires portSeq < SEQ && |reqs| == 257 && Pings(reqs)
    ensures Took(Init(portSeq, now), acts, s) && Inv(s) && s.pc == Missed(reqs[256]) && Stuck(s)
    ensures !exists n :: Enabled(s, Choose(n))
  {
    var before, s0 := ManyPings(portSeq, now, reqs, 256);
    PingsTakeAll(s0, reqs, now);
    PingIsNew(s0, reqs, 256, now);
    var look;
    look, s := MissNow(s0, reqs[256]);
    acts := before + [look];
    LedThen(Init(portSeq, now), before, s0, [look], s);
    SearchEndsIff(s);
  }
}
