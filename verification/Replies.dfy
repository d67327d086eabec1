/** From a mapping to the answers that come back under it, and how a new flow gets its mapping. */
module Replies {
  import opened Wrappers
  import opened Bytes
  import opened PortTable
  import opened PortChoice
  import opened NatMachine
  import opened NatTheorems

  /** The row an outbound packet finds or opens. */
  ghost function RowUsed(s: State, a: Action): (i: int)
    requires Shape(s) && Enabled(s, a) && (a.Outbound? || a.Open?)
    ensures -1 <= i < ROWS
  {
    if a.Outbound? then Find(Sweep(s.rows, a.times), ClientKey(a.req))
    else Find(Sweep(Sweep(s.rows, a.times), a.times2), Vacant)
  }

  /** That row holds the packet's mapping, and was stamped just now. */
  lemma MappedRow(s: State, a: Action)
    requires Inv(s) && Enabled(s, a) && (a.Outbound? || a.Open?) && Mapping(s, a).Some?
    ensures var s', i := Next(s, a), RowUsed(s, a);
            i >= 0 && Live(s'.rows[i]) && Some(Identity(s'.rows[i])) == Mapping(s, a) && s'.touched[i] == a.at
  {
  }

  /** In a later state, reached while row `i` was kept alive, an inbound packet to the row's external
      name gets through, and to the row's client, exactly when it comes from the row's own server and
      protocol. */
  lemma ReplyFindsRowIff(s: State, acts: seq<Action>, i: nat, b: Action)
    requires Inv(s) && Valid(s, acts) && i < ROWS && Live(s.rows[i]) && KeptAlive(s, acts, i)
    requires var s' := Run(s, acts); Enabled(s', b) && b.Inbound? && b.at < s'.touched[i] + TIMEOUT
    requires var f := Identity(s.rows[i]); b.port == f.ltePort && (b.proto == ICMP) == (f.proto == ICMP)
    ensures var f := Identity(s.rows[i]);
            Mapping(Run(s, acts), b) == if b.serverIp == f.serverIp && b.proto == f.proto then Some(f) else None
  {
    MappingIsStable(s, acts, i);
    RunKeepsInv(s, acts);
    var s' := Run(s, acts);
    StepKeepsRow(s', b, i);
    NameIsTaken(s', b, i);
  }

  /** No other row can answer for the external name of a live row. */
  lemma NameIsTaken(s: State, b: Action, i: nat)
    requires Inv(s) && Enabled(s, b) && b.Inbound? && i < ROWS && Live(s.rows[i])
    requires b.port == s.rows[i].ltePort && (b.proto == ICMP) == (s.rows[i].proto == ICMP)
    ensures Mapping(s, b).Some? ==> Mapping(s, b).value == Identity(s.rows[i])
  {
    var rows := Sweep(s.rows, b.times);
    var j := Find(rows, Server(b.proto, b.serverIp, b.port));
    if j >= 0 {
      assert Live(s.rows[j]) && ExtOf(Identity(s.rows[j])) == ExtOf(Identity(s.rows[i]));
    }
  }

  // ---------------------------------------------------------------- a new flow

  /** A step that is not the outbound thread's. */
  predicate OtherStep(a: Action)
  {
    a.Tick? || a.Inbound? || a.Remove?
  }

  ghost predicate OthersOnly(acts: seq<Action>)
  {
    forall k :: 0 <= k < |acts| ==> OtherStep(acts[k])
  }

  /** The other thread only takes rows away. */
  lemma OtherStepShrinks(s: State, a: Action)
    requires Shape(s) && Enabled(s, a) && OtherStep(a)
    ensures var s' := Next(s, a); s'.pc == s.pc && s'.portSeq == s.portSeq && Subtable(s'.rows, s.rows)
  {
  }

  lemma {:induction false} OthersShrink(s: State, acts: seq<Action>)
    requires Shape(s) && Valid(s, acts) && OthersOnly(acts)
    ensures var s' := Run(s, acts); s'.pc == s.pc && s'.portSeq == s.portSeq && Subtable(s'.rows, s.rows)
    decreases |acts|
  {
    if acts != [] {
      OtherStepShrinks(s, acts[0]);
      OthersShrink(Next(s, acts[0]), acts[1..]);
    }
  }

  /** What is free stays free. */
  lemma SubtableFreer(rows': seq<Row>, rows: seq<Row>)
    requires Subtable(rows', rows)
    ensures Find(rows, Vacant) >= 0 ==> Find(rows', Vacant) >= 0
    ensures !AllTaken(rows) ==> !AllTaken(rows')
  {
    if Find(rows, Vacant) >= 0 {
      assert !Live(rows'[Find(rows, Vacant)]);
    }
    if id: u16 :| id < 256 && !Taken(rows, true, id) {
      forall j | 0 <= j < |rows'| ensures !Blocks(rows'[j], true, id) {
        assert !Blocks(rows[j], true, id);
      }
      assert !Taken(rows', true, id);
    }
  }

  /** The three steps of the outbound thread for a packet whose client has no row, and what the other
      thread does between them: `look` misses in `s`, `choose` is taken in `s2`, `open` in `s4`. */
  ghost predicate NewFlow(s: State, look: Action, acts1: seq<Action>, s2: State, choose: Action,
                          acts2: seq<Action>, s4: State, open: Action)
  {
    && Inv(s) && look.Outbound? && Enabled(s, look) && Find(Sweep(s.rows, look.times), ClientKey(look.req)) < 0
    && Took(Next(s, look), acts1, s2) && OthersOnly(acts1)
    && choose.Choose? && Enabled(s2, choose)
    && Took(Next(s2, choose), acts2, s4) && OthersOnly(acts2)
    && open.Open? && Enabled(s4, open)
  }

  /** After the miss, the choice can be made whatever the other thread does, if the lookup left an
      identifier free. */
  lemma ChoiceIsPossible(s: State, look: Action, acts: seq<Action>, s2: State)
    requires Inv(s) && look.Outbound? && Enabled(s, look) && Find(Sweep(s.rows, look.times), ClientKey(look.req)) < 0
    requires Took(Next(s, look), acts, s2) && OthersOnly(acts)
    requires !SearchIsVain(Sweep(s.rows, look.times), look.req)
    ensures Inv(s2) && s2.pc == Missed(look.req) && exists n :: Enabled(s2, Choose(n))
  {
    StepKeepsInv(s, look);
    RunKeepsInv(Next(s, look), acts);
    OthersShrink(Next(s, look), acts);
    SubtableFreer(s2.rows, Next(s, look).rows);
    SearchEndsIff(s2);
  }

  /** Inside `NewFlow` the thread does reach the opening with the port chosen, and the free row that the
      lookup left is still there. */
  lemma ReadyToOpen(s: State, look: Action, acts1: seq<Action>, s2: State, choose: Action,
                    acts2: seq<Action>, s4: State, open: Action)
    requires NewFlow(s, look, acts1, s2, choose, acts2, s4, open)
    ensures Inv(s4) && s4.pc == Chosen(look.req, Candidate(look.req.proto == ICMP, Advance(s2.portSeq, choose.n)))
    ensures Find(Sweep(s.rows, look.times), Vacant) >= 0 ==> Find(s4.rows, Vacant) >= 0
  {
    var s1, s3 := Next(s, look), Next(s2, choose);
    StepKeepsInv(s, look);
    RunKeepsInv(s1, acts1);
    OthersShrink(s1, acts1);
    SubtableFreer(s2.rows, s1.rows);
    StepKeepsInv(s2, choose);
    RunKeepsInv(s3, acts2);
    OthersShrink(s3, acts2);
    SubtableFreer(s4.rows, s3.rows);
  }

  lemma SweepFreer(rows: seq<Row>, times: seq<nat>)
    requires |times| == |rows|
    ensures Find(rows, Vacant) >= 0 ==> Find(Sweep(rows, times), Vacant) >= 0
  {
    SubtableFreer(Sweep(rows, times), rows);
  }

  /** However the two threads interleave and however long it takes, a packet of a client without a row
      gets one if the lookup's sweep left a free row; the row is for the packet's client and server, under
      the port chosen, and the thread is idle again. */
  lemma NewFlowGetsRow(s: State, look: Action, acts1: seq<Action>, s2: State, choose: Action,
                       acts2: seq<Action>, s4: State, open: Action)
    requires NewFlow(s, look, acts1, s2, choose, acts2, s4, open)
    requires Find(Sweep(s.rows, look.times), Vacant) >= 0
    ensures var port := Candidate(look.req.proto == ICMP, Advance(s2.portSeq, choose.n));
            var f, s5, i := FlowOf(look.req, port), Next(s4, open), RowUsed(s4, open);
            && Mapping(s4, open) == Some(f) && Inv(s5) && s5.pc.Idle?
            && i >= 0 && Live(s5.rows[i]) && Identity(s5.rows[i]) == f && s5.touched[i] == open.at
  {
    ReadyToOpen(s, look, acts1, s2, choose, acts2, s4, open);
    SweepFreer(s4.rows, open.times);
    SweepFreer(Sweep(s4.rows, open.times), open.times2);
    StepKeepsInv(s4, open);
    MappedRow(s4, open);
  }

  /** From then on, after any steps that keep the row alive, an answer to the row's external name gets
      through to that client exactly when it comes from that server. */
  lemma NewFlowIsAnswered(s: State, look: Action, acts1: seq<Action>, s2: State, choose: Action,
                          acts2: seq<Action>, s4: State, open: Action, acts3: seq<Action>, s6: State, b: Action)
    requires NewFlow(s, look, acts1, s2, choose, acts2, s4, open)
    requires Find(Sweep(s.rows, look.times), Vacant) >= 0
    requires var i := RowUsed(s4, open);
             i >= 0 && Took(Next(s4, open), acts3, s6) && KeptAlive(Next(s4, open), acts3, i)
             && Enabled(s6, b) && b.Inbound? && b.at < s6.touched[i] + TIMEOUT
    requires b.proto == look.req.proto && b.port == Candidate(look.req.proto == ICMP, Advance(s2.portSeq, choose.n))
    ensures Mapping(s6, b) == if b.serverIp == look.req.serverIp then Some(FlowOf(look.req, b.port)) else None
  {
    NewFlowGetsRow(s, look, acts1, s2, choose, acts2, s4, open);
    ReplyFindsRowIff(Next(s4, open), acts3, RowUsed(s4, open), b);
  }
}
