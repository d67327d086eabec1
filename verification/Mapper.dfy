/** The mapping side of the gateway: the table, the port generator and the clock, driven as the two
    packet handlers drive them, and tied step by step to the state machine. */
module Mapper {
  import opened Wrappers
  import opened Bytes
  import opened Clock
  import opened PortTable
  import opened PortMap
  import opened PortChoice
  import opened NatMachine
  import opened NatTheorems

  /** How the table half of the outbound handler ends: with a row, with a full table, or not at all. */
  datatype MapResult = Mapped(flow: Flow) | TableFull | NeverEnds

  /** The machine run behind one outbound packet: `look` is the first step; `acts` lead to `pre`, where
      `act`, the last step, gives the mapping. */
  datatype Step = Step(look: Action, acts: seq<Action>, pre: State, act: Action)

  /** For the port mapping, time passed and nothing else happened. */
  ghost predicate Waited(s: State, s': State)
  {
    s' == s.(now := s'.now) && s.now <= s'.now
  }

  /** The handler took the machine through `step`, after which only time passed. */
  ghost predicate MachineStep(s: State, step: Step, s': State)
  {
    && Shape(s) && step.look.Outbound? && Enabled(s, step.look) && (step.acts + [step.act])[0] == step.look
    && Took(s, step.acts, step.pre) && Shape(step.pre) && Enabled(step.pre, step.act)
    && Waited(Next(step.pre, step.act), s')
  }

  lemma ThenWaited(s: State, step: Step, m: State, s': State)
    requires MachineStep(s, step, m) && Waited(m, s')
    ensures MachineStep(s, step, s')
  {
  }

  /** The mapping the table half of the outbound handler ends with, if it ends. There is no end exactly
      when the packet is for ICMP, its client has no row, and after the lookup's own sweep all 256
      identifiers are in use. */
  ghost predicate MapOutcome(s: State, req: Request, step: Step, res: MapResult)
    requires Shape(s) && step.look.Outbound? && Enabled(s, step.look)
    requires Shape(step.pre) && Enabled(step.pre, step.act)
  {
    && step.look.req == req
    && (res.NeverEnds? <==> SearchIsVain(Sweep(s.rows, step.look.times), req))
    && (if res.NeverEnds? then step.act.Spin? else step.act == step.look || step.act.Open?)
    && Mapping(step.pre, step.act) == (if res.Mapped? then Some(res.flow) else None)
    && (res.Mapped? ==> MapsFor(res.flow, req, step.act.Open?))
  }

  /** A mapping of the packet's own client; if it was made for this very packet, also of its
      destination. */
  predicate MapsFor(f: Flow, req: Request, isNew: bool)
  {
    ClientKey(RequestOf(f)) == ClientKey(req) && (isNew ==> f.serverIp == req.serverIp)
  }

  class NatTable {
    const table: Table
    const gen: Generator
    const clock: Uptime

    /** The machine state this object is in, history included. */
    ghost var machine: State

    /** The object is in state `machine`, except that time may have passed since. */
    ghost predicate Behind()
      reads this, table.row, gen, clock
    {
      && table.clock == clock && gen.table == table && table.row.Length == ROWS
      && machine.rows == table.row[..] && machine.portSeq == gen.portSeq && machine.now <= clock.now
      && Inv(machine)
    }

    ghost predicate Valid()
      reads this, table.row, gen, clock
    {
      Behind() && machine.now == clock.now
    }

    constructor (clock: Uptime)
      ensures Valid() && fresh(table) && fresh(table.row) && fresh(gen) && this.clock == clock
      ensures machine == Init(0, clock.now)
    {
      var t := new Table(clock);
      this.clock := clock;
      table := t;
      gen := new Generator(t);
      machine := Init(0, clock.now);
      new;
      InitHolds(0, clock.now);
    }

    /** Time has passed; nothing else happened. */
    ghost method Tick()
      requires Behind()
      modifies this`machine
      ensures Valid() && machine == old(machine).(now := clock.now)
    {
      StepKeepsInv(machine, Action.Tick(clock.now));
      machine := Next(machine, Action.Tick(clock.now));
    }

    /** First step of the outbound handler: look the client up. */
    method LookUpClient(req: Request) returns (r: int, ghost a: Action)
      requires Valid() && machine.pc.Idle? && req.proto in {ICMP, TCP, UDP}
      modifies this`machine, table.row, clock
      ensures old(clock.now) <= clock.now && Valid() && a.Outbound? && a.req == req
      ensures Enabled(old(machine), a) && machine == Next(old(machine), a)
      ensures -1 <= r < ROWS && r == Find(Sweep(old(machine.rows), a.times), ClientKey(req))
      ensures Mapping(old(machine), a) == if r < 0 then None else Some(Identity(table.row[r]))
      ensures r >= 0 ==> Matches(table.row[r], ClientKey(req))
    {
      ghost var times: seq<nat>;
      r, times := table.Search(ClientKey(req));
      a := Outbound(req, times, clock.now);
      StepKeepsInv(machine, a);
      machine := Next(machine, a);
    }

    /** Second step, after a miss: choose a port or identifier. Without a result the search goes on. */
    method ChoosePort(icmp: bool) returns (port: Option<u16>, ghost a: Action)
      requires Valid() && machine.pc.Missed? && icmp == (machine.pc.req.proto == ICMP)
      modifies this`machine, gen
      ensures Valid() && Enabled(old(machine), a) && machine == Next(old(machine), a)
      ensures port.None? <==> icmp && AllTaken(old(machine.rows))
      ensures if port.None? then a.Spin? else a.Choose? && machine.pc == Chosen(old(machine.pc.req), port.value)
    {
      ghost var n: nat;
      port, n := gen.Generate(icmp);
      a := if port.None? then Spin(n) else Choose(n);
      StepKeepsInv(machine, a);
      machine := Next(machine, a);
    }

    /** Third step: open a row under the chosen port, if there is a free one. */
    method OpenRow(req: Request, port: u16) returns (r: int, ghost a: Action)
      requires Valid() && machine.pc == Chosen(req, port)
      modifies this`machine, table.row, clock
      ensures old(clock.now) <= clock.now && Valid() && a.Open? && machine.pc.Idle?
      ensures Enabled(old(machine), a) && machine == Next(old(machine), a)
      ensures -1 <= r < ROWS
      ensures Mapping(old(machine), a) == if r < 0 then None else Some(Identity(table.row[r]))
      ensures r >= 0 ==> Identity(table.row[r]) == FlowOf(req, port)
    {
      ghost var times: seq<nat>, times2: seq<nat>, mid: nat;
      r, times, times2, mid := table.Add(req.proto, req.clientIp, req.ethPort, req.serverIp, port);
      a := Open(times, mid, times2, clock.now);
      StepKeepsInv(machine, a);
      machine := Next(machine, a);
    }

    /** After a miss: choose a port, then open a row. `acts` lead to the last step `a`. */
    method ChooseAndOpen(req: Request)
      returns (res: MapResult, ghost acts: seq<Action>, ghost pre: State, ghost a: Action)
      requires Valid() && machine.pc == Missed(req)
      modifies this`machine, table.row, gen, clock
      ensures Valid() && old(clock.now) <= clock.now
      ensures machine.pc == if res.NeverEnds? then Missed(req) else Idle
      ensures Took(old(machine), acts, pre) && Enabled(pre, a) && machine == Next(pre, a)
      ensures if res.NeverEnds? then a.Spin? else a.Open?
      ensures res.NeverEnds? <==> req.proto == ICMP && AllTaken(old(machine.rows))
      ensures Mapping(pre, a) == if res.Mapped? then Some(res.flow) else None
      ensures res.Mapped? ==> RequestOf(res.flow) == req
    {
      ghost var s0 := machine;
      var port: Option<u16>;
      port, a := ChoosePort(req.proto == ICMP);
      if port.None? {
        return NeverEnds, [], s0, a;
      }
      TookOneMore(s0, [], s0, a);
      acts, pre := [] + [a], machine;
      var r;
      r, a := OpenRow(req, port.value);
      res := if r < 0 then TableFull else Mapped(Identity(table.row[r]));
    }

    /** The table half of the outbound handler: look the client up; on a miss choose a port and open a
        row. */
    method MapOutbound(req: Request) returns (res: MapResult, ghost step: Step)
      requires Valid() && machine.pc.Idle? && req.proto in {ICMP, TCP, UDP}
      modifies this`machine, table.row, gen, clock
      ensures Valid() && old(clock.now) <= clock.now
      ensures machine.pc == if res.NeverEnds? then Missed(req) else Idle
      ensures MachineStep(old(machine), step, machine) && MapOutcome(old(machine), req, step, res)
    {
      ghost var s0 := machine;
      ghost var look: Action;
      var r: int;
      r, look := LookUpClient(req);
      if r >= 0 {
        return Mapped(Identity(table.row[r])), Step(look, [], s0, look);
      }
      ghost var s1 := machine;
      TookOneMore(s0, [], s0, look);
      ghost var acts: seq<Action>, pre: State, a: Action;
      res, acts, pre, a := ChooseAndOpen(req);
      step := Step(look, [look] + acts, pre, a);
      TookThen(s0, [look], s1, acts, pre);
    }

    /** The table half of the inbound handler. */
    method MapInbound(proto: byte, serverIp: Ipv4, port: u16) returns (r: int, ghost a: Action)
      requires Valid()
      modifies this`machine, table.row, clock
      ensures old(clock.now) <= clock.now && Valid() && machine.pc == old(machine.pc)
      ensures a.Inbound? && a.proto == proto && a.serverIp == serverIp && a.port == port
      ensures Enabled(old(machine), a) && machine == Next(old(machine), a)
      ensures -1 <= r < ROWS
      ensures Mapping(old(machine), a) == if r < 0 then None else Some(Identity(table.row[r]))
    {
      ghost var times: seq<nat>;
      r, times := table.Search(Server(proto, serverIp, port));
      a := Inbound(proto, serverIp, port, times, clock.now);
      StepKeepsInv(machine, a);
      machine := Next(machine, a);
    }
  }
}
