/** Choosing an external port or ICMP identifier: a cyclic sequence shared by two generators. */
module PortChoice {
  import opened Wrappers
  import opened Bytes
  import opened PortTable
  import opened PortMap

  const PORT_BASE: nat := 32768
  const SEQ: nat := ROWS * 4 + 1

  /** `port_seq` after `n` increments. */
  function Advance(q: nat, n: nat): (r: nat)
    ensures r < SEQ
  {
    (q + n) % SEQ
  }

  lemma AdvanceOnce(q: nat, n: nat)
    ensures Advance(q, n + 1) == (Advance(q, n) + 1) % SEQ
  {
  }

  lemma AdvanceWithinCycle(q: nat, n: nat)
    requires q < SEQ && n <= SEQ
    ensures Advance(q, n) == if q + n < SEQ then q + n else q + n - SEQ
  {
  }

  function Candidate(icmp: bool, q: nat): (port: u16)
    requires q < SEQ
  {
    if icmp then q % 256 else q + PORT_BASE
  }

  /** The row keeps this identifier (ICMP) or this port (all other protocols) from being given out. */
  predicate Blocks(r: Row, icmp: bool, port: u16)
  {
    Live(r) && (r.proto == ICMP) == icmp && r.ltePort == port
  }

  ghost predicate Taken(rows: seq<Row>, icmp: bool, port: u16)
  {
    exists i :: 0 <= i < |rows| && Blocks(rows[i], icmp, port)
  }

  ghost predicate TakenAt(rows: seq<Row>, icmp: bool, q: nat, n: nat)
  {
    Taken(rows, icmp, Candidate(icmp, Advance(q, n)))
  }

  /** The first `n` candidates after `q` are all taken. */
  ghost predicate Fruitless(rows: seq<Row>, icmp: bool, q: nat, n: nat)
  {
    forall k :: 1 <= k <= n ==> TakenAt(rows, icmp, q, k)
  }

  /** The `n`-th candidate after `q` is the first one no live row holds. */
  ghost predicate FirstFree(rows: seq<Row>, icmp: bool, q: nat, n: nat)
  {
    1 <= n && !TakenAt(rows, icmp, q, n) && forall k :: 1 <= k < n ==> TakenAt(rows, icmp, q, k)
  }

  lemma FirstFreeUpTo(rows: seq<Row>, icmp: bool, q: nat, bound: nat) returns (n: nat)
    requires 1 <= bound && !TakenAt(rows, icmp, q, bound)
    ensures n <= bound && FirstFree(rows, icmp, q, n)
  {
    n := 1;
    while TakenAt(rows, icmp, q, n)
      invariant 1 <= n <= bound
      invariant forall k :: 1 <= k < n ==> TakenAt(rows, icmp, q, k)
      decreases bound - n
    {
      n := n + 1;
    }
  }

  function PortsOf(rows: seq<Row>): (ports: set<u16>)
    ensures |ports| <= |rows|
    ensures forall i :: 0 <= i < |rows| ==> rows[i].ltePort in ports
  {
    if rows == [] then {}
    else
      var last := |rows| - 1;
      PortsOf(rows[..last]) + {rows[last].ltePort}
  }

  function FirstCandidates(q: nat, n: nat): (ports: set<u16>)
    requires q < SEQ && n <= SEQ
    ensures forall p :: p in ports ==> exists k :: 1 <= k <= n && p == Candidate(false, Advance(q, k))
  {
    if n == 0 then {} else FirstCandidates(q, n - 1) + {Candidate(false, Advance(q, n))}
  }

  /** Within one cycle no port comes up twice. */
  lemma {:induction false} CandidatesDiffer(q: nat, n: nat)
    requires q < SEQ && n <= SEQ
    ensures |FirstCandidates(q, n)| == n
  {
    if n > 0 {
      CandidatesDiffer(q, n - 1);
      var p := Candidate(false, Advance(q, n));
      if p in FirstCandidates(q, n - 1) {
        var k :| 1 <= k <= n - 1 && p == Candidate(false, Advance(q, k));
        AdvanceWithinCycle(q, k);
        AdvanceWithinCycle(q, n);
        assert false;
      }
    }
  }

  /** At most 2048 rows cannot block 2049 different ports: a port is found within 2049 tries. */
  lemma PortFoundWithin2049(rows: seq<Row>, q: nat) returns (n: nat)
    requires |rows| <= ROWS && q < SEQ
    ensures n <= ROWS + 1 && FirstFree(rows, false, q, n)
  {
    if forall k :: 1 <= k <= ROWS + 1 ==> TakenAt(rows, false, q, k) {
      var tried := FirstCandidates(q, ROWS + 1);
      CandidatesDiffer(q, ROWS + 1);
      forall p | p in tried ensures p in PortsOf(rows) {
        var k :| 1 <= k <= ROWS + 1 && p == Candidate(false, Advance(q, k));
        assert TakenAt(rows, false, q, k);
      }
      SubsetSize(tried, PortsOf(rows));
      assert false;
    }
    var bound :| 1 <= bound <= ROWS + 1 && !TakenAt(rows, false, q, bound);
    n := FirstFreeUpTo(rows, false, q, bound);
  }

  lemma SubsetSize<T>(a: set<T>, b: set<T>)
    requires a <= b
    ensures |a| <= |b|
  {
    if a != {} {
      var x :| x in a;
      SubsetSize(a - {x}, b - {x});
    }
  }

  /** Any 257 consecutive sequence values run through all 256 identifiers, the wrap included. */
  lemma EveryIdentifierComesUp(q: nat, id: nat) returns (k: nat)
    requires q < SEQ && id < 256
    ensures 1 <= k <= 257 && Candidate(true, Advance(q, k)) == id
  {
    var left := SEQ - 1 - q;
    if left >= 256 {
      var d := (q + 1) % 256;
      k := if id >= d then 1 + id - d else 257 + id - d;
    } else if id <= 256 - left {
      k := left + 1 + id;
    } else {
      k := id + left - 256;
    }
    AdvanceWithinCycle(q, k);
  }

  /** Every ICMP identifier is in use. */
  ghost predicate AllTaken(rows: seq<Row>)
  {
    forall id: u16 :: id < 256 ==> Taken(rows, true, id)
  }

  /** The identifier search ends, within 257 tries, exactly when some identifier is not in use. */
  lemma IdentifierFoundIff(rows: seq<Row>, q: nat)
    requires q < SEQ
    ensures !AllTaken(rows) <==> exists n :: n <= 257 && FirstFree(rows, true, q, n)
    ensures (exists n :: n <= 257 && FirstFree(rows, true, q, n)) <==> exists n :: FirstFree(rows, true, q, n)
  {
    if id: u16 :| id < 256 && !Taken(rows, true, id) {
      var k := EveryIdentifierComesUp(q, id);
      var n := FirstFreeUpTo(rows, true, q, k);
    }
    if n :| FirstFree(rows, true, q, n) {
      assert !Taken(rows, true, Candidate(true, Advance(q, n)));
    }
  }

  class Generator {
    const table: Table
    var portSeq: u16

    constructor (table: Table)
      ensures this.table == table && portSeq == 0
    {
      this.table := table;
      portSeq := 0;
    }

    method IsDuplicate(icmp: bool, port: u16) returns (dup: bool)
      ensures dup == Taken(table.row[..], icmp, port)
      ensures dup <==> exists i :: 0 <= i < table.row.Length && table.row[i].proto != 0
                         && (table.row[i].proto == 1 <==> icmp) && table.row[i].ltePort == port
    {
      dup := false;
      var i := 0;
      while i < table.row.Length
        invariant 0 <= i <= table.row.Length
        invariant forall j :: 0 <= j < i ==> !Blocks(table.row[j], icmp, port)
      {
        if Blocks(table.row[i], icmp, port) {
          assert Blocks(table.row[..][i], icmp, port);
          return true;
        }
        i := i + 1;
      }
    }

    /** `lte_port_genarator` and `lte_port_genarator_icmp_echo`. In the code nothing ends the second one
        when all 256 identifiers are in use. 257 failures in a row are enough to know that, as the table
        does not change meanwhile: the result `None` stands for going round for ever. */
    method Generate(icmp: bool) returns (port: Option<u16>, ghost n: nat)
      requires portSeq as int < SEQ && table.row.Length == ROWS
      modifies this
      ensures port.None? <==> icmp && AllTaken(table.row[..])
      ensures port.None? ==> Fruitless(table.row[..], icmp, old(portSeq), n)
      ensures port.Some? ==> FirstFree(table.row[..], icmp, old(portSeq), n) && n <= if icmp then 257 else 2049
      ensures port.Some? ==> !Taken(table.row[..], icmp, port.value)
      ensures portSeq == Advance(old(portSeq), n) && (port.Some? ==> port.value == Candidate(icmp, portSeq))
      ensures port.Some? ==>
                port.value as int == var q := (old(portSeq) + n) % 8193; if icmp then q % 256 else 32768 + q
    {
      ghost var rows, q := table.row[..], portSeq;
      ghost var bound: nat := 257;
      if !icmp {
        bound := PortFoundWithin2049(rows, q);
      }
      var tries := 0;
      port, n := None, 0;
      while port.None? && (!icmp || tries < 257)
        invariant n == tries <= bound && portSeq == Advance(q, n)
        invariant port.None? ==> Fruitless(rows, icmp, q, n)
        invariant port.Some? ==> FirstFree(rows, icmp, q, n) && port.value == Candidate(icmp, portSeq)
        decreases port.None?, bound - n
      {
        AdvanceOnce(q, n);
        portSeq := (portSeq + 1) % SEQ;
        n, tries := n + 1, tries + 1;
        var tmp := Candidate(icmp, portSeq);
        var dup := IsDuplicate(icmp, tmp);
        if !dup {
          port := Some(tmp);
        }
      }
      if port.None? {
        AllTried(rows, q);
      }
    }
  }

  lemma AllTried(rows: seq<Row>, q: nat)
    requires q < SEQ && Fruitless(rows, true, q, 257)
    ensures AllTaken(rows)
  {
    forall id: u16 | id < 256 ensures Taken(rows, true, id) {
      var k := EveryIdentifierComesUp(q, id);
      assert TakenAt(rows, true, q, k);
    }
  }
}
