/** The port-mapping table as a value: rows, the sweep, and the first-match searches. */
module PortTable {
  import opened Bytes
  import opened Clock

  const ROWS: nat := 2048
  const TIMEOUT: u32 := 20_000

  const ICMP: byte := 1
  const TCP: byte := 6
  const UDP: byte := 17

  datatype Row = Row(proto: byte, clientIp: Ipv4, ethPort: u16, serverIp: Ipv4, ltePort: u16, ts: u32)

  const ZERO_ROW := Row(0, ZERO_IP, 0, ZERO_IP, 0, 0)

  /** What a search looks for: a packet's server side, its client side, or a free row. */
  datatype Key =
    | Server(proto: byte, ip: Ipv4, port: u16)
    | Client(proto: byte, ip: Ipv4, port: u16)
    | Vacant

  predicate Live(r: Row)
  {
    r.proto != 0
  }

  predicate Matches(r: Row, k: Key)
  {
    match k
    case Vacant => !Live(r)
    case Server(p, ip, port) => Live(r) && r.proto == p && r.serverIp == ip && r.ltePort == port
    case Client(p, ip, port) => Live(r) && r.proto == p && r.clientIp == ip && r.ethPort == port
  }

  /** What expiry leaves of a row: everything but the time stamp is zeroed. */
  function Cleared(r: Row): (r': Row)
  {
    Row(0, ZERO_IP, 0, ZERO_IP, 0, r.ts)
  }

  function SweepRow(r: Row, t: nat): (r': Row)
  {
    if Live(r) && IsTimeout(TIMEOUT, r.ts, t % WRAP32) then Cleared(r) else r
  }

  /** Cleared is what was stamped 20 seconds before or earlier, as far as 32 bits can tell. */
  lemma SweepRowIs(r: Row, t: nat)
    ensures SweepRow(r, t) ==
            if r.proto != 0 && (t - r.ts) % 0x1_0000_0000 >= 20_000
            then Row(0, Ipv4(0, 0, 0, 0), 0, Ipv4(0, 0, 0, 0), 0, r.ts) else r
  {
    var now: int := t % WRAP32;
    assert (t - r.ts) % WRAP32 == (now - r.ts) % WRAP32;
  }

  /** One clock sample per row, all taken between `lo` and `hi`. */
  ghost predicate Samples(times: seq<nat>, n: nat, lo: nat, hi: nat)
  {
    |times| == n && lo <= hi && forall i :: 0 <= i < n ==> lo <= times[i] <= hi
  }

  /** A sweep looks at row `i` at its own time `times[i]`. */
  function Sweep(rows: seq<Row>, times: seq<nat>): (rows': seq<Row>)
    requires |times| == |rows|
    ensures |rows'| == |rows|
    ensures forall i :: 0 <= i < |rows| ==> rows'[i] == SweepRow(rows[i], times[i])
  {
    seq(|rows|, i requires 0 <= i < |rows| => SweepRow(rows[i], times[i]))
  }

  /** The first matching row from `i` on, or -1. */
  function FindFrom(rows: seq<Row>, k: Key, i: nat): (r: int)
    requires i <= |rows|
    ensures r == -1 || i <= r < |rows|
    ensures r >= 0 ==> Matches(rows[r], k) && forall j :: i <= j < r ==> !Matches(rows[j], k)
    ensures r < 0 ==> forall j :: i <= j < |rows| ==> !Matches(rows[j], k)
    decreases |rows| - i
  {
    if i == |rows| then -1
    else if Matches(rows[i], k) then i
    else FindFrom(rows, k, i + 1)
  }

  function Find(rows: seq<Row>, k: Key): (r: int)
    ensures -1 <= r < |rows|
    ensures r >= 0 ==> Matches(rows[r], k) && forall j :: 0 <= j < r ==> !Matches(rows[j], k)
    ensures r < 0 ==> forall j :: 0 <= j < |rows| ==> !Matches(rows[j], k)
  {
    FindFrom(rows, k, 0)
  }

  /** `Find` is the only value its contract allows. */
  lemma FirstMatchIsFind(rows: seq<Row>, k: Key, r: int)
    requires -1 <= r < |rows|
    requires r >= 0 ==> Matches(rows[r], k) && forall j :: 0 <= j < r ==> !Matches(rows[j], k)
    requires r < 0 ==> forall j :: 0 <= j < |rows| ==> !Matches(rows[j], k)
    ensures r == Find(rows, k)
  {
  }

  function Stamped(r: Row, t: nat): (r': Row)
  {
    r.(ts := t % WRAP32)
  }

  /** Sweep, then re-stamp the first match: all four search and update functions. */
  function Looked(rows: seq<Row>, k: Key, times: seq<nat>, at: nat): (rows': seq<Row>)
    requires |times| == |rows|
    ensures |rows'| == |rows|
  {
    var swept := Sweep(rows, times);
    var i := Find(swept, k);
    if i < 0 then swept else swept[i := Stamped(swept[i], at)]
  }

  /** Sweep, then zero the first match, time stamp included. */
  function Removed(rows: seq<Row>, k: Key, times: seq<nat>): (rows': seq<Row>)
    requires |times| == |rows|
    ensures |rows'| == |rows|
  {
    var swept := Sweep(rows, times);
    var i := Find(swept, k);
    if i < 0 then swept else swept[i := ZERO_ROW]
  }

  /** Sweep twice, then fill the first free row, if there is one. */
  function Added(rows: seq<Row>, r: Row, times: seq<nat>, times2: seq<nat>): (rows': seq<Row>)
    requires |times| == |times2| == |rows|
    ensures |rows'| == |rows|
  {
    var swept := Sweep(Sweep(rows, times), times2);
    var i := Find(swept, Vacant);
    if i < 0 then swept else swept[i := r]
  }

  // ---------------------------------------------------------------- an add that a sweep cuts in two

  /** A free row after the first `n` of the six stores of `add_pmap`, which write protocol, client,
      its port, server, external port and stamp in this order. */
  function FirstStores(r: Row, w: Row, n: nat): (r': Row)
  {
    Row(if n >= 1 then w.proto else r.proto, if n >= 2 then w.clientIp else r.clientIp,
        if n >= 3 then w.ethPort else r.ethPort, if n >= 4 then w.serverIp else r.serverIp,
        if n >= 5 then w.ltePort else r.ltePort, if n >= 6 then w.ts else r.ts)
  }

  /** The remaining stores. */
  function LastStores(r: Row, w: Row, n: nat): (r': Row)
  {
    FirstStores(w, r, n)
  }

  /** The other thread's sweep looks at the row at `t`, between two stores. */
  function CutAdd(r: Row, w: Row, n: nat, t: nat): (r': Row)
  {
    LastStores(SweepRow(FirstStores(r, w, n), t), w, n)
  }

  /** Table calls are atomic everywhere else in this model. If a sweep does come between the stores of
      an add, the new row survives it exactly when the protocol is not stored yet or the stamp then in
      the row, up to the last store the one of the row's former life, has not timed out. If the row does
      not survive, no search finds it, though the handler goes on as if it had been added. */
  lemma CutAddSurvivesIff(r: Row, w: Row, n: nat, t: nat)
    requires !Live(r) && Live(w) && n <= 6
    ensures var stamp := if n == 6 then w.ts else r.ts;
            CutAdd(r, w, n, t) == w <==> n == 0 || !IsTimeout(TIMEOUT, stamp, t % WRAP32)
    ensures CutAdd(r, w, n, t) != w ==> forall k: Key :: !k.Vacant? ==> !Matches(CutAdd(r, w, n, t), k)
  {
  }

  /** That is the rule, not the exception: any row last used between 20 seconds and 2^32 ms before. */
  lemma CutAddIsLost(r: Row, w: Row, n: nat, t: nat, used: nat)
    requires !Live(r) && Live(w) && 1 <= n <= 5 && r.ts == used % WRAP32 && used + TIMEOUT <= t < used + WRAP32
    ensures !Live(CutAdd(r, w, n, t))
  {
    RightBelowWrap(TIMEOUT, used, t);
  }
}
