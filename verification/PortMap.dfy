/** The port-mapping table as the firmware keeps it: one array of rows, updated in place. */
module PortMap {
  import opened Bytes
  import opened Clock
  import opened PortTable

  class Table {
    const row: array<Row>
    const clock: Uptime

    /** `init_pmap`: every row zeroed. */
    constructor (clock: Uptime)
      ensures fresh(row) && this.clock == clock && row.Length == 2048
      ensures row[..] == seq(2048, _ => Row(0, Ipv4(0, 0, 0, 0), 0, Ipv4(0, 0, 0, 0), 0, 0))
    {
      this.clock := clock;
      this.row := new Row[ROWS](_ => ZERO_ROW);
    }

    /** `__gc_pmap`: clear every live row that has timed out, sampling the clock for each. */
    method Gc() returns (ghost times: seq<nat>)
      modifies row, clock
      ensures Samples(times, row.Length, old(clock.now), clock.now)
      ensures row[..] == Sweep(old(row[..]), times)
    {
      times := [];
      var i := 0;
      while i < row.Length
        invariant 0 <= i <= row.Length
        invariant Samples(times, i, old(clock.now), clock.now)
        invariant forall j :: 0 <= j < i ==> row[j] == SweepRow(old(row[j]), times[j])
        invariant forall j :: i <= j < row.Length ==> row[j] == old(row[j])
      {
        var t := clock.Sample();
        times := times + [clock.now];
        if Live(row[i]) && IsTimeout(TIMEOUT, row[i].ts, t) {
          row[i] := Cleared(row[i]);
        }
        i := i + 1;
      }
    }

    /** The scan shared by every search: the index of the first match, or -1. */
    method Scan(k: Key) returns (r: int)
      ensures r == Find(row[..], k)
    {
      var i := 0;
      while i < row.Length
        invariant 0 <= i <= row.Length
        invariant forall j :: 0 <= j < i ==> !Matches(row[j], k)
      {
        if Matches(row[i], k) {
          FirstMatchIsFind(row[..], k, i);
          return i;
        }
        i := i + 1;
      }
      FirstMatchIsFind(row[..], k, -1);
      return -1;
    }

    /** `search_pmap_by_server_info`, `search_pmap_by_client_info` and the two `update_pmap_by_*`
        functions, whose bodies are the same: sweep, find, re-stamp. */
    method Search(k: Key) returns (r: int, ghost times: seq<nat>)
      modifies row, clock
      ensures Samples(times, row.Length, old(clock.now), clock.now)
      ensures row[..] == Looked(old(row[..]), k, times, clock.now)
      ensures r == Find(Sweep(old(row[..]), times), k)
    {
      times := Gc();
      r := Scan(k);
      if r >= 0 {
        var t := clock.Sample();
        row[r] := row[r].(ts := t);
      }
    }

    /** `search_pmap_empty`. */
    method SearchEmpty() returns (r: int, ghost times: seq<nat>)
      modifies row, clock
      ensures Samples(times, row.Length, old(clock.now), clock.now)
      ensures row[..] == Sweep(old(row[..]), times)
      ensures r == Find(row[..], Vacant)
    {
      times := Gc();
      r := Scan(Vacant);
    }

    /** `remove_pmap_by_server_info` and `remove_pmap_by_client_info`. */
    method Remove(k: Key) returns (ghost times: seq<nat>)
      modifies row, clock
      ensures Samples(times, row.Length, old(clock.now), clock.now)
      ensures row[..] == Removed(old(row[..]), k, times)
    {
      times := Gc();
      var r := Scan(k);
      if r >= 0 {
        row[r] := ZERO_ROW;
      }
    }

    /** `add_pmap`: sweep, sweep again while looking for a free row, then fill it. */
    method Add(proto: byte, clientIp: Ipv4, ethPort: u16, serverIp: Ipv4, ltePort: u16)
      returns (r: int, ghost times: seq<nat>, ghost times2: seq<nat>, ghost mid: nat)
      modifies row, clock
      ensures Samples(times, row.Length, old(clock.now), mid)
      ensures Samples(times2, row.Length, mid, clock.now)
      ensures row[..] == Added(old(row[..]), Row(proto, clientIp, ethPort, serverIp, ltePort, clock.now % WRAP32),
                               times, times2)
      ensures r == Find(Sweep(Sweep(old(row[..]), times), times2), Vacant)
    {
      times := Gc();
      mid := clock.now;
      r, times2 := SearchEmpty();
      if r >= 0 {
        var t := clock.Sample();
        row[r] := Row(proto, clientIp, ethPort, serverIp, ltePort, t);
      }
    }
  }
}
