/** The ARP cache: a table of expiring rows, updated in place, that refines a finite map from
    addresses to the MAC last learnt and when. */
module ArpCache {
  import opened Wrappers
  import opened Bytes
  import opened Clock
  import opened PortTable

  const ARP_ROWS: nat := 96
  const ARP_TIMEOUT: u32 := 1_200_000

  type Mac = s: seq<byte> | |s| == 6 witness [0, 0, 0, 0, 0, 0]

  /** A row is free when its address is 0. */
  datatype ArpRow = ArpRow(ip: Ipv4, mac: Mac, ts: u32)

  const ZERO_ARP := ArpRow(ZERO_IP, [0, 0, 0, 0, 0, 0], 0)

  // ---------------------------------------------------------------- the table as a value

  function ArpSweepRow(r: ArpRow, t: nat): (r': ArpRow)
  {
    if r.ip != ZERO_IP && IsTimeout(ARP_TIMEOUT, r.ts, t % WRAP32) then r.(ip := ZERO_IP) else r
  }

  function ArpSweep(rows: seq<ArpRow>, times: seq<nat>): (rows': seq<ArpRow>)
    requires |times| == |rows|
    ensures |rows'| == |rows|
    ensures forall i :: 0 <= i < |rows| ==> rows'[i] == ArpSweepRow(rows[i], times[i])
  {
    seq(|rows|, i requires 0 <= i < |rows| => ArpSweepRow(rows[i], times[i]))
  }

  /** The first row with address `ip` from `i` on, or -1; a free row for address 0. */
  function ArpFindFrom(rows: seq<ArpRow>, ip: Ipv4, i: nat): (r: int)
    requires i <= |rows|
    ensures r == -1 || i <= r < |rows|
    ensures r >= 0 ==> rows[r].ip == ip && forall j :: i <= j < r ==> rows[j].ip != ip
    ensures r < 0 ==> forall j :: i <= j < |rows| ==> rows[j].ip != ip
    decreases |rows| - i
  {
    if i == |rows| then -1 else if rows[i].ip == ip then i else ArpFindFrom(rows, ip, i + 1)
  }

  function ArpFind(rows: seq<ArpRow>, ip: Ipv4): (r: int)
    ensures -1 <= r < |rows|
    ensures r >= 0 ==> rows[r].ip == ip && forall j :: 0 <= j < r ==> rows[j].ip != ip
    ensures r < 0 ==> forall j :: 0 <= j < |rows| ==> rows[j].ip != ip
  {
    ArpFindFrom(rows, ip, 0)
  }

  /** The row an update writes: the one that has the address, else the first free one, else none. */
  function Slot(rows: seq<ArpRow>, ip: Ipv4): (r: int)
    ensures -1 <= r < |rows|
  {
    var i := ArpFind(rows, ip);
    if ip != ZERO_IP && i >= 0 then i else ArpFind(rows, ZERO_IP)
  }

  // ---------------------------------------------------------------- the table in place

  class Cache {
    const row: array<ArpRow>
    const clock: Uptime

    constructor (clock: Uptime)
      ensures fresh(row) && this.clock == clock && row.Length == 96
      ensures row[..] == seq(96, _ => ArpRow(Ipv4(0, 0, 0, 0), [0, 0, 0, 0, 0, 0], 0))
    {
      this.clock := clock;
      this.row := new ArpRow[ARP_ROWS](_ => ZERO_ARP);
    }

    /** `__gc_arp_cache`. */
    method Gc() returns (ghost times: seq<nat>)
      modifies row, clock
      ensures Samples(times, row.Length, old(clock.now), clock.now)
      ensures row[..] == ArpSweep(old(row[..]), times)
    {
      times := [];
      var i := 0;
      while i < row.Length
        invariant 0 <= i <= row.Length
        invariant Samples(times, i, old(clock.now), clock.now)
        invariant forall j :: 0 <= j < i ==> row[j] == ArpSweepRow(old(row[j]), times[j])
        invariant forall j :: i <= j < row.Length ==> row[j] == old(row[j])
      {
        var t := clock.Sample();
        times := times + [clock.now];
        if row[i].ip != ZERO_IP && IsTimeout(ARP_TIMEOUT, row[i].ts, t) {
          row[i] := row[i].(ip := ZERO_IP);
        }
        i := i + 1;
      }
    }

    /** `search_arp_cache_by_ip`. */
    method Search(ip: Ipv4) returns (r: int, ghost times: seq<nat>)
      modifies row, clock
      ensures Samples(times, row.Length, old(clock.now), clock.now)
      ensures row[..] == ArpSweep(old(row[..]), times)
      ensures r == if ip == ZERO_IP then -1 else ArpFind(row[..], ip)
    {
      times := Gc();
      var i := 0;
      while i < row.Length
        invariant 0 <= i <= row.Length
        invariant forall j :: 0 <= j < i ==> row[j].ip == ZERO_IP || row[j].ip != ip
      {
        if row[i].ip != ZERO_IP && row[i].ip == ip {
          return i, times;
        }
        i := i + 1;
      }
      r := -1;
    }

    /** `update_arp_cache_by_ip`: one scan that stops at the address and remembers the first gap. */
    method Update(ip: Ipv4, mac: Mac) returns (r: int, ghost times: seq<nat>)
      modifies row, clock
      ensures Samples(times, row.Length, old(clock.now), clock.now)
      ensures var swept := ArpSweep(old(row[..]), times);
              && r == Slot(swept, ip)
              && row[..] == if r < 0 then swept else swept[r := ArpRow(ip, mac, clock.now % WRAP32)]
    {
      times := Gc();
      ghost var swept := row[..];
      var empty := -1;
      var i := 0;
      while i < row.Length
        invariant 0 <= i <= row.Length
        invariant row[..] == swept
        invariant forall j :: 0 <= j < i ==> row[j].ip == ZERO_IP || row[j].ip != ip
        invariant -1 <= empty < i
        invariant empty >= 0 ==> row[empty].ip == ZERO_IP && forall j :: 0 <= j < empty ==> row[j].ip != ZERO_IP
        invariant empty < 0 ==> forall j :: 0 <= j < i ==> row[j].ip != ZERO_IP
      {
        if row[i].ip == ZERO_IP {
          if empty < 0 {
            empty := i;
          }
        } else if row[i].ip == ip {
          assert ArpFind(swept, ip) == i;
          var t := clock.Sample();
          row[i] := row[i].(mac := mac, ts := t);
          return i, times;
        }
        i := i + 1;
      }
      assert ArpFind(swept, ZERO_IP) == empty;
      r := empty;
      if empty >= 0 {
        var t := clock.Sample();
        row[empty] := ArpRow(ip, mac, t);
      }
    }
  }

  // ---------------------------------------------------------------- runs

  datatype Entry = Entry(mac: Mac, at: nat)

  /** `known` is the abstract map: for each address its latest successful update. */
  datatype ArpState = ArpState(
    rows: seq<ArpRow>, now: nat, touched: seq<nat>, swept: nat, known: map<Ipv4, Entry>)

  datatype ArpAction =
    | ArpTick(at: nat)
    | Lookup(ip: Ipv4, times: seq<nat>, at: nat)
    | Learn(ip: Ipv4, mac: Mac, times: seq<nat>, at: nat)

  function ArpInit(now: nat): (s: ArpState)
  {
    ArpState(seq(ARP_ROWS, _ => ZERO_ARP), now, seq(ARP_ROWS, _ => 0), now, map[])
  }

  ghost predicate ArpShape(s: ArpState)
  {
    |s.rows| == ARP_ROWS && |s.touched| == ARP_ROWS
  }

  ghost predicate ArpEnabled(s: ArpState, a: ArpAction)
  {
    match a
    case ArpTick(at) => s.now <= at
    case Lookup(_, times, at) => Samples(times, ARP_ROWS, s.now, at)
    case Learn(_, _, times, at) => Samples(times, ARP_ROWS, s.now, at)
  }

  function ArpSwept(s: ArpState, times: seq<nat>, at: nat): (s': ArpState)
    requires |times| == |s.rows|
  {
    s.(rows := ArpSweep(s.rows, times), now := at, swept := s.now)
  }

  function Store(s: ArpState, i: nat, ip: Ipv4, mac: Mac): (s': ArpState)
    requires i < |s.rows| == |s.touched|
  {
    s.(rows := s.rows[i := ArpRow(ip, mac, s.now % WRAP32)], touched := s.touched[i := s.now],
       known := if ip == ZERO_IP then s.known else s.known[ip := Entry(mac, s.now)])
  }

  ghost function ArpNext(s: ArpState, a: ArpAction): (s': ArpState)
    requires ArpShape(s) && ArpEnabled(s, a)
    ensures ArpShape(s')
  {
    match a
    case ArpTick(at) => s.(now := at)
    case Lookup(_, times, at) => ArpSwept(s, times, at)
    case Learn(ip, mac, times, at) =>
      var t := ArpSwept(s, times, at);
      var i := Slot(t.rows, ip);
      if i < 0 then t else Store(t, i, ip, mac)
  }

  /** What a lookup answers. */
  ghost function Answer(s: ArpState, a: ArpAction): (mac: Option<Mac>)
    requires ArpShape(s) && ArpEnabled(s, a) && a.Lookup?
  {
    var rows := ArpSweep(s.rows, a.times);
    var i := ArpFind(rows, a.ip);
    if a.ip == ZERO_IP || i < 0 then None else Some(rows[i].mac)
  }

  // ---------------------------------------------------------------- what every step keeps

  ghost predicate ArpRowOk(s: ArpState, i: nat)
    requires i < |s.rows| == |s.touched|
  {
    var r := s.rows[i];
    && s.touched[i] <= s.now && r.ts == s.touched[i] % WRAP32
    && r.ip in s.known && s.known[r.ip] == Entry(r.mac, s.touched[i])
  }

  /** One live row per address, each the latest update of its address. */
  ghost predicate ArpInv(s: ArpState)
  {
    && ArpShape(s)
    && s.swept <= s.now
    && (forall i, j :: 0 <= i < j < ARP_ROWS && s.rows[i].ip != ZERO_IP ==> s.rows[i].ip != s.rows[j].ip)
    && (forall i :: 0 <= i < ARP_ROWS && s.rows[i].ip != ZERO_IP ==> ArpRowOk(s, i))
    && ZERO_IP !in s.known
  }

  lemma ArpSweptInv(s: ArpState, times: seq<nat>, at: nat)
    requires ArpInv(s) && Samples(times, ARP_ROWS, s.now, at)
    ensures ArpInv(ArpSwept(s, times, at))
  {
    var t := ArpSwept(s, times, at);
    forall i | 0 <= i < ARP_ROWS && t.rows[i].ip != ZERO_IP ensures ArpRowOk(t, i) {
      assert t.rows[i] == s.rows[i] && ArpRowOk(s, i);
    }
  }

  lemma StoreInv(s: ArpState, ip: Ipv4, mac: Mac)
    requires ArpInv(s) && Slot(s.rows, ip) >= 0
    ensures ArpInv(Store(s, Slot(s.rows, ip), ip, mac))
  {
    var k := Slot(s.rows, ip);
    var t := Store(s, k, ip, mac);
    forall i | 0 <= i < ARP_ROWS && t.rows[i].ip != ZERO_IP ensures ArpRowOk(t, i) {
      if i != k {
        assert ArpRowOk(s, i);
      }
    }
  }

  lemma ArpStepKeepsInv(s: ArpState, a: ArpAction)
    requires ArpInv(s) && ArpEnabled(s, a)
    ensures ArpInv(ArpNext(s, a))
  {
    match a
    case ArpTick(at) =>
      forall i | 0 <= i < ARP_ROWS && s.rows[i].ip != ZERO_IP ensures ArpRowOk(s.(now := at), i) {
        assert ArpRowOk(s, i);
      }
    case Lookup(_, times, at) => ArpSweptInv(s, times, at);
    case Learn(ip, mac, times, at) =>
      ArpSweptInv(s, times, at);
      var t := ArpSwept(s, times, at);
      if Slot(t.rows, ip) >= 0 {
        StoreInv(t, ip, mac);
      }
  }

  // ---------------------------------------------------------------- what they keep if sweeps are frequent

  /** The step's sweep ends soon enough after the last one began for 32-bit stamps to tell ages apart,
      or has no rows to judge. */
  ghost predicate ArpGapOk(s: ArpState, a: ArpAction)
  {
    || a.ArpTick? || (forall i :: 0 <= i < |s.rows| ==> s.rows[i].ip == ZERO_IP)
    || a.at - s.swept <= WRAP32 - ARP_TIMEOUT
  }

  /** What has no row is too old. */
  ghost predicate ArpExact(s: ArpState)
    requires ArpShape(s)
  {
    && (forall i :: 0 <= i < ARP_ROWS && s.rows[i].ip != ZERO_IP ==> s.swept < s.touched[i] + ARP_TIMEOUT)
    && forall ip :: ip in s.known ==> ArpFind(s.rows, ip) >= 0 || s.known[ip].at + ARP_TIMEOUT <= s.now
  }

  ghost predicate ArpJudgedRight(s: ArpState, times: seq<nat>)
    requires ArpShape(s) && |times| == ARP_ROWS
  {
    forall i :: 0 <= i < ARP_ROWS && s.rows[i].ip != ZERO_IP ==>
      ArpSweep(s.rows, times)[i] ==
      if times[i] < s.touched[i] + 1_200_000 then s.rows[i] else s.rows[i].(ip := ZERO_IP)
  }

  lemma ArpSweepIsExact(s: ArpState, a: ArpAction)
    requires ArpInv(s) && ArpExact(s) && ArpEnabled(s, a) && ArpGapOk(s, a) && !a.ArpTick?
    ensures ArpJudgedRight(s, a.times)
  {
    forall i | 0 <= i < ARP_ROWS && s.rows[i].ip != ZERO_IP
      ensures ArpSweep(s.rows, a.times)[i] ==
              if a.times[i] < s.touched[i] + 1_200_000 then s.rows[i] else s.rows[i].(ip := ZERO_IP)
    {
      assert ArpRowOk(s, i);
      RightBelowWrap(ARP_TIMEOUT, s.touched[i], a.times[i]);
    }
  }

  lemma ArpSweptExact(s: ArpState, a: ArpAction)
    requires ArpInv(s) && ArpExact(s) && ArpEnabled(s, a) && ArpGapOk(s, a) && !a.ArpTick?
    ensures ArpExact(ArpSwept(s, a.times, a.at))
  {
    var t := ArpSwept(s, a.times, a.at);
    ArpSweepIsExact(s, a);
    forall ip | ip in t.known ensures ArpFind(t.rows, ip) >= 0 || t.known[ip].at + ARP_TIMEOUT <= t.now {
      var i := ArpFind(s.rows, ip);
      if i >= 0 {
        assert ArpRowOk(s, i);
        assert t.rows[i].ip == ip || a.times[i] - s.touched[i] >= ARP_TIMEOUT;
      }
    }
  }

  lemma StoreExact(s: ArpState, ip: Ipv4, mac: Mac)
    requires ArpInv(s) && ArpExact(s) && Slot(s.rows, ip) >= 0
    ensures ArpExact(Store(s, Slot(s.rows, ip), ip, mac))
  {
    var k := Slot(s.rows, ip);
    var t := Store(s, k, ip, mac);
    forall x | x in t.known ensures ArpFind(t.rows, x) >= 0 || t.known[x].at + ARP_TIMEOUT <= t.now {
      assert t.rows[k].ip == ip;
      var i := ArpFind(s.rows, x);
      if i >= 0 && i != k {
        assert t.rows[i].ip == x;
      }
    }
  }

  lemma ArpStepKeepsExact(s: ArpState, a: ArpAction)
    requires ArpInv(s) && ArpExact(s) && ArpEnabled(s, a) && ArpGapOk(s, a)
    ensures ArpExact(ArpNext(s, a))
  {
    match a
    case ArpTick(_) =>
    case Lookup(_, _, _) => ArpSweptExact(s, a);
    case Learn(ip, mac, times, at) =>
      ArpSweptExact(s, a);
      ArpSweptInv(s, times, at);
      var t := ArpSwept(s, times, at);
      if Slot(t.rows, ip) >= 0 {
        StoreExact(t, ip, mac);
      }
  }

  ghost predicate ArpValid(s: ArpState, acts: seq<ArpAction>)
    requires ArpShape(s)
    decreases |acts|
  {
    acts == [] || (ArpEnabled(s, acts[0]) && ArpValid(ArpNext(s, acts[0]), acts[1..]))
  }

  ghost function ArpRun(s: ArpState, acts: seq<ArpAction>): (s': ArpState)
    requires ArpShape(s) && ArpValid(s, acts)
    ensures ArpShape(s')
    decreases |acts|
  {
    if acts == [] then s else ArpRun(ArpNext(s, acts[0]), acts[1..])
  }

  ghost predicate ArpTook(s: ArpState, acts: seq<ArpAction>, s': ArpState)
  {
    ArpShape(s) && ArpValid(s, acts) && ArpRun(s, acts) == s'
  }

  lemma ArpTookOne(s: ArpState, a: ArpAction)
    requires ArpShape(s) && ArpEnabled(s, a)
    ensures ArpTook(s, [a], ArpNext(s, a))
  {
    assert [a][1..] == [];
  }

  lemma {:induction false} ArpTookThen(s: ArpState, acts: seq<ArpAction>, s': ArpState, acts': seq<ArpAction>,
                                      s'': ArpState)
    requires ArpTook(s, acts, s') && ArpTook(s', acts', s'')
    ensures ArpTook(s, acts + acts', s'')
    decreases |acts|
  {
    if acts == [] {
      assert acts + acts' == acts';
    } else {
      ArpTookThen(ArpNext(s, acts[0]), acts[1..], s', acts', s'');
      assert (acts + acts')[1..] == acts[1..] + acts';
    }
  }

  ghost predicate ArpGapped(s: ArpState, acts: seq<ArpAction>)
    requires ArpShape(s) && ArpValid(s, acts)
    decreases |acts|
  {
    acts == [] || (ArpGapOk(s, acts[0]) && ArpGapped(ArpNext(s, acts[0]), acts[1..]))
  }

  lemma {:induction false} ArpRunKeeps(s: ArpState, acts: seq<ArpAction>)
    requires ArpInv(s) && ArpValid(s, acts)
    ensures ArpInv(ArpRun(s, acts))
    ensures ArpExact(s) && ArpGapped(s, acts) ==> ArpExact(ArpRun(s, acts))
    decreases |acts|
  {
    if acts != [] {
      ArpStepKeepsInv(s, acts[0]);
      if ArpExact(s) && ArpGapped(s, acts) {
        ArpStepKeepsExact(s, acts[0]);
      }
      ArpRunKeeps(ArpNext(s, acts[0]), acts[1..]);
    }
  }

  /** After any run with frequent sweeps a lookup answers with the MAC of the latest successful update
      of that address, exactly if that was less than 20 minutes before its sweep looks at the row. */
  lemma LookupRefinesMap(now: nat, acts: seq<ArpAction>, a: ArpAction)
    requires ArpValid(ArpInit(now), acts) && ArpGapped(ArpInit(now), acts)
    requires var s := ArpRun(ArpInit(now), acts); a.Lookup? && ArpEnabled(s, a) && ArpGapOk(s, a)
    ensures var s := ArpRun(ArpInit(now), acts);
            var i := ArpFind(s.rows, a.ip);
            var looked := if i >= 0 then a.times[i] else s.now;
            Answer(s, a) == if a.ip in s.known && looked < s.known[a.ip].at + 1_200_000
                            then Some(s.known[a.ip].mac) else None
  {
    ArpRunKeeps(ArpInit(now), acts);
    var s := ArpRun(ArpInit(now), acts);
    ArpSweepIsExact(s, a);
    var rows := ArpSweep(s.rows, a.times);
    var i, j := ArpFind(s.rows, a.ip), ArpFind(rows, a.ip);
    if a.ip != ZERO_IP && i >= 0 {
      assert ArpRowOk(s, i);
      assert j >= 0 ==> j == i;
    }
  }

  /** The table has no place for this address: every row is live with another one. */
  ghost predicate FullOfOthers(rows: seq<ArpRow>, ip: Ipv4)
  {
    forall i :: 0 <= i < |rows| ==> rows[i].ip != ZERO_IP && rows[i].ip != ip
  }

  /** An update is lost exactly when the table is full of other addresses: a full table rejects new
      addresses and still updates known ones. */
  lemma LearnRejectedIff(s: ArpState, a: ArpAction)
    requires ArpInv(s) && a.Learn? && a.ip != ZERO_IP && ArpEnabled(s, a)
    ensures ArpNext(s, a).known ==
            if FullOfOthers(ArpSweep(s.rows, a.times), a.ip) then s.known else s.known[a.ip := Entry(a.mac, a.at)]
  {
  }

  // ---------------------------------------------------------------- what is learnt stays, for a while

  /** The address has a row with this MAC, updated at `since` or later. */
  ghost predicate Keeps(s: ArpState, ip: Ipv4, mac: Mac, since: nat)
    requires ArpShape(s)
  {
    var i := ArpFind(s.rows, ip);
    i >= 0 && s.rows[i].mac == mac && since <= s.touched[i]
  }

  /** A step that is over before the row is 20 minutes old, and does not teach another MAC. */
  ghost predicate Spares(a: ArpAction, ip: Ipv4, mac: Mac, since: nat)
  {
    a.at < since + ARP_TIMEOUT && (a.Learn? && a.ip == ip ==> a.mac == mac)
  }

  lemma SweepSpares(s: ArpState, times: seq<nat>, at: nat, ip: Ipv4, mac: Mac, since: nat)
    requires ArpInv(s) && Samples(times, ARP_ROWS, s.now, at) && ip != ZERO_IP && Keeps(s, ip, mac, since)
    requires at < since + ARP_TIMEOUT
    ensures Keeps(ArpSwept(s, times, at), ip, mac, since)
  {
    var i := ArpFind(s.rows, ip);
    assert ArpRowOk(s, i);
    RightBelowWrap(ARP_TIMEOUT, s.touched[i], times[i]);
    assert ArpSweep(s.rows, times)[i] == s.rows[i];
  }

  lemma StepSpares(s: ArpState, a: ArpAction, ip: Ipv4, mac: Mac, since: nat)
    requires ArpInv(s) && ArpEnabled(s, a) && ip != ZERO_IP && Keeps(s, ip, mac, since) && Spares(a, ip, mac, since)
    ensures Keeps(ArpNext(s, a), ip, mac, since)
  {
    if !a.ArpTick? {
      SweepSpares(s, a.times, a.at, ip, mac, since);
    }
    if a.Learn? {
      var t := ArpSwept(s, a.times, a.at);
      var i, k := ArpFind(t.rows, ip), Slot(t.rows, a.ip);
      if k >= 0 {
        assert ArpNext(s, a).rows[i].ip == ip;
      }
    }
  }

  ghost predicate AllSpare(acts: seq<ArpAction>, ip: Ipv4, mac: Mac, since: nat)
  {
    forall k :: 0 <= k < |acts| ==> Spares(acts[k], ip, mac, since)
  }

  lemma {:induction false} RunSpares(s: ArpState, acts: seq<ArpAction>, ip: Ipv4, mac: Mac, since: nat)
    requires ArpInv(s) && ArpValid(s, acts) && ip != ZERO_IP && Keeps(s, ip, mac, since)
    requires AllSpare(acts, ip, mac, since)
    ensures Keeps(ArpRun(s, acts), ip, mac, since)
    decreases |acts|
  {
    if acts != [] {
      StepSpares(s, acts[0], ip, mac, since);
      ArpStepKeepsInv(s, acts[0]);
      RunSpares(ArpNext(s, acts[0]), acts[1..], ip, mac, since);
    }
  }

  /** An address that is not in the table gets there only by being learnt. */
  lemma {:induction false} UnknownStays(s: ArpState, acts: seq<ArpAction>, ip: Ipv4)
    requires ArpShape(s) && ArpValid(s, acts) && ip != ZERO_IP && ArpFind(s.rows, ip) < 0
    requires forall k :: 0 <= k < |acts| && acts[k].Learn? ==> acts[k].ip != ip
    ensures ArpFind(ArpRun(s, acts).rows, ip) < 0
    decreases |acts|
  {
    if acts != [] {
      UnknownStays(ArpNext(s, acts[0]), acts[1..], ip);
    }
  }

  lemma LearntKeeps(s: ArpState, a: ArpAction)
    requires ArpInv(s) && a.Learn? && a.ip != ZERO_IP && ArpEnabled(s, a)
    ensures var full := FullOfOthers(ArpSweep(s.rows, a.times), a.ip);
            if full then ArpFind(ArpNext(s, a).rows, a.ip) < 0 else Keeps(ArpNext(s, a), a.ip, a.mac, a.at)
  {
    var rows := ArpSweep(s.rows, a.times);
    ArpStepKeepsInv(s, a);
    if Slot(rows, a.ip) >= 0 {
      assert ArpNext(s, a).rows[Slot(rows, a.ip)].ip == a.ip;
    }
  }

  /** What an update taught is what a lookup answers less than 20 minutes later, however far apart the
      sweeps are, unless the update found the table full or another MAC was taught since. */
  lemma LearntIsAnswered(s: ArpState, learn: ArpAction, acts: seq<ArpAction>, look: ArpAction)
    requires ArpInv(s) && learn.Learn? && learn.ip != ZERO_IP && ArpEnabled(s, learn)
    requires !FullOfOthers(ArpSweep(s.rows, learn.times), learn.ip)
    requires var t := ArpNext(s, learn);
             ArpValid(t, acts) && AllSpare(acts, learn.ip, learn.mac, learn.at)
             && look.Lookup? && look.ip == learn.ip && ArpEnabled(ArpRun(t, acts), look)
    requires look.at < learn.at + 1_200_000
    ensures Answer(ArpRun(ArpNext(s, learn), acts), look) == Some(learn.mac)
  {
    var t := ArpNext(s, learn);
    ArpStepKeepsInv(s, learn);
    LearntKeeps(s, learn);
    RunSpares(t, acts, learn.ip, learn.mac, learn.at);
    ArpRunKeeps(t, acts);
    SweepSpares(ArpRun(t, acts), look.times, look.at, learn.ip, learn.mac, learn.at);
  }

  // ---------------------------------------------------------------- the cache as the handlers use it

  /** The cache, tied step by step to the state machine. */
  class Resolver {
    const cache: Cache
    const clock: Uptime

    /** The machine state this object is in, the abstract map included. */
    ghost var state: ArpState

    /** The object is in that state, except that time may have passed since. */
    ghost predicate Behind()
      reads this, cache.row, clock
    {
      && cache.clock == clock && cache.row.Length == ARP_ROWS
      && state.rows == cache.row[..] && state.now <= clock.now && ArpInv(state)
    }

    ghost predicate Valid()
      reads this, cache.row, clock
    {
      Behind() && state.now == clock.now
    }

    constructor (clock: Uptime)
      ensures Valid() && fresh(cache) && fresh(cache.row) && this.clock == clock
      ensures state == ArpInit(clock.now)
    {
      this.clock := clock;
      cache := new Cache(clock);
      state := ArpInit(clock.now);
    }

    /** Time has passed; nothing else happened. */
    ghost method Tick()
      requires Behind()
      modifies this`state
      ensures Valid() && state == old(state).(now := clock.now)
    {
      ArpStepKeepsInv(state, ArpTick(clock.now));
      state := ArpNext(state, ArpTick(clock.now));
    }

    /** The cache half of `resolve_arp`. */
    method LookUp(ip: Ipv4) returns (mac: Option<Mac>, ghost a: ArpAction)
      requires Valid()
      modifies this`state, cache.row, clock
      ensures old(clock.now) <= clock.now && Valid()
      ensures a.Lookup? && a.ip == ip && ArpEnabled(old(state), a) && state == ArpNext(old(state), a)
      ensures mac == Answer(old(state), a)
    {
      ghost var times: seq<nat>;
      var r: int;
      r, times := cache.Search(ip);
      a := Lookup(ip, times, clock.now);
      mac := if r < 0 then None else Some(cache.row[r].mac);
      ArpStepKeepsInv(state, a);
      state := ArpNext(state, a);
    }

    /** `update_arp_cache_by_ip`. */
    method Teach(ip: Ipv4, mac: Mac) returns (ghost a: ArpAction)
      requires Valid()
      modifies this`state, cache.row, clock
      ensures old(clock.now) <= clock.now && Valid()
      ensures a.Learn? && a.ip == ip && a.mac == mac
      ensures ArpEnabled(old(state), a) && state == ArpNext(old(state), a)
    {
      ghost var times: seq<nat>;
      var r: int;
      r, times := cache.Update(ip, mac);
      a := Learn(ip, mac, times, clock.now);
      ArpStepKeepsInv(state, a);
      state := ArpNext(state, a);
    }
  }
}
