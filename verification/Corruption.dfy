/** What becomes of a packet whose segment was damaged on the way: the gateway gives every packet it
    passes on a new transport checksum, so damage it does not notice cannot be noticed behind it. */
module Corruption {
  import opened Bytes
  import opened Checksum
  import opened PortTable
  import opened Fragments
  import opened Packet
  import opened ArpCache
  import opened NatMachine
  import opened Gateway
  import opened RoundTrip

  // ---------------------------------------------------------------- one byte shows in the checksum

  /** How much a change of the first or the second byte of a word moves the sum. */
  function Shift(second: bool, a: byte, b: byte): (n: int)
    ensures -0xFFFF < n < 0xFFFF && (a != b ==> n != 0)
  {
    if second then 0x100 * (b as int - a as int) else b as int - a as int
  }

  ghost predicate OnlyAt(s: seq<byte>, r: seq<byte>, at: nat)
  {
    |r| == |s| && at < |s| && forall k :: 0 <= k < |s| && k != at ==> r[k] == s[k]
  }

  /** The byte stands `words` words after `i`. */
  lemma {:induction false} OneByteMoves(s: seq<byte>, r: seq<byte>, i: nat, words: nat, second: bool)
    requires OnlyAt(s, r, i + 2 * words + if second then 1 else 0)
    ensures var at := i + 2 * words + if second then 1 else 0;
            PlainFrom(Little, r, i) == PlainFrom(Little, s, i) + Shift(second, s[at], r[at])
    decreases words
  {
    if words > 0 {
      OneByteMoves(s, r, i + 2, words - 1, second);
    } else {
      FirstWordMoves(s, r, i, second);
    }
  }

  lemma FirstWordMoves(s: seq<byte>, r: seq<byte>, i: nat, second: bool)
    requires OnlyAt(s, r, i + if second then 1 else 0)
    ensures var at := i + if second then 1 else 0;
            PlainFrom(Little, r, i) == PlainFrom(Little, s, i) + Shift(second, s[at], r[at])
  {
    if i + 2 <= |s| {
      PlainFromAgree(Little, s, i + 2, r, i + 2);
    }
  }

  lemma FullNorm(n: nat)
    ensures Norm(n) == 0xFFFF <==> n > 0 && n % 0xFFFF == 0
  {
  }

  lemma NotBothMultiples(a: nat, d: int)
    requires a % 0xFFFF == 0 && d != 0 && -0xFFFF < d < 0xFFFF && a + d >= 0
    ensures (a + d) % 0xFFFF != 0
  {
  }

  /** The checksum notices every change of a single byte. */
  lemma OneByteFails(s: seq<byte>, at: nat, v: byte)
    requires at < |s| && v != s[at] && Complement(OnesSum(Little, s)) == 0
    ensures Complement(OnesSum(Little, s[at := v])) != 0
  {
    var r, d := s[at := v], Shift(at % 2 == 1, s[at], v);
    OneByteMoves(s, r, 0, at / 2, at % 2 == 1);
    OnesSumIsNorm(Little, s);
    OnesSumIsNorm(Little, r);
    FullNorm(PlainSum(Little, s));
    FullNorm(PlainSum(Little, r));
    NotBothMultiples(PlainSum(Little, s), d);
  }

  // ---------------------------------------------------------------- which damage is noticed

  /** Changing a byte of the segment changes one byte of what its checksum covers. */
  lemma SummedWithByte(p: seq<byte>, y: Layout, at: nat, v: byte)
    requires y.Fits(p) && y.Seg() <= at < y.b + y.len
    ensures var j := at - y.Seg() + if y.proto == ICMP then 0 else 12;
            j < |Summed(p, y)| && Summed(p, y)[j] == p[at] && Summed(p[at := v], y) == Summed(p, y)[j := v]
  {
    var q, n := p[at := v], at - y.Seg();
    var a, b := p[y.Seg()..y.b + y.len], q[y.Seg()..y.b + y.len];
    assert b == a[n := v];
    if y.proto != ICMP {
      var h := Pseudo(p, y.b, y.proto, y.len - y.hl);
      assert q[y.b + 12..y.b + 20] == p[y.b + 12..y.b + 20];
      var all: seq<byte> := h + a;
      assert all[12 + n := v] == h + b;
    }
  }

  /** A byte of the segment is changed in a packet from the LTE side that was accepted and verified; the
      kind of an ICMP message is left as it is. The gateway still accepts the packet exactly when it is
      TCP. */
  lemma DamageRefusedUnlessTcp(p: seq<byte>, rawLen: int, myIp: Ipv4, at: nat, v: byte)
    requires |p| == MTU && AcceptedIn(p, rawLen, myIp)
    requires var y := LayoutOf(p, 0, 0);
             && Complement(OnesSum(Little, Summed(p, y))) == 0 && y.hl <= at < y.len && v != p[at]
             && (y.proto == ICMP ==> at != y.hl)
    ensures var y := LayoutOf(p, 0, 0);
            && Complement(OnesSum(Little, Summed(p[at := v], y))) != 0
            && (AcceptedIn(p[at := v], rawLen, myIp) <==> y.proto == TCP)
  {
    var y := LayoutOf(p, 0, 0);
    SegmentBroken(p, y, at, v);
    HeaderUntouched(p, rawLen, myIp, at, v);
  }

  lemma SegmentBroken(p: seq<byte>, y: Layout, at: nat, v: byte)
    requires y.Fits(p) && y.Seg() <= at < y.b + y.len && v != p[at] && Complement(OnesSum(Little, Summed(p, y))) == 0
    ensures Complement(OnesSum(Little, Summed(p[at := v], y))) != 0
  {
    SummedWithByte(p, y, at, v);
    OneByteFails(Summed(p, y), at - y.Seg() + if y.proto == ICMP then 0 else 12, v);
  }

  lemma HeaderUntouched(p: seq<byte>, rawLen: int, myIp: Ipv4, at: nat, v: byte)
    requires |p| == MTU && HeaderPassesIn(p, rawLen, myIp) && 20 <= HeaderLen(p, 0) <= at < MTU
    ensures HeaderPassesIn(p[at := v], rawLen, myIp) && LayoutOf(p[at := v], 0, 0) == LayoutOf(p, 0, 0)
  {
    var hl := HeaderLen(p, 0);
    assert p[at := v][..hl] == p[..hl];
  }

  /** Outbound the gateway looks at no checksum but the header's: any change behind the header leaves a
      frame accepted, for every protocol, the kind of an ICMP message excepted. */
  lemma DamageAcceptedOut(d: seq<byte>, mac: Mac, at: nat, v: byte)
    requires AcceptedOut(d, mac)
    requires var y := LayoutOf(d, ETH, 0);
             34 <= ETH + y.hl <= at < |d| && (y.proto == ICMP ==> at != ETH + y.hl)
    ensures AcceptedOut(d[at := v], mac)
  {
    var y, e := LayoutOf(d, ETH, 0), d[at := v];
    assert e[..6] == d[..6];
    assert e[ETH..ETH + y.hl] == d[ETH..ETH + y.hl];
  }

  /** Whatever is passed on, in either direction, leaves with checksums that verify, damaged or not. */
  lemma PassedOnVerifies(k: OutCall, j: InCall, myIp: Ipv4, myMac: Mac)
    requires Forwarding(k, myIp) && Returning(j, myMac)
    ensures k.y.Complete(k.q) && Verifies(k.q, k.y)
    ensures Mapping(j.s, j.act).Some? ==> j.y.Complete(j.r) && Verifies(j.r, j.y)
  {
    TranslationVerifies(k.p, k.q, k.y, SourceField(k.y.proto), k.flow.ltePort, 12, myIp);
    var m := Mapping(j.s, j.act);
    if m.Some? {
      TranslationVerifies(j.p, j.r, j.y, TargetField(j.y.proto), m.value.ethPort, 16, m.value.clientIp);
    }
  }
}
