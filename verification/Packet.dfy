/** Rewriting an IPv4 packet for translation: one port or identifier, one address, and the two
    checksums they enter. The packet starts at offset `b` of its buffer. */
module Packet {
  import opened Bytes
  import opened Checksum
  import opened PortTable

  function HeaderLen(p: seq<byte>, b: nat): (n: nat)
    requires b < |p|
  {
    p[b] % 16 * 4
  }

  function TotalLen(p: seq<byte>, b: nat): (n: u16)
    requires b + 4 <= |p|
  {
    Be16(p[b + 2], p[b + 3])
  }

  /** Offset, in the transport header, of its checksum. */
  function ChecksumField(proto: byte): (n: nat)
  {
    if proto == UDP then 6 else if proto == TCP then 16 else 2
  }

  /** Offset, in the transport header, of the client's port in a packet sent out. */
  function SourceField(proto: byte): (n: nat)
  {
    if proto == ICMP then 4 else 0
  }

  /** Offset, in the transport header, of the client's port in a packet coming in. */
  function TargetField(proto: byte): (n: nat)
  {
    if proto == ICMP then 4 else 2
  }

  /** Enough transport header for the fields translation touches. */
  function MinSegment(proto: byte): (n: nat)
  {
    if proto == ICMP then 6 else ChecksumField(proto) + 2
  }

  /** The pseudo header of UDP and TCP: both addresses, a zero, the protocol, the segment length. */
  function Pseudo(p: seq<byte>, b: nat, proto: byte, segLen: u16): (r: seq<byte>)
    requires b + 20 <= |p|
    ensures |r| == 12
  {
    p[b + 12..b + 20] + [0, proto, segLen / 0x100, segLen % 0x100]
  }

  /** Where a packet lies in its buffer, what kind it is, and how long its two parts are. */
  datatype Layout = Layout(b: nat, hl: nat, len: u16, proto: byte)
  {
    ghost predicate Fits(p: seq<byte>)
    {
      && 20 <= hl < len && b + len <= |p| && b + hl + 18 <= |p|
      && proto in {ICMP, TCP, UDP}
    }

    /** Translation needs the fields it rewrites to lie inside the packet. */
    ghost predicate Complete(p: seq<byte>)
    {
      Fits(p) && hl % 4 == 0 && hl + MinSegment(proto) <= len
    }

    function Seg(): (n: nat)
    {
      b + hl
    }
  }

  /** The octets the transport checksum covers: UDP and TCP add the pseudo header. */
  function Summed(p: seq<byte>, y: Layout): (r: seq<byte>)
    requires y.Fits(p)
  {
    var seg := p[y.Seg()..y.b + y.len];
    if y.proto == ICMP then seg else Pseudo(p, y.b, y.proto, y.len - y.hl) + seg
  }

  /** Where the checksum field stands among those octets. */
  function SummedField(proto: byte): (n: nat)
  {
    if proto == ICMP then 2 else 12 + ChecksumField(proto)
  }

  function Addressed(y: Layout, portAt: nat, addrAt: nat): (w: set<nat>)
  {
    var a, q := y.b + addrAt, y.Seg() + portAt;
    {a, a + 1, a + 2, a + 3, q, q + 1}
  }

  function Sums(y: Layout): (w: set<nat>)
  {
    var f := y.Seg() + ChecksumField(y.proto);
    {y.b + 10, y.b + 11, f, f + 1}
  }

  /** The positions a translation may write: one address, one port, both checksums. */
  function Written(y: Layout, portAt: nat, addrAt: nat): (w: set<nat>)
  {
    Addressed(y, portAt, addrAt) + Sums(y)
  }

  ghost predicate Fields(y: Layout, portAt: nat, addrAt: nat)
  {
    portAt in {SourceField(y.proto), TargetField(y.proto)} && addrAt in {12, 16}
  }

  ghost predicate HeaderCarries(r: seq<byte>, y: Layout)
    requires y.Complete(r)
  {
    Carries(r, y.b + 10, r[y.b..y.b + y.hl], 10)
  }

  ghost predicate SegmentCarries(r: seq<byte>, y: Layout)
    requires y.Complete(r)
  {
    Carries(r, y.Seg() + ChecksumField(y.proto), Summed(r, y), SummedField(y.proto))
  }

  ghost predicate FieldsRead(r: seq<byte>, y: Layout, portAt: nat, port: u16, addrAt: nat, addr: Ipv4)
    requires y.Complete(r) && Fields(y, portAt, addrAt)
  {
    IpAt(r, y.b + addrAt) == addr && Be16(r[y.Seg() + portAt], r[y.Seg() + portAt + 1]) == port
  }

  /** `r` is `p` translated: the address and port read as given, both checksums are those of
      RFC 1071 on the wire, and no other byte differs. */
  ghost predicate IsTranslation(p: seq<byte>, r: seq<byte>, y: Layout, portAt: nat, port: u16, addrAt: nat, addr: Ipv4)
    requires y.Complete(p) && Fields(y, portAt, addrAt)
  {
    && SameBut(p, r, Written(y, portAt, addrAt))
    && FieldsRead(r, y, portAt, port, addrAt, addr)
    && HeaderCarries(r, y)
    && SegmentCarries(r, y)
  }

  // ---------------------------------------------------------------- the contract fixes every byte

  lemma Be16Injective(a: byte, b: byte, c: byte, d: byte)
    requires Be16(a, b) == Be16(c, d)
    ensures a == c && b == d
  {
  }

  /** There is only one translation of a packet. */
  lemma TranslationIsUnique(p: seq<byte>, r: seq<byte>, s: seq<byte>,
                            y: Layout, portAt: nat, port: u16, addrAt: nat, addr: Ipv4)
    requires y.Complete(p) && Fields(y, portAt, addrAt)
    requires IsTranslation(p, r, y, portAt, port, addrAt, addr)
    requires IsTranslation(p, s, y, portAt, port, addrAt, addr)
    ensures r == s
  {
    OnlyChecksumsDiffer(p, r, s, y, portAt, port, addrAt, addr);
    ChecksumsAgree(r, s, y);
  }

  lemma ChecksumsAgree(r: seq<byte>, s: seq<byte>, y: Layout)
    requires y.Complete(r) && y.Complete(s) && SameBut(r, s, Sums(y))
    requires HeaderCarries(r, y) && HeaderCarries(s, y)
    requires SegmentCarries(r, y) && SegmentCarries(s, y)
    ensures r == s
  {
    SameHeaderChecksum(r, s, y);
    SameSegmentChecksum(r, s, y);
    Agreement(r, r, s, Sums(y), Sums(y), {});
  }

  lemma OnlyChecksumsDiffer(p: seq<byte>, r: seq<byte>, s: seq<byte>,
                            y: Layout, portAt: nat, port: u16, addrAt: nat, addr: Ipv4)
    requires y.Complete(p) && Fields(y, portAt, addrAt)
    requires SameBut(p, r, Written(y, portAt, addrAt)) && SameBut(p, s, Written(y, portAt, addrAt))
    requires y.Complete(r) && y.Complete(s)
    requires FieldsRead(r, y, portAt, port, addrAt, addr) && FieldsRead(s, y, portAt, port, addrAt, addr)
    ensures SameBut(r, s, Sums(y))
  {
    var a, q := y.b + addrAt, y.Seg() + portAt;
    FieldsAgree(r, s, a, q);
    Agreement(p, r, s, Written(y, portAt, addrAt), Addressed(y, portAt, addrAt), Sums(y));
  }

  /** Two copies of `p` that agree where `agreed` says differ only in what is left. */
  lemma Agreement(p: seq<byte>, r: seq<byte>, s: seq<byte>, changed: set<nat>, agreed: set<nat>, left: set<nat>)
    requires SameBut(p, r, changed) && SameBut(p, s, changed)
    requires changed <= agreed + left
    requires forall k :: k in agreed && k < |p| ==> r[k] == s[k]
    ensures SameBut(r, s, left)
    ensures left == {} ==> r == s
  {
  }

  lemma FieldsAgree(r: seq<byte>, s: seq<byte>, a: nat, q: nat)
    requires |r| == |s| && a + 4 <= |r| && q + 2 <= |r|
    requires IpAt(r, a) == IpAt(s, a) && Be16(r[q], r[q + 1]) == Be16(s[q], s[q + 1])
    ensures forall k :: k in {a, a + 1, a + 2, a + 3, q, q + 1} ==> r[k] == s[k]
  {
  }

  /** Equal data carry equal checksums. */
  lemma SameCarried(r: seq<byte>, s: seq<byte>, at: nat, x: seq<byte>, z: seq<byte>, pos: nat)
    requires Carries(r, at, x, pos) && Carries(s, at, z, pos) && SameBut(x, z, {pos, pos + 1})
    ensures r[at] == s[at] && r[at + 1] == s[at + 1]
  {
    assert Zeroed(x, pos) == Zeroed(z, pos);
    Be16Injective(r[at], r[at + 1], s[at], s[at + 1]);
  }

  lemma SameHeaderChecksum(r: seq<byte>, s: seq<byte>, y: Layout)
    requires y.Complete(r) && y.Complete(s) && SameBut(r, s, Sums(y))
    requires HeaderCarries(r, y) && HeaderCarries(s, y)
    ensures r[y.b + 10] == s[y.b + 10] && r[y.b + 11] == s[y.b + 11]
  {
    SameCarried(r, s, y.b + 10, r[y.b..y.b + y.hl], s[y.b..y.b + y.hl], 10);
  }

  lemma SameSegmentChecksum(r: seq<byte>, s: seq<byte>, y: Layout)
    requires y.Complete(r) && y.Complete(s) && SameBut(r, s, Sums(y))
    requires SegmentCarries(r, y) && SegmentCarries(s, y)
    ensures var f := y.Seg() + ChecksumField(y.proto); r[f] == s[f] && r[f + 1] == s[f + 1]
  {
    SummedDiffersOnlyInField(r, s, y);
    SameCarried(r, s, y.Seg() + ChecksumField(y.proto), Summed(r, y), Summed(s, y), SummedField(y.proto));
  }

  lemma SummedDiffersOnlyInField(r: seq<byte>, s: seq<byte>, y: Layout)
    requires y.Complete(r) && y.Complete(s) && SameBut(r, s, Sums(y))
    ensures SameBut(Summed(r, y), Summed(s, y), {SummedField(y.proto), SummedField(y.proto) + 1})
  {
    var at, h := ChecksumField(y.proto), Pseudo(r, y.b, y.proto, y.len - y.hl);
    var a, b := r[y.Seg()..y.b + y.len], s[y.Seg()..y.b + y.len];
    SliceSameBut(r, s, Sums(y), y.Seg(), y.b + y.len, at);
    if y.proto != ICMP {
      assert r[y.b + 12..y.b + 20] == s[y.b + 12..y.b + 20];
      assert Summed(r, y) == h + a && Summed(s, y) == h + b;
      BehindSameBut(h, a, b, at);
    }
  }

  lemma SliceSameBut(r: seq<byte>, s: seq<byte>, changed: set<nat>, lo: nat, hi: nat, at: nat)
    requires SameBut(r, s, changed) && lo <= hi <= |r|
    requires forall k :: k in changed && lo <= k < hi ==> k == lo + at || k == lo + at + 1
    ensures SameBut(r[lo..hi], s[lo..hi], {at, at + 1})
  {
    forall k | 0 <= k < hi - lo && k != at && k != at + 1 ensures s[lo..hi][k] == r[lo..hi][k] {
      assert lo + k !in changed;
    }
  }

  lemma BehindSameBut(h: seq<byte>, a: seq<byte>, b: seq<byte>, at: nat)
    requires SameBut(a, b, {at, at + 1})
    ensures SameBut(h + a, h + b, {|h| + at, |h| + at + 1})
  {
  }

  // ---------------------------------------------------------------- both checksums verify

  /** What a receiver checks: `check_ics` over the header is 0, and so is the checksum of the segment
      with its pseudo header. */
  ghost predicate Verifies(p: seq<byte>, y: Layout)
    requires y.Fits(p)
  {
    Complement(OnesSum(Little, p[y.b..y.b + y.hl])) == 0 && Complement(OnesSum(Little, Summed(p, y))) == 0
  }

  /** Whatever was translated, the result verifies. */
  lemma TranslationVerifies(p: seq<byte>, r: seq<byte>, y: Layout, portAt: nat, port: u16, addrAt: nat, addr: Ipv4)
    requires y.Complete(p) && Fields(y, portAt, addrAt)
    requires IsTranslation(p, r, y, portAt, port, addrAt, addr)
    ensures Verifies(r, y)
  {
    HeaderVerifies(r, y);
    SegmentVerifies(r, y);
  }

  lemma HeaderVerifies(r: seq<byte>, y: Layout)
    requires y.Complete(r) && HeaderCarries(r, y)
    ensures Complement(OnesSum(Little, r[y.b..y.b + y.hl])) == 0
  {
    var h := r[y.b..y.b + y.hl];
    assert h[10] == r[y.b + 10] && h[11] == r[y.b + 11];
    CarriedVerifies(h, 10);
  }

  lemma SegmentVerifies(r: seq<byte>, y: Layout)
    requires y.Complete(r)
    requires SegmentCarries(r, y)
    ensures Complement(OnesSum(Little, Summed(r, y))) == 0
  {
    var f, at, all := y.Seg() + ChecksumField(y.proto), SummedField(y.proto), Summed(r, y);
    assert all[at] == r[f] && all[at + 1] == r[f + 1];
    CarriedVerifies(all, at);
  }
}
