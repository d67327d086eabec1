/** The in-place translation both directions perform on their packet buffer. */
module Translate {
  import opened Bytes
  import opened Checksum
  import opened ChecksumCode
  import opened PortTable
  import opened Packet

  method StoreBe16(buffer: array<byte>, off: nat, w: u16)
    requires off + 2 <= buffer.Length
    modifies buffer
    ensures SameBut(old(buffer[..]), buffer[..], {off, off + 1})
    ensures Be16(buffer[off], buffer[off + 1]) == w
  {
    buffer[off] := w / 0x100;
    buffer[off + 1] := w % 0x100;
  }

  method StoreAddress(buffer: array<byte>, off: nat, addr: Ipv4)
    requires off + 4 <= buffer.Length
    modifies buffer
    ensures SameBut(old(buffer[..]), buffer[..], {off, off + 1, off + 2, off + 3})
    ensures IpAt(buffer[..], off) == addr
  {
    buffer[off] := addr.a;
    buffer[off + 1] := addr.b;
    buffer[off + 2] := addr.c;
    buffer[off + 3] := addr.d;
  }

  /** The pseudo header as the code fills it in: a structure whose 16-bit length field is stored
      little-endian after its bytes were swapped. */
  method FillPseudo(addresses: seq<byte>, proto: byte, segLen: u16) returns (h: seq<byte>)
    requires |addresses| == 8
    ensures h == addresses + [0, proto, segLen / 0x100, segLen % 0x100]
  {
    var ipLen := Swap16(segLen);
    SwappedHalves(segLen);
    h := addresses + [0, proto] + [ipLen % 0x100, ipLen / 0x100];
  }

  lemma SwappedHalves(w: u16)
    ensures Swap16(w) % 0x100 == w / 0x100 && Swap16(w) / 0x100 == w % 0x100
  {
  }

  /** Clear the transport checksum, sum pseudo header and segment, store the complement. */
  method StoreTransportChecksum(buffer: array<byte>, y: Layout)
    requires y.Complete(buffer[..]) && y.proto != ICMP
    modifies buffer
    ensures var f := y.Seg() + ChecksumField(y.proto); SameBut(old(buffer[..]), buffer[..], {f, f + 1})
    ensures SegmentCarries(buffer[..], y)
  {
    var f := y.Seg() + ChecksumField(y.proto);
    ghost var p := buffer[..];
    buffer[f] := 0;
    buffer[f + 1] := 0;
    ghost var z := buffer[..];
    var cs := SegmentChecksum(buffer[..], y);
    StoreLe16(buffer, f, cs);
    FieldFilled(z, buffer[..], y);
    SameButTwice(p, z, buffer[..], {f, f + 1});
  }

  /** The checksum of a segment as it stands, its field counted in. */
  method SegmentChecksum(p: seq<byte>, y: Layout) returns (cs: u16)
    requires y.Fits(p)
    ensures cs == Complement(OnesSum(Little, Summed(p, y)))
  {
    var data := p[y.Seg()..y.b + y.len];
    if y.proto == ICMP {
      cs := CheckIcs(data);
    } else {
      var pseudo := FillPseudo(p[y.b + 12..y.b + 20], y.proto, y.len - y.hl);
      assert pseudo + data == Summed(p, y);
      cs := ChecksumOfBoth(pseudo, data);
    }
  }

  lemma FieldFilled(z: seq<byte>, r: seq<byte>, y: Layout)
    requires y.Complete(z) && y.proto != ICMP
    requires var f := y.Seg() + ChecksumField(y.proto);
             && SameBut(z, r, {f, f + 1}) && z[f] == 0 && z[f + 1] == 0
             && Le16(r[f], r[f + 1]) == Complement(OnesSum(Little, Summed(z, y)))
    ensures SegmentCarries(r, y)
  {
    var f, at := y.Seg() + ChecksumField(y.proto), SummedField(y.proto);
    OnlyFieldFilled(z, r, y);
    StoredBytesAreNetworkOrder(Summed(z, y), r[f], r[f + 1]);
  }

  lemma OnlyFieldFilled(z: seq<byte>, r: seq<byte>, y: Layout)
    requires y.Complete(z) && y.proto != ICMP
    requires var f := y.Seg() + ChecksumField(y.proto); SameBut(z, r, {f, f + 1}) && z[f] == 0 && z[f + 1] == 0
    ensures Zeroed(Summed(r, y), SummedField(y.proto)) == Summed(z, y)
  {
    var at, len := ChecksumField(y.proto), y.len - y.hl;
    var h, a, b := Pseudo(z, y.b, y.proto, len), r[y.Seg()..y.b + y.len], z[y.Seg()..y.b + y.len];
    assert r[y.b + 12..y.b + 20] == z[y.b + 12..y.b + 20];
    assert Summed(r, y) == h + a && Summed(z, y) == h + b;
    ZeroedSlice(z, r, y.Seg(), len, at);
    ZeroedBehind(h, a, at);
  }

  lemma ZeroedBehind(h: seq<byte>, a: seq<byte>, at: nat)
    requires at + 2 <= |a|
    ensures Zeroed(h + a, |h| + at) == h + Zeroed(a, at)
  {
  }

  /** The segment's own checksum: over the message alone for ICMP, with pseudo header otherwise. */
  method StoreSegmentChecksum(buffer: array<byte>, y: Layout)
    requires y.Complete(buffer[..])
    modifies buffer
    ensures var f := y.Seg() + ChecksumField(y.proto); SameBut(old(buffer[..]), buffer[..], {f, f + 1})
    ensures SegmentCarries(buffer[..], y)
  {
    if y.proto == ICMP {
      CalcIcs(buffer, y.Seg(), y.len - y.hl, 2);
    } else {
      StoreTransportChecksum(buffer, y);
    }
  }

  /** Port, address, header checksum, segment checksum, in the order of the code. */
  method TranslateInPlace(buffer: array<byte>, y: Layout, portAt: nat, port: u16, addrAt: nat, addr: Ipv4)
    requires y.Complete(buffer[..]) && Fields(y, portAt, addrAt)
    modifies buffer
    ensures IsTranslation(old(buffer[..]), buffer[..], y, portAt, port, addrAt, addr)
  {
    ghost var p := buffer[..];
    StoreFields(buffer, y, portAt, port, addrAt, addr);
    ghost var p1 := buffer[..];
    StoreHeaderChecksum(buffer, y);
    ghost var p2 := buffer[..];
    StoreSegmentChecksum(buffer, y);
    ghost var r := buffer[..];
    FrameStays(p, p1, p2, r, y, Addressed(y, portAt, addrAt));
    FieldsStay(p1, p2, r, y, portAt, port, addrAt, addr);
    HeaderStays(p2, r, y);
  }

  method StoreFields(buffer: array<byte>, y: Layout, portAt: nat, port: u16, addrAt: nat, addr: Ipv4)
    requires y.Complete(buffer[..]) && Fields(y, portAt, addrAt)
    modifies buffer
    ensures SameBut(old(buffer[..]), buffer[..], Addressed(y, portAt, addrAt))
    ensures FieldsRead(buffer[..], y, portAt, port, addrAt, addr)
  {
    var q := y.Seg() + portAt;
    StoreBe16(buffer, q, port);
    ghost var p1 := buffer[..];
    StoreAddress(buffer, y.b + addrAt, addr);
    assert buffer[..][q] == p1[q] && buffer[..][q + 1] == p1[q + 1];
  }

  method StoreHeaderChecksum(buffer: array<byte>, y: Layout)
    requires y.Complete(buffer[..])
    modifies buffer
    ensures SameBut(old(buffer[..]), buffer[..], {y.b + 10, y.b + 11})
    ensures HeaderCarries(buffer[..], y)
  {
    CalcIcs(buffer, y.b, y.hl, 10);
  }

  lemma FrameStays(p: seq<byte>, p1: seq<byte>, p2: seq<byte>, r: seq<byte>, y: Layout, first: set<nat>)
    requires SameBut(p, p1, first) && SameBut(p1, p2, {y.b + 10, y.b + 11})
    requires var f := y.Seg() + ChecksumField(y.proto); SameBut(p2, r, {f, f + 1})
    ensures SameBut(p, r, first + Sums(y))
  {
  }

  lemma FieldsStay(p1: seq<byte>, p2: seq<byte>, r: seq<byte>, y: Layout, portAt: nat, port: u16,
                   addrAt: nat, addr: Ipv4)
    requires y.Complete(p1) && Fields(y, portAt, addrAt) && FieldsRead(p1, y, portAt, port, addrAt, addr)
    requires SameBut(p1, p2, {y.b + 10, y.b + 11})
    requires var f := y.Seg() + ChecksumField(y.proto); SameBut(p2, r, {f, f + 1})
    ensures FieldsRead(r, y, portAt, port, addrAt, addr)
  {
  }

  lemma HeaderStays(p: seq<byte>, r: seq<byte>, y: Layout)
    requires y.Complete(p) && HeaderCarries(p, y)
    requires var f := y.Seg() + ChecksumField(y.proto); SameBut(p, r, {f, f + 1})
    ensures HeaderCarries(r, y)
  {
    assert r[y.b..y.b + y.hl] == p[y.b..y.b + y.hl];
  }
}
