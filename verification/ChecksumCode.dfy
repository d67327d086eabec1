/** The checksum routines of the utility file, as they compute: wide words, a 32-bit accumulator,
    carries folded in late. Each is proved equal to the reference sum of module Checksum. */
module ChecksumCode {
  import opened Bytes
  import opened Checksum

  /** `acc` and the octets still to come, summing to `rest`, stand for `total`: they differ by `k`
      times 0xFFFF, and the accumulator is zero only while nothing but zeros was added. */
  ghost predicate StandsFor(acc: nat, rest: nat, total: nat, k: int)
  {
    total == acc + rest + 0xFFFF * k && rest <= total && (acc == 0 <==> total == rest)
  }

  /** Moving `s`, which differs from the amount taken off the rest by `m` times 0xFFFF, into the
      accumulator. */
  lemma TakeKeeps(acc: nat, rest: nat, total: nat, k: int, s: nat, next: nat, j: int, rest': nat, m: int)
    requires StandsFor(acc, rest, total, k) && StandsFor(next, 0, acc + s, j)
    requires s + rest' == rest + 0xFFFF * m && rest' <= rest && (s == 0 <==> rest' == rest)
    ensures StandsFor(next, rest', total, k + j - m)
  {
  }

  /** One folding step of an accumulator: high half plus low half. */
  method FoldStep(sum: u32) returns (r: u32, ghost k: nat)
    ensures StandsFor(r, 0, sum, k)
    ensures sum > 0xFFFF ==> r < sum
    ensures r < 0x2_0000
  {
    r, k := sum % 0x1_0000 + sum / 0x1_0000, sum / 0x1_0000;
  }

  /** The accumulator step of `check_ics`: add with wrap-around, then add the carry back. */
  method AddWithCarry(acc: u32, s: u32) returns (r: u32, ghost k: nat)
    ensures StandsFor(r, 0, acc + s, k)
  {
    var sum: int := acc + s;
    r, k := sum % WRAP32, 0;
    if r < s {
      r, k := r + 1, 0x1_0001;
    }
  }

  method FoldTo16(acc: u32) returns (r: u16)
    ensures r == Norm(acc)
  {
    var sum := acc;
    ghost var k: nat, j: nat := 0, 0;
    while sum > 0xFFFF
      invariant StandsFor(sum, 0, acc, k)
    {
      sum, j := FoldStep(sum);
      k := k + j;
    }
    NormUnique(acc, sum, k);
    r := sum;
  }

  /** One 32-bit load takes two words off the rest and adds, modulo 0xFFFF, their sum. */
  lemma TakeDword(s: seq<byte>, i: nat)
    requires i + 4 <= |s|
    ensures Load32(s, i) + PlainFrom(Little, s, i + 4)
         == PlainFrom(Little, s, i) + 0xFFFF * Le16(s[i + 2], s[i + 3])
    ensures PlainFrom(Little, s, i + 4) <= PlainFrom(Little, s, i)
    ensures Load32(s, i) == 0 <==> PlainFrom(Little, s, i + 4) == PlainFrom(Little, s, i)
  {
  }

  /** The word loop of `check_ics`. */
  method AddDwords(buffer: seq<byte>) returns (acc: u32, p: nat, ghost k: int)
    ensures p <= |buffer| < p + 4
    ensures StandsFor(acc, PlainFrom(Little, buffer, p), PlainSum(Little, buffer), k)
  {
    acc, p, k := 0, 0, 0;
    ghost var j: int, total := 0, PlainSum(Little, buffer);
    while p + 4 <= |buffer|
      invariant p <= |buffer|
      invariant StandsFor(acc, PlainFrom(Little, buffer, p), total, k)
    {
      TakeDword(buffer, p);
      var s := Load32(buffer, p);
      ghost var m := Le16(buffer[p + 2], buffer[p + 3]);
      var next: u32;
      next, j := AddWithCarry(acc, s);
      TakeKeeps(acc, PlainFrom(Little, buffer, p), total, k, s, next, j, PlainFrom(Little, buffer, p + 4), m);
      acc, k, p := next, k + j - m, p + 4;
    }
  }

  /** The 2- and 1-byte tails of `check_ics`. */
  method AddTails(start: u32, buffer: seq<byte>, from: nat) returns (acc: u32, ghost k: int)
    requires from <= |buffer| < from + 4
    ensures StandsFor(acc, 0, start + PlainFrom(Little, buffer, from), k)
  {
    var p := from;
    ghost var j: int := 0;
    acc, k := start, 0;
    if |buffer| - p >= 2 {
      acc, k := AddWithCarry(acc, Le16(buffer[p], buffer[p + 1]));
      p := p + 2;
    }
    if |buffer| - p == 1 {
      acc, j := AddWithCarry(acc, buffer[p]);
      k := k + j;
    }
  }

  /** `check_ics`: 32-bit words with end-around carry, then the tails, then folding. */
  method CheckIcs(buffer: seq<byte>) returns (hcs: u16)
    ensures hcs == Complement(OnesSum(Little, buffer))
  {
    var acc: u32, p: nat;
    ghost var k: int, j: int := 0, 0;
    acc, p, k := AddDwords(buffer);
    acc, j := AddTails(acc, buffer, p);
    OnesSumIsNorm(Little, buffer);
    NormShift(PlainSum(Little, buffer), acc, k + j);
    var folded := FoldTo16(acc);
    hcs := Complement(folded);
  }

  /** `calc_ics`: clear the field, sum the range, store the complement in place. What ends up on the
      wire is the network-order checksum, although loads and store are little-endian. */
  method CalcIcs(buffer: array<byte>, off: nat, len: nat, pos: nat)
    requires off + len <= buffer.Length && pos + 2 <= len
    modifies buffer
    ensures SameBut(old(buffer[..]), buffer[..], {off + pos, off + pos + 1})
    ensures Carries(buffer[..], off + pos, buffer[..][off..off + len], pos)
  {
    ghost var p := buffer[..];
    buffer[off + pos] := 0;
    buffer[off + pos + 1] := 0;
    ghost var z := buffer[..];
    var hcs := CheckIcs(buffer[..][off..off + len]);
    StoreLe16(buffer, off + pos, hcs);
    FieldStored(z, buffer[..], off, len, pos);
    SameButTwice(p, z, buffer[..], {off + pos, off + pos + 1});
  }

  lemma SameButTwice(p: seq<byte>, z: seq<byte>, r: seq<byte>, written: set<nat>)
    requires SameBut(p, z, written) && SameBut(z, r, written)
    ensures SameBut(p, r, written)
  {
  }

  /** The complement of the sum of a range, stored in a cleared field of it: the range then carries its
      own checksum. */
  lemma FieldStored(z: seq<byte>, r: seq<byte>, off: nat, len: nat, pos: nat)
    requires off + len <= |z| && pos + 2 <= len && SameBut(z, r, {off + pos, off + pos + 1})
    requires z[off + pos] == 0 && z[off + pos + 1] == 0
    requires Le16(r[off + pos], r[off + pos + 1]) == Complement(OnesSum(Little, z[off..off + len]))
    ensures Carries(r, off + pos, r[off..off + len], pos)
  {
    ZeroedSlice(z, r, off, len, pos);
    StoredBytesAreNetworkOrder(z[off..off + len], r[off + pos], r[off + pos + 1]);
  }

  lemma ZeroedSlice(z: seq<byte>, r: seq<byte>, off: nat, len: nat, pos: nat)
    requires off + len <= |z| && pos + 2 <= len && SameBut(z, r, {off + pos, off + pos + 1})
    requires z[off + pos] == 0 && z[off + pos + 1] == 0
    ensures Zeroed(r[off..off + len], pos) == z[off..off + len]
  {
    var a, b := Zeroed(r[off..off + len], pos), z[off..off + len];
    forall k | 0 <= k < len ensures a[k] == b[k] {
      assert b[k] == z[off + k];
    }
  }

  method StoreLe16(buffer: array<byte>, off: nat, w: u16)
    requires off + 2 <= buffer.Length
    modifies buffer
    ensures SameBut(old(buffer[..]), buffer[..], {off, off + 1})
    ensures Le16(buffer[off], buffer[off + 1]) == w
  {
    buffer[off] := w % 0x100;
    buffer[off + 1] := w / 0x100;
  }

  /** The sum `ip_checksum2` folds. With an odd first buffer its last byte is paired with the first
      byte of the second one, but as the more significant half. */
  ghost function JoinedSum(d1: seq<byte>, d2: seq<byte>): (r: nat)
    requires |d1| % 2 == 1 ==> |d2| > 0
  {
    if |d1| % 2 == 0 then PlainSum(Little, d1) + PlainSum(Little, d2)
    else PlainSum(Little, d1[..|d1| - 1]) + Be16(d1[|d1| - 1], d2[0]) + PlainFrom(Little, d2, 1)
  }

  /** The accumulator step of `ip_checksum2`: fold only once bit 31 is reached. No addition
      of a 16-bit word leaves 32 bits. */
  method AddLate(sum: u32, w: u16) returns (r: u32, ghost k: nat)
    requires sum < 0x8000_0000
    ensures r < 0x8000_0000
    ensures StandsFor(r, 0, sum + w, k)
  {
    r, k := sum + w, 0;
    if r >= 0x8000_0000 {
      r, k := FoldStep(r);
    }
  }

  /** The word loop of `ip_checksum2` from `from` on; it leaves a lone last byte to its caller. */
  method AddWords(start: u32, data: seq<byte>, from: nat)
    returns (sum: u32, p: nat, ghost n: nat, ghost k: int)
    requires start < 0x8000_0000 && from <= |data|
    ensures sum < 0x8000_0000
    ensures p == from + 2 * n && p <= |data| <= p + 1
    ensures StandsFor(sum, PlainFrom(Little, data, p), start + PlainFrom(Little, data, from), k)
  {
    sum, p, n, k := start, from, 0, 0;
    var c := |data| - from;
    ghost var j: nat := 0;
    ghost var total: nat := start + PlainFrom(Little, data, from);
    while c > 1
      invariant 0 <= c && p + c == |data| && p == from + 2 * n
      invariant sum < 0x8000_0000
      invariant StandsFor(sum, PlainFrom(Little, data, p), total, k)
    {
      var w := Le16(data[p], data[p + 1]);
      var next: u32;
      next, j := AddLate(sum, w);
      TakeKeeps(sum, PlainFrom(Little, data, p), total, k, w, next, j, PlainFrom(Little, data, p + 2), 0);
      sum, k, p, c, n := next, k + j, p + 2, c - 2, n + 1;
    }
  }

  lemma OddPrefix(s: seq<byte>)
    requires |s| % 2 == 1
    ensures PlainSum(Little, s) == PlainSum(Little, s[..|s| - 1]) + s[|s| - 1]
  {
    var a, b := s[..|s| - 1], [s[|s| - 1]];
    assert s == a + b;
    PlainFromConcat(Little, a, b, 0);
  }

  lemma SeamWord(lo: byte, beyond: byte, next: byte)
    ensures Le16(lo, beyond) * 0x100 % 0x1_0000 + next == Be16(lo, next)
  {
  }

  /** `ip_checksum2`. The 16-bit load at the end of an odd first buffer also takes in the byte
      `beyond` it; that byte is shifted out and does not matter. */
  method IpChecksum2(data1: seq<byte>, beyond: byte, data2: seq<byte>) returns (cs: u16)
    requires |data1| % 2 == 1 ==> |data2| > 0
    ensures cs == Complement(Norm(JoinedSum(data1, data2)))
  {
    var sum: u32, p: nat, r: nat;
    ghost var k: int, j: int, i: int, n: nat := 0, 0, 0, 0;
    sum, p, n, k := AddWords(0, data1, 0);
    var next := 0;
    if p < |data1| {
      OddPrefix(data1);
      SeamWord(data1[p], beyond, data2[0]);
      var val: u16 := Le16(data1[p], beyond) * 0x100 % 0x1_0000 + data2[0];
      sum, j := AddLate(sum, val);
      next := 1;
    }
    ghost var head := JoinedSum(data1, data2) - PlainFrom(Little, data2, next);
    assert StandsFor(sum, 0, head, k + j);
    sum, r, n, i := AddWords(sum, data2, next);
    if r < |data2| {
      sum := sum + data2[r];
    }
    assert StandsFor(sum, 0, JoinedSum(data1, data2), k + j + i);
    NormShift(JoinedSum(data1, data2), sum, k + j + i);
    var folded := FoldTo16(sum);
    cs := Complement(folded);
  }

  /** With an even first buffer, the only kind the gateway passes, the two routines agree. */
  lemma JoinedSumIsConcat(d1: seq<byte>, d2: seq<byte>)
    requires |d1| % 2 == 0
    ensures Norm(JoinedSum(d1, d2)) == OnesSum(Little, d1 + d2)
  {
    PlainFromConcat(Little, d1, d2, 0);
    OnesSumIsNorm(Little, d1 + d2);
  }

  method ChecksumOfBoth(d1: seq<byte>, d2: seq<byte>) returns (cs: u16)
    requires |d1| % 2 == 0
    ensures cs == Complement(OnesSum(Little, d1 + d2))
  {
    cs := IpChecksum2(d1, 0, d2);
    JoinedSumIsConcat(d1, d2);
  }

  /** The two checksum routines give the same word just when the first buffer is even or the two
      bytes around the seam are equal. */
  lemma RoutinesAgreeIff(d1: seq<byte>, d2: seq<byte>)
    requires |d1| % 2 == 1 ==> |d2| > 0
    ensures Norm(JoinedSum(d1, d2)) == OnesSum(Little, d1 + d2)
            <==> |d1| % 2 == 0 || d1[|d1| - 1] == d2[0]
  {
    if |d1| % 2 == 0 {
      JoinedSumIsConcat(d1, d2);
    } else {
      OddPrefix(d1);
      SeamDifference(d1, d2, 0);
      OnesSumIsNorm(Little, d1 + d2);
      EqualOnlyAtEqualBytes(JoinedSum(d1, d2), PlainSum(Little, d1 + d2), d1[|d1| - 1], d2[0]);
    }
  }

  lemma EqualOnlyAtEqualBytes(x: nat, y: nat, a: byte, b: byte)
    requires x - y == 0xFF * (a as int - b)
    ensures Norm(x) == Norm(y) <==> a == b
  {
  }

  /** In the concatenation the first byte after an odd prefix is the more significant half. */
  lemma {:induction false} SeamDifference(d1: seq<byte>, d2: seq<byte>, i: nat)
    requires |d1| % 2 == 1 && |d2| > 0 && i % 2 == 0 && i < |d1|
    ensures PlainFrom(Little, d1 + d2, i)
         == PlainFrom(Little, d1, i) + 0x100 * (d2[0] as int) + PlainFrom(Little, d2, 1)
    decreases |d1| - i
  {
    if i + 1 == |d1| {
      PlainFromAgree(Little, d1 + d2, i + 2, d2, 1);
    } else {
      SeamDifference(d1, d2, i + 2);
    }
  }
}
