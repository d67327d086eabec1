/** The Internet checksum: the reference definition of RFC 1071 and the arithmetic that
    relates it to sums taken in wider words, in the other byte order, or with late carries. */
module Checksum {
  import opened Bytes

  datatype Order = Little | Big

  function Word(o: Order, a: byte, b: byte): (w: u16)
  {
    match o
    case Little => Le16(a, b)
    case Big => Be16(a, b)
  }

  /** 16-bit one's complement addition: the carry out of the top is added back in. */
  function OnesAdd(a: u16, b: u16): (r: u16)
  {
    if a + b > 0xFFFF then a + b - 0xFFFF else a + b
  }

  function Complement(w: u16): (r: u16)
    ensures r + w == 0xFFFF
  {
    0xFFFF - w
  }

  /** The one's complement sum of the octets from `i` on, paired into 16-bit integers, a lone
      last octet being padded with a zero octet (RFC 1071, section 1). */
  function OnesFrom(o: Order, s: seq<byte>, i: nat): (r: u16)
    requires i <= |s|
    decreases |s| - i
  {
    if i == |s| then 0
    else if i + 1 == |s| then Word(o, s[i], 0)
    else OnesAdd(Word(o, s[i], s[i + 1]), OnesFrom(o, s, i + 2))
  }

  function OnesSum(o: Order, s: seq<byte>): (r: u16)
  {
    OnesFrom(o, s, 0)
  }

  /** The checksum of RFC 1071, section 1, in network byte order. */
  function RfcChecksum(s: seq<byte>): (r: u16)
  {
    Complement(OnesSum(Big, s))
  }

  /** The same words added up as unbounded integers. */
  function PlainFrom(o: Order, s: seq<byte>, i: nat): (r: nat)
    requires i <= |s|
    decreases |s| - i
  {
    if i == |s| then 0
    else if i + 1 == |s| then Word(o, s[i], 0)
    else Word(o, s[i], s[i + 1]) + PlainFrom(o, s, i + 2)
  }

  function PlainSum(o: Order, s: seq<byte>): (r: nat)
  {
    PlainFrom(o, s, 0)
  }

  /** The representative of `n` modulo 0xFFFF in 0..0xFFFF that is 0 only for `n == 0`: one's
      complement arithmetic keeps the two zeros apart. */
  function Norm(n: nat): (r: u16)
    ensures r == 0 <==> n == 0
  {
    if n == 0 then 0 else 1 + (n - 1) % 0xFFFF
  }

  /** `Norm` is the only such representative. */
  lemma NormUnique(n: nat, r: u16, k: int)
    requires n == r + 0xFFFF * k
    requires n == 0 <==> r == 0
    ensures Norm(n) == r
  {
  }

  /** How many times 0xFFFF was folded away. */
  function Folds(n: nat): (k: nat)
    ensures n == Norm(n) + 0xFFFF * k
  {
    if n == 0 then 0 else (n - 1) / 0xFFFF
  }

  /** Two sums that differ by a multiple of 0xFFFF and are zero together fold to the same word. */
  lemma NormShift(a: nat, b: nat, k: int)
    requires a == b + 0xFFFF * k
    requires a == 0 <==> b == 0
    ensures Norm(a) == Norm(b)
  {
  }

  lemma OnesAddIsNorm(a: nat, b: nat)
    ensures OnesAdd(Norm(a), Norm(b)) == Norm(a + b)
  {
    var i, j := Folds(a), Folds(b);
    NormUnique(a + b, OnesAdd(Norm(a), Norm(b)), i + j + if Norm(a) + Norm(b) > 0xFFFF then 1 else 0);
  }

  lemma NormOfWord(w: u16)
    ensures Norm(w) == w
  {
  }

  /** Deferring every carry to the end changes nothing (RFC 1071, section 2(C)). */
  lemma {:induction false} OnesIsNorm(o: Order, s: seq<byte>, i: nat)
    requires i <= |s|
    ensures OnesFrom(o, s, i) == Norm(PlainFrom(o, s, i))
    decreases |s| - i
  {
    if i + 1 == |s| {
      NormOfWord(Word(o, s[i], 0));
    } else if i < |s| {
      OnesIsNorm(o, s, i + 2);
      NormOfWord(Word(o, s[i], s[i + 1]));
      OnesAddIsNorm(Word(o, s[i], s[i + 1]), PlainFrom(o, s, i + 2));
    }
  }

  lemma OnesSumIsNorm(o: Order, s: seq<byte>)
    ensures OnesSum(o, s) == Norm(PlainSum(o, s))
  {
    OnesIsNorm(o, s, 0);
  }

  /** The positive zero is the sum of nothing but zero octets. */
  lemma {:induction false} PlainZeroIffAllZero(o: Order, s: seq<byte>, i: nat)
    requires i <= |s|
    ensures PlainFrom(o, s, i) == 0 <==> forall j :: i <= j < |s| ==> s[j] == 0
    decreases |s| - i
  {
    if i + 1 < |s| {
      PlainZeroIffAllZero(o, s, i + 2);
    }
  }

  lemma SumZeroIffAllZero(o: Order, s: seq<byte>)
    ensures OnesSum(o, s) == 0 <==> forall j :: 0 <= j < |s| ==> s[j] == 0
  {
    OnesSumIsNorm(o, s);
    PlainZeroIffAllZero(o, s, 0);
  }

  /** Summing in the other byte order multiplies by 256, modulo 0xFFFF. */
  lemma {:induction false} BigIs256Little(s: seq<byte>, i: nat) returns (k: nat)
    requires i <= |s|
    ensures 0x100 * PlainFrom(Little, s, i) == PlainFrom(Big, s, i) + 0xFFFF * k
    ensures PlainFrom(Little, s, i) == 0 <==> PlainFrom(Big, s, i) == 0
    decreases |s| - i
  {
    if i + 1 >= |s| {
      k := 0;
    } else {
      var j := BigIs256Little(s, i + 2);
      k := j + s[i + 1];
    }
  }

  /** Swapping the two bytes of a folded word is multiplication by 256. */
  lemma SwapIs256(n: nat)
    ensures Swap16(Norm(n)) == Norm(0x100 * n)
  {
    var k := Folds(n);
    var r: int := Norm(n);
    assert 0x100 * r == Swap16(r) + 0xFFFF * (r / 0x100);
    NormUnique(0x100 * n, Swap16(r), 0x100 * k + r / 0x100);
  }

  /** Byte-order independence (RFC 1071, section 2(B)): a sum over swapped words is the swapped sum. */
  lemma ByteOrderIndependence(s: seq<byte>)
    ensures OnesSum(Big, s) == Swap16(OnesSum(Little, s))
  {
    OnesSumIsNorm(Little, s);
    OnesSumIsNorm(Big, s);
    var k := BigIs256Little(s, 0);
    SwapIs256(PlainSum(Little, s));
    NormShift(0x100 * PlainSum(Little, s), PlainSum(Big, s), k);
  }

  /** Storing the host-order complement with a little-endian store puts the network-order checksum
      on the wire, first octet first. */
  lemma StoredBytesAreNetworkOrder(s: seq<byte>, first: byte, second: byte)
    requires Le16(first, second) == Complement(OnesSum(Little, s))
    ensures Be16(first, second) == RfcChecksum(s)
  {
    ByteOrderIndependence(s);
    SwapOfComplement(OnesSum(Little, s), first, second);
  }

  lemma SwapOfComplement(n: u16, first: byte, second: byte)
    requires Le16(first, second) == Complement(n)
    ensures Be16(first, second) == Complement(Swap16(n))
  {
  }

  /** Equal octets have equal sums, wherever they stand. */
  lemma {:induction false} PlainFromAgree(o: Order, s: seq<byte>, i: nat, t: seq<byte>, j: nat)
    requires i <= |s| && j <= |t| && |s| - i == |t| - j
    requires forall k :: i <= k < |s| ==> s[k] == t[k - i + j]
    ensures PlainFrom(o, s, i) == PlainFrom(o, t, j)
    decreases |s| - i
  {
    if i + 1 < |s| {
      PlainFromAgree(o, s, i + 2, t, j + 2);
    }
  }

  lemma {:induction false} PlainFromConcat(o: Order, a: seq<byte>, b: seq<byte>, i: nat)
    requires |a| % 2 == 0 && i % 2 == 0 && i <= |a|
    ensures PlainFrom(o, a + b, i) == PlainFrom(o, a, i) + PlainSum(o, b)
    decreases |a| - i
  {
    if i == |a| {
      PlainFromAgree(o, a + b, i, b, 0);
    } else {
      PlainFromConcat(o, a, b, i + 2);
    }
  }

  /** Filling a zeroed, even-aligned 16-bit field adds exactly its value to the sum. */
  lemma {:induction false} PlainFromPut(s: seq<byte>, r: seq<byte>, i: nat, pos: nat)
    requires |s| == |r| && i <= pos && (pos - i) % 2 == 0 && pos + 2 <= |s|
    requires s[pos] == 0 && s[pos + 1] == 0
    requires forall k :: 0 <= k < |s| && k != pos && k != pos + 1 ==> r[k] == s[k]
    ensures PlainFrom(Little, r, i) == PlainFrom(Little, s, i) + Le16(r[pos], r[pos + 1])
    decreases pos - i
  {
    if i == pos {
      PlainFromAgree(Little, s, i + 2, r, i + 2);
    } else {
      PlainFromPut(s, r, i + 2, pos);
    }
  }

  /** A sum to which its own complement is added folds to the negative zero. */
  lemma ComplementFoldsToOnes(n: nat)
    ensures Norm(n + Complement(Norm(n))) == 0xFFFF
  {
  }

  /** The 16-bit field at `at` holds, in network byte order, the checksum of `covered`, in which the
      same field stands at `pos` and counts as zero. */
  ghost predicate Carries(p: seq<byte>, at: nat, covered: seq<byte>, pos: nat)
  {
    && at + 2 <= |p| && pos + 2 <= |covered|
    && Be16(p[at], p[at + 1]) == RfcChecksum(Zeroed(covered, pos))
  }

  /** Counting the field in adds the complement of the sum without it. */
  lemma CarriedSum(s: seq<byte>, pos: nat)
    requires pos % 2 == 0 && Carries(s, pos, s, pos)
    ensures var z := Zeroed(s, pos); PlainSum(Little, s) == PlainSum(Little, z) + Complement(OnesSum(Little, z))
  {
    var z := Zeroed(s, pos);
    ByteOrderIndependence(z);
    LittleOfBig(OnesSum(Little, z), s[pos], s[pos + 1]);
    PlainFromPut(z, s, 0, pos);
  }

  /** Data that carry their own checksum verify: with the field counted in, the complement of their
      sum is zero, in either byte order. */
  lemma CarriedVerifies(s: seq<byte>, pos: nat)
    requires pos % 2 == 0 && Carries(s, pos, s, pos)
    ensures Complement(OnesSum(Little, s)) == 0 && RfcChecksum(s) == 0
  {
    var z := Zeroed(s, pos);
    CarriedSum(s, pos);
    OnesSumIsNorm(Little, z);
    ComplementFoldsToOnes(PlainSum(Little, z));
    OnesSumIsNorm(Little, s);
    ByteOrderIndependence(s);
  }

  lemma LittleOfBig(n: u16, first: byte, second: byte)
    requires Be16(first, second) == Complement(Swap16(n))
    ensures Le16(first, second) == Complement(n)
  {
    var a: int, b: int, hi: int, lo: int := first, second, n / 0x100, n % 0x100;
    assert 0x100 * a + b == 0xFFFF - (0x100 * lo + hi);
    assert a == 0xFF - lo && b == 0xFF - hi;
  }

  lemma FullSum(n: nat, w: u16)
    ensures Norm(n + w) == 0xFFFF <==> w == Complement(Norm(n)) || (w == 0xFFFF && Norm(n) == 0xFFFF)
  {
    var k, m: int := Folds(n), Norm(n);
    if m + w > 0xFFFF {
      NormUnique(n + w, m + w - 0xFFFF, k + 1);
    } else {
      NormUnique(n + w, m + w, k);
    }
  }

  lemma SwappedComplement(n: u16, first: byte, second: byte)
    ensures Be16(first, second) == Complement(Swap16(n)) <==> Le16(first, second) == Complement(n)
  {
    if Be16(first, second) == Complement(Swap16(n)) {
      LittleOfBig(n, first, second);
    } else if Le16(first, second) == Complement(n) {
      SwapOfComplement(n, first, second);
    }
  }

  /** What a receiver accepts: exactly the computed checksum in the field, or the other zero. */
  lemma VerifiesIff(s: seq<byte>, pos: nat)
    requires pos % 2 == 0 && pos + 2 <= |s|
    ensures var field, sum := Be16(s[pos], s[pos + 1]), RfcChecksum(Zeroed(s, pos));
            Complement(OnesSum(Little, s)) == 0 <==> field == sum || (field == 0xFFFF && sum == 0)
  {
    var z := Zeroed(s, pos);
    var n := PlainSum(Little, z);
    PlainFromPut(z, s, 0, pos);
    OnesSumIsNorm(Little, s);
    OnesSumIsNorm(Little, z);
    ByteOrderIndependence(z);
    FullSum(n, Le16(s[pos], s[pos + 1]));
    SwappedComplement(Norm(n), s[pos], s[pos + 1]);
    FullWords(Norm(n), s[pos], s[pos + 1]);
  }

  lemma FullWords(m: u16, first: byte, second: byte)
    ensures m == 0xFFFF <==> Complement(Swap16(m)) == 0
    ensures Le16(first, second) == 0xFFFF <==> Be16(first, second) == 0xFFFF
  {
  }
}
