/** Copying the IP packet out of a chain of network buffers into one flat buffer. */
module Fragments {
  import opened Bytes

  const MTU: nat := 1280
  const ETH: nat := 14

  function Min(a: int, b: int): (m: int)
  {
    if a <= b then a else b
  }

  /** What the copy loop takes from fragment `i`. Of the first one it skips the Ethernet header, and
      it never looks past byte 1280. */
  function Piece(frags: seq<seq<byte>>, i: nat): (p: seq<byte>)
    requires i < |frags|
  {
    if i > 0 then frags[i]
    else if |frags[0]| < ETH then []
    else frags[0][ETH..Min(MTU, |frags[0]|)]
  }

  /** The pieces from fragment `i` on, up to the first empty fragment. */
  function Payload(frags: seq<seq<byte>>, i: nat): (p: seq<byte>)
    requires i <= |frags|
    decreases |frags| - i
  {
    if i == |frags| || frags[i] == [] then [] else Piece(frags, i) + Payload(frags, i + 1)
  }

  /** The whole frame, fragment after fragment. */
  function Frame(frags: seq<seq<byte>>, i: nat): (p: seq<byte>)
    requires i <= |frags|
    decreases |frags| - i
  {
    if i == |frags| then [] else frags[i] + Frame(frags, i + 1)
  }

  /** The frame up to the first empty fragment, where the loop stops. */
  function Reach(frags: seq<seq<byte>>, i: nat): (p: seq<byte>)
    requires i <= |frags|
    decreases |frags| - i
  {
    if i == |frags| || frags[i] == [] then [] else frags[i] + Reach(frags, i + 1)
  }

  /** The buffer after the loop: as much of the payload as asked for and available, then old bytes. */
  function Linearized(old_: seq<byte>, frags: seq<seq<byte>>, tsz: nat): (r: seq<byte>)
    requires tsz <= |old_|
    ensures |r| == |old_|
  {
    var p := Payload(frags, 0);
    var n := Min(tsz, |p|);
    p[..n] + old_[n..]
  }

  method CopyInto(buffer: array<byte>, off: nat, src: seq<byte>)
    requires off + |src| <= buffer.Length
    modifies buffer
    ensures forall k :: 0 <= k < buffer.Length ==>
              buffer[k] == if off <= k < off + |src| then src[k - off] else old(buffer[k])
  {
    forall k | 0 <= k < |src| {
      buffer[off + k] := src[k];
    }
  }

  /** One turn of the copy loop: `dsz` bytes are in place, `tsz` are wanted in all. */
  method CopyPiece(buffer: array<byte>, dsz: nat, tsz: nat, frags: seq<seq<byte>>, i: nat)
    returns (dsz': nat, isLast: bool)
    requires buffer.Length == MTU && dsz <= tsz <= MTU && i < |frags| && frags[i] != []
    requires i == 0 ==> dsz == 0
    modifies buffer
    ensures dsz <= dsz' <= dsz + |Piece(frags, i)|
    ensures if isLast then dsz' == tsz else dsz' == dsz + |Piece(frags, i)| <= tsz
    ensures forall k :: 0 <= k < MTU ==>
              buffer[k] == if dsz <= k < dsz' then Piece(frags, i)[k - dsz] else old(buffer[k])
  {
    var off := if i == 0 then ETH else 0;
    var rsz := Min(MTU - dsz, |frags[i]|) - off;
    isLast, dsz' := false, dsz;
    if dsz + rsz >= tsz {
      rsz := tsz - dsz;
      isLast := true;
    }
    if rsz > 0 {
      CopyInto(buffer, dsz, frags[i][off..off + rsz]);
      dsz' := dsz + rsz;
    }
  }

  /** How many payload bytes lie before fragment `i`. */
  function Before(frags: seq<seq<byte>>, i: nat): (n: nat)
    requires i <= |frags|
  {
    if i == 0 then 0 else Before(frags, i - 1) + |Piece(frags, i - 1)|
  }

  lemma {:induction false} PayloadFrom(frags: seq<seq<byte>>, i: nat)
    requires i <= |frags| && forall k :: 0 <= k < i ==> frags[k] != []
    ensures Before(frags, i) <= |Payload(frags, 0)|
    ensures Payload(frags, 0)[Before(frags, i)..] == Payload(frags, i)
  {
    if i > 0 {
      PayloadFrom(frags, i - 1);
      var p, d := Payload(frags, 0), Before(frags, i - 1);
      DropPiece(p, d, Piece(frags, i - 1), Payload(frags, i));
    }
  }

  lemma DropPiece(p: seq<byte>, d: nat, a: seq<byte>, b: seq<byte>)
    requires d <= |p| && p[d..] == a + b
    ensures d + |a| <= |p| && p[d + |a|..] == b
  {
    assert p[d + |a|..] == p[d..][|a|..];
  }

  /** Where the bytes of fragment `i` are in the payload. */
  lemma PieceInPayload(frags: seq<seq<byte>>, i: nat, p: seq<byte>, d: nat, piece: seq<byte>)
    requires i < |frags| && forall k :: 0 <= k <= i ==> frags[k] != []
    requires p == Payload(frags, 0) && d == Before(frags, i) && piece == Piece(frags, i)
    ensures d + |piece| <= |p| && forall k :: d <= k < d + |piece| ==> p[k] == piece[k - d]
  {
    var rest := Payload(frags, i + 1);
    assert d <= |p| && p[d..] == piece + rest by {
      PayloadFrom(frags, i);
    }
    StartsWith(p, d, piece, rest);
  }

  lemma StartsWith(p: seq<byte>, d: nat, a: seq<byte>, b: seq<byte>)
    requires d <= |p| && p[d..] == a + b
    ensures d + |a| <= |p| && forall k :: d <= k < d + |a| ==> p[k] == a[k - d]
  {
  }

  /** The copy loop of `eth_recv_cb`; `n` bytes of the payload `p` end up in the buffer. */
  method CopyLoop(buffer: array<byte>, frags: seq<seq<byte>>, tsz: nat, ghost p: seq<byte>)
    requires buffer.Length == MTU && tsz <= MTU && p == Payload(frags, 0)
    modifies buffer
    ensures forall k :: 0 <= k < MTU ==> buffer[k] == if k < Min(tsz, |p|) then p[k] else old(buffer[k])
  {
    var dsz: nat, isLast, i: nat := 0, false, 0;
    while i < |frags| && !isLast
      invariant i <= |frags| && dsz <= tsz && forall k :: 0 <= k < i ==> frags[k] != []
      invariant if isLast then dsz == tsz <= |p| else dsz == Before(frags, i) <= |p|
      invariant forall k :: 0 <= k < MTU ==> buffer[k] == if k < dsz then p[k] else old(buffer[k])
    {
      if |frags[i]| == 0 {
        break;
      }
      PieceInPayload(frags, i, p, dsz, Piece(frags, i));
      dsz, isLast := CopyPiece(buffer, dsz, tsz, frags, i);
      i := i + 1;
    }
    if !isLast {
      PayloadFrom(frags, i);
    }
  }

  method Linearize(buffer: array<byte>, frags: seq<seq<byte>>, tsz: nat)
    requires buffer.Length == MTU && tsz <= MTU
    modifies buffer
    ensures buffer[..] == Linearized(old(buffer[..]), frags, tsz)
  {
    CopyLoop(buffer, frags, tsz, Payload(frags, 0));
  }

  lemma {:induction false} PayloadOfRest(frags: seq<seq<byte>>, i: nat)
    requires 1 <= i <= |frags|
    ensures Payload(frags, i) == Reach(frags, i)
    decreases |frags| - i
  {
    if i < |frags| && frags[i] != [] {
      PayloadOfRest(frags, i + 1);
    }
  }

  /** For a chain that starts with a whole Ethernet header, the loop's payload is what it reaches of the
      frame, without that header, exactly when the first fragment is at most 1280 bytes long. */
  lemma PayloadIsReachIff(frags: seq<seq<byte>>)
    requires |frags| > 0 && ETH <= |frags[0]|
    ensures Payload(frags, 0) == Reach(frags, 0)[ETH..] <==> |frags[0]| <= MTU
  {
    PayloadOfRest(frags, 1);
    var first, rest := frags[0], Reach(frags, 1);
    assert Reach(frags, 0)[ETH..] == first[ETH..] + rest;
    if |first| <= MTU {
      assert Min(MTU, |first|) == |first|;
    }
  }

  /** The first 1266 bytes come out right even so. */
  lemma HeadOfPayload(frags: seq<seq<byte>>, n: nat)
    requires |frags| > 0 && ETH <= |frags[0]|
    requires |frags[0]| <= MTU || n <= MTU - ETH
    requires ETH + n <= |Reach(frags, 0)|
    ensures n <= |Payload(frags, 0)| && Payload(frags, 0)[..n] == Reach(frags, 0)[ETH..ETH + n]
  {
    if |frags[0]| <= MTU {
      PayloadIsReachIff(frags);
      assert Reach(frags, 0)[ETH..][..n] == Reach(frags, 0)[ETH..ETH + n];
    } else {
      var first := frags[0];
      HeadOfConcat(first[ETH..MTU], Payload(frags, 1), n);
      HeadOfConcat(first, Reach(frags, 1), ETH + n);
      assert first[ETH..MTU][..n] == first[..ETH + n][ETH..];
    }
  }

  lemma HeadOfConcat(a: seq<byte>, b: seq<byte>, n: nat)
    requires n <= |a|
    ensures (a + b)[..n] == a[..n]
  {
  }

  lemma {:induction false} ReachIsHead(frags: seq<seq<byte>>, i: nat)
    requires i <= |frags|
    ensures Reach(frags, i) <= Frame(frags, i)
    decreases |frags| - i
  {
    if i < |frags| && frags[i] != [] {
      ReachIsHead(frags, i + 1);
    }
  }

  /** What the loop is for: the buffer's first `tsz` bytes are the packet, cut out of the frame. */
  lemma LinearizedIsPacket(old_: seq<byte>, frags: seq<seq<byte>>, tsz: nat)
    requires |frags| > 0 && ETH <= |frags[0]| && tsz <= |old_|
    requires |frags[0]| <= MTU || tsz <= MTU - ETH
    requires ETH + tsz <= |Reach(frags, 0)|
    ensures ETH + tsz <= |Frame(frags, 0)|
    ensures Linearized(old_, frags, tsz)[..tsz] == Frame(frags, 0)[ETH..ETH + tsz]
  {
    HeadOfPayload(frags, tsz);
    ReachIsHead(frags, 0);
    PrefixSlice(Reach(frags, 0), Frame(frags, 0), ETH, ETH + tsz);
  }

  lemma PrefixSlice(a: seq<byte>, b: seq<byte>, lo: nat, hi: nat)
    requires a <= b && lo <= hi <= |a|
    ensures a[lo..hi] == b[lo..hi]
  {
  }

  // ---------------------------------------------------------------- exactly when the copy is right

  /** The same lengths, fragment by fragment. */
  ghost predicate SameShape(a: seq<seq<byte>>, b: seq<seq<byte>>)
  {
    |a| == |b| && forall k :: 0 <= k < |a| ==> |a[k]| == |b[k]|
  }

  /** Whatever bytes the fragments and the buffer hold, the first `tsz` bytes of the buffer become the
      packet. */
  ghost predicate AlwaysRight(frags: seq<seq<byte>>, tsz: nat)
    requires tsz <= MTU
  {
    forall f, old_ :: SameShape(frags, f) && |old_| == MTU && |f| > 0 && ETH + tsz <= |Frame(f, 0)| ==>
      Linearized(old_, f, tsz)[..tsz] == Frame(f, 0)[ETH..ETH + tsz]
  }

  /** The copy depends only on lengths. For a frame that holds the packet it is right, whatever the
      contents, exactly when the first fragment is at most 1280 bytes long or the packet at most 1266,
      and no empty fragment comes before the packet's end. */
  lemma CopyIsRightIff(frags: seq<seq<byte>>, tsz: nat)
    requires |frags| > 0 && ETH <= |frags[0]| && tsz <= MTU && ETH + tsz <= |Frame(frags, 0)|
    ensures AlwaysRight(frags, tsz) <==>
            (|frags[0]| <= 1280 || tsz <= 1266) && 14 + tsz <= |Reach(frags, 0)|
  {
    if MTU < |frags[0]| && MTU - ETH < tsz {
      LongFirstFails(frags, tsz);
    } else if |Reach(frags, 0)| < ETH + tsz {
      ShortReachFails(frags, tsz);
    } else {
      forall f, old_ | SameShape(frags, f) && |old_| == MTU && ETH + tsz <= |Frame(f, 0)|
        ensures Linearized(old_, f, tsz)[..tsz] == Frame(f, 0)[ETH..ETH + tsz]
      {
        SameLengths(frags, f, 0);
        LinearizedIsPacket(old_, f, tsz);
      }
    }
  }

  lemma {:induction false} SameLengths(a: seq<seq<byte>>, b: seq<seq<byte>>, i: nat)
    requires SameShape(a, b) && i <= |a|
    ensures |Frame(a, i)| == |Frame(b, i)| && |Reach(a, i)| == |Reach(b, i)|
    decreases |a| - i
  {
    if i < |a| {
      SameLengths(a, b, i + 1);
    }
  }

  /** Fragments of the same lengths: the first is filled with ones, the others with `fill`. */
  function Marked(frags: seq<seq<byte>>, fill: byte): (f: seq<seq<byte>>)
    ensures SameShape(frags, f)
    ensures forall k, j :: 0 <= k < |f| && 0 <= j < |f[k]| ==> f[k][j] == if k == 0 then 1 else fill
  {
    seq(|frags|, k requires 0 <= k < |frags| => seq(|frags[k]|, _ => if k == 0 then 1 else fill))
  }

  const BLANK: seq<byte> := seq(MTU, _ => 0)

  /** Byte 1266 of the packet lies in the first fragment, but is taken from the next one or not at all. */
  lemma LongFirstFails(frags: seq<seq<byte>>, tsz: nat)
    requires |frags| > 0 && MTU < |frags[0]| && MTU - ETH < tsz <= MTU && ETH + tsz <= |Frame(frags, 0)|
    ensures !AlwaysRight(frags, tsz)
  {
    var f := Marked(frags, 0);
    SameLengths(frags, f, 0);
    var first, rest := f[0][ETH..MTU], Payload(f, 1);
    assert Payload(f, 0) == first + rest && |first| == MTU - ETH;
    RestStarts(f);
    ByteBehind(first, rest, tsz);
    assert Frame(f, 0)[MTU] == f[0][MTU] == 1;
    assert Linearized(BLANK, f, tsz)[..tsz][MTU - ETH] != Frame(f, 0)[ETH..ETH + tsz][MTU - ETH];
  }

  lemma RestStarts(f: seq<seq<byte>>)
    requires |f| > 0 && (forall k, j :: 0 < k < |f| && 0 <= j < |f[k]| ==> f[k][j] == 0)
    ensures Payload(f, 1) != [] ==> Payload(f, 1)[0] == 0
  {
    if |f| > 1 && f[1] != [] {
      assert Payload(f, 1) == f[1] + Payload(f, 2);
    }
  }

  lemma ByteBehind(first: seq<byte>, rest: seq<byte>, tsz: nat)
    requires |first| < tsz <= MTU && (rest != [] ==> rest[0] == 0)
    ensures var p := first + rest;
            var n := Min(tsz, |p|); (p[..n] + BLANK[n..])[|first|] == 0
  {
    var p := first + rest;
    var n := Min(tsz, |p|);
    if rest == [] {
      assert n == |first|;
    } else {
      assert p[..n][|first|] == rest[0];
    }
  }

  /** The first byte behind an empty fragment is not copied. */
  lemma ShortReachFails(frags: seq<seq<byte>>, tsz: nat)
    requires |frags| > 0 && ETH <= |frags[0]| <= MTU && tsz <= MTU
    requires |Reach(frags, 0)| < ETH + tsz <= |Frame(frags, 0)|
    ensures !AlwaysRight(frags, tsz)
  {
    var f := Marked(frags, 1);
    SameLengths(frags, f, 0);
    PayloadIsReachIff(f);
    AllOnes(f, 0);
    var p := Payload(f, 0);
    assert Linearized(BLANK, f, tsz)[|p|] == BLANK[|p|] == 0;
    assert Frame(f, 0)[ETH + |p|] == 1;
    assert Linearized(BLANK, f, tsz)[..tsz][|p|] != Frame(f, 0)[ETH..ETH + tsz][|p|];
  }

  lemma {:induction false} AllOnes(f: seq<seq<byte>>, i: nat)
    requires i <= |f| && forall k, j :: 0 <= k < |f| && 0 <= j < |f[k]| ==> f[k][j] == 1
    ensures forall j :: 0 <= j < |Frame(f, i)| ==> Frame(f, i)[j] == 1
    decreases |f| - i
  {
    if i < |f| {
      AllOnes(f, i + 1);
    }
  }

  // ---------------------------------------------------------------- frames shorter than they say

  ghost predicate SameStart(a: seq<byte>, b: seq<byte>, frags: seq<seq<byte>>, tsz: nat)
    requires tsz <= |a| && tsz <= |b|
  {
    Linearized(a, frags, tsz)[..tsz] == Linearized(b, frags, tsz)[..tsz]
  }

  /** Nothing compares the packet's declared length with the frame. What the buffer held before shows in
      the packet exactly when the loop takes fewer bytes than that. */
  lemma OldBytesShowIff(frags: seq<seq<byte>>, tsz: nat)
    requires tsz <= MTU
    ensures (forall a, b | |a| == |b| == MTU :: SameStart(a, b, frags, tsz)) <==> tsz <= |Payload(frags, 0)|
  {
    var p := Payload(frags, 0);
    if tsz <= |p| {
      forall a, b: seq<byte> | |a| == |b| == MTU ensures SameStart(a, b, frags, tsz) {
        HeadOfConcat(p[..tsz], a[tsz..], tsz);
        HeadOfConcat(p[..tsz], b[tsz..], tsz);
      }
    } else {
      var ones: seq<byte> := seq(MTU, _ => 1);
      StaleTail(BLANK, frags, tsz, |p|);
      StaleTail(ones, frags, tsz, |p|);
      assert Linearized(BLANK, frags, tsz)[..tsz][|p|] != Linearized(ones, frags, tsz)[..tsz][|p|];
      assert !SameStart(BLANK, ones, frags, tsz);
    }
  }

  /** The missing bytes are those of the buffer. */
  lemma StaleTail(old_: seq<byte>, frags: seq<seq<byte>>, tsz: nat, n: nat)
    requires |Payload(frags, 0)| <= n < tsz <= |old_|
    ensures Linearized(old_, frags, tsz)[n] == old_[n]
  {
  }

  /** A full-sized packet that arrives in a single 1294-byte fragment loses its last 14 bytes: stale
      bytes of the buffer stand in for them. */
  lemma FullSizedSingleFragment(old_: seq<byte>, first: seq<byte>)
    requires |first| == 1294 && |old_| == 1280
    ensures var r := Linearized(old_, [first], 1280);
            r[..1266] == first[14..1280] && r[1266..] == old_[1266..]
  {
    assert Payload([first], 1) == [];
    assert Payload([first], 0) == first[ETH..MTU] + [];
  }
}
