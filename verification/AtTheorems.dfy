/** The AT parser as a recogniser and as the inverse of a printer, and what a failed parse leaves
    behind for the next one. */
module AtTheorems {
  import opened Bytes
  import opened AtParser
  import opened AtGrammar

  // ---------------------------------------------------------------- from an accepted string to its fields

  /** Where the run of digits from `i` on ends. */
  function DigitsEnd(t: seq<byte>, i: nat): (j: nat)
    requires i <= |t|
    ensures i <= j <= |t| && (forall k :: i <= k < j ==> Digit(t[k])) && (j < |t| ==> !Digit(t[j]))
    decreases |t| - i
  {
    if i < |t| && Digit(t[i]) then DigitsEnd(t, i + 1) else i
  }

  /** Where the run of characters a string may hold ends. */
  function CharsEnd(t: seq<byte>, i: nat): (j: nat)
    requires i <= |t|
    ensures i <= j <= |t| && (forall k :: i <= k < j ==> Plain(t[k]))
    ensures j < |t| ==> !Plain(t[j])
    decreases |t| - i
  {
    if i < |t| && Plain(t[i]) then CharsEnd(t, i + 1) else i
  }

  ghost predicate Accepts(m: Machine, t: seq<byte>, i: nat)
    requires i <= |t|
  {
    Fits(m, t, i) && Parse(m, t, i).code == 0
  }

  /** An accepted string goes on with a field `x` up to `j`, and then ends, or goes on after a comma. */
  ghost predicate Leads(x: Item, es: seq<Entry>, t: seq<byte>, i: nat, j: nat)
    requires i <= |t|
  {
    && Good(x) && i <= j <= |t| && t[i..j] == Print(x)
    && (Ends(CharAt(t, j)) ||
        (j < |t| && t[j] == COMMA && |es| < PARAMS && Accepts(At(Ready, [], es + [EntryOf(x)]), t, j + 1)))
  }

  lemma NumberLeads(es: seq<Entry>, t: seq<byte>, i: nat) returns (x: Item, j: nat)
    requires i < |t| && |es| <= PARAMS && (Sign(t[i]) || Digit(t[i])) && Accepts(At(Ready, [], es), t, i)
    ensures Leads(x, es, t, i, j)
  {
    j := DigitsEnd(t, i + 1);
    var s := t[i..j];
    x := Number(s);
    NumberAccepted(es, t, i, j, s);
    NumberStops(s, es, t, j);
    if CharAt(t, j) == COMMA {
      NumberThen(s, es, t, j);
    }
  }

  lemma NumberAccepted(es: seq<Entry>, t: seq<byte>, i: nat, j: nat, s: seq<byte>)
    requires i < j <= |t| && |es| <= PARAMS && s == t[i..j] && Accepts(At(Ready, [], es), t, i)
    requires (Sign(t[i]) || Digit(t[i])) && forall k :: i < k < j ==> Digit(t[k])
    ensures |s| < BUF && Accepts(At(InNumber, s, es), t, j)
    ensures (Sign(s[0]) || Digit(s[0])) && forall k :: 1 <= k < |s| ==> Digit(s[k])
  {
    NumberRun(es, t, i, j);
  }

  /** Inside a number only its end, or a comma, keeps a string acceptable, and not after a lone sign. */
  lemma NumberStops(s: seq<byte>, es: seq<Entry>, t: seq<byte>, j: nat)
    requires 0 < |s| < BUF && |es| <= PARAMS && j <= |t| && (j < |t| ==> !Digit(t[j]))
    requires (Sign(s[0]) || Digit(s[0])) && forall k :: 1 <= k < |s| ==> Digit(s[k])
    requires Accepts(At(InNumber, s, es), t, j)
    ensures GoodNumber(s) && (Ends(CharAt(t, j)) || CharAt(t, j) == COMMA)
  {
  }

  lemma TextLeads(es: seq<Entry>, t: seq<byte>, i: nat) returns (x: Item, j: nat)
    requires i < |t| && |es| <= PARAMS && t[i] == QUOTE && Accepts(At(Ready, [], es), t, i)
    ensures Leads(x, es, t, i, j)
  {
    var q := CharsEnd(t, i + 1);
    TextCloses(es, t, i, q);
    var s := t[i + 1..q];
    x, j := Text(s), q + 1;
    QuotedPrint(t, i, q);
    assert GoodText(s);
    TextThen(es, t, i, q, x);
  }

  lemma TextThen(es: seq<Entry>, t: seq<byte>, i: nat, q: nat, x: Item)
    requires i < q < |t| && |es| <= PARAMS && t[i] == QUOTE && t[q] == QUOTE && Accepts(At(Ready, [], es), t, i)
    requires x == Text(t[i + 1..q]) && GoodText(t[i + 1..q])
    ensures |es| < PARAMS
    ensures Ends(CharAt(t, q + 1)) ||
            (q + 1 < |t| && t[q + 1] == COMMA && Accepts(At(Ready, [], es + [EntryOf(x)]), t, q + 2))
  {
    TextAccepted(es, t, i, q, x);
    AfterTextStops(es + [EntryOf(x)], t, q + 1);
  }

  lemma TextAccepted(es: seq<Entry>, t: seq<byte>, i: nat, q: nat, x: Item)
    requires i < q < |t| && |es| <= PARAMS && t[i] == QUOTE && t[q] == QUOTE && Accepts(At(Ready, [], es), t, i)
    requires x == Text(t[i + 1..q]) && GoodText(t[i + 1..q])
    ensures |es| < PARAMS && Accepts(At(AfterText, [], es + [EntryOf(x)]), t, q + 1)
  {
    TextRun(es, t, i, q);
    assert Room(At(AfterText, [], es + [EntryOf(x)]));
  }

  /** A string that is accepted has a closing quote after its characters. */
  lemma TextCloses(es: seq<Entry>, t: seq<byte>, i: nat, q: nat)
    requires i < |t| && |es| <= PARAMS && t[i] == QUOTE && Accepts(At(Ready, [], es), t, i)
    requires q == CharsEnd(t, i + 1)
    ensures q < |t| && t[q] == QUOTE && q - i - 1 < BUF
  {
    OpenedRun(es, t, i, q);
    assert Accepts(At(InText, t[i + 1..q], es), t, q);
  }

  lemma AfterTextStops(es: seq<Entry>, t: seq<byte>, j: nat)
    requires j <= |t| && Accepts(At(AfterText, [], es), t, j)
    ensures |es| <= PARAMS
    ensures Ends(CharAt(t, j)) || (j < |t| && t[j] == COMMA && Accepts(At(Ready, [], es), t, j + 1))
  {
  }

  lemma FieldLeads(es: seq<Entry>, t: seq<byte>, i: nat) returns (x: Item, j: nat)
    requires i <= |t| && |es| <= PARAMS && Accepts(At(Ready, [], es), t, i)
    ensures Leads(x, es, t, i, j)
  {
    var c := CharAt(t, i);
    if Sign(c) || Digit(c) {
      x, j := NumberLeads(es, t, i);
    } else if c == QUOTE {
      x, j := TextLeads(es, t, i);
    } else {
      BlankLeads(es, t, i);
      x, j := Blank, i;
    }
  }

  lemma BlankLeads(es: seq<Entry>, t: seq<byte>, i: nat)
    requires i <= |t| && |es| <= PARAMS && Accepts(At(Ready, [], es), t, i)
    requires var c := CharAt(t, i); !Sign(c) && !Digit(c) && c != QUOTE
    ensures Leads(Blank, es, t, i, i)
  {
    assert t[i..i] == [];
    if CharAt(t, i) == COMMA {
      assert Accepts(At(Ready, [], es + [NO_ENTRY]), t, i + 1);
    }
  }

  /** Every string accepted from the ready state on is a comma-joined list of good fields. */
  lemma {:induction false} ItemsFound(es: seq<Entry>, t: seq<byte>, i: nat) returns (items: seq<Item>, e: nat)
    requires i <= |t| && |es| <= PARAMS && Accepts(At(Ready, [], es), t, i)
    ensures Lists(items, t, i, e)
    decreases |t| - i
  {
    var x, j := FieldLeads(es, t, i);
    if Ends(CharAt(t, j)) {
      items, e := [x], j;
    } else {
      var rest;
      rest, e := ItemsFound(es + [EntryOf(x)], t, j + 1);
      items := [x] + rest;
      JoinCons(x, rest, t, i, j, e);
    }
  }

  lemma JoinCons(x: Item, rest: seq<Item>, t: seq<byte>, i: nat, j: nat, e: nat)
    requires rest != [] && i <= j < e <= |t|
    requires t[i..j] == Print(x) && t[j] == COMMA && t[j + 1..e] == Join(rest)
    ensures t[i..e] == Join([x] + rest)
  {
    assert ([x] + rest)[1..] == rest;
    ThreeParts(t, i, j, e);
  }

  lemma ThreeParts(t: seq<byte>, i: nat, j: nat, e: nat)
    requires i <= j < e <= |t|
    ensures t[i..e] == t[i..j] + [t[j]] + t[j + 1..e]
  {
  }

  // ---------------------------------------------------------------- the recogniser

  ghost predicate IsPrefix(t: seq<byte>, n: nat)
  {
    n <= |t| && forall k :: 0 <= k < n ==> t[k] != 32 && t[k] != 0
  }

  /** A response: a prefix without a space, a space, fields joined with commas, and the end of the
      string or of the line. */
  ghost predicate IsResponse(t: seq<byte>, n: nat, e: nat, items: seq<Item>)
  {
    IsPrefix(t, n) && n < |t| && t[n] == 32 && Lists(items, t, n + 1, e)
  }

  ghost predicate HasFields(t: seq<byte>)
  {
    exists n, e, items :: IsResponse(t, n, e, items)
  }

  /** Up to the first space everything is skipped. */
  lemma {:induction false} PrefixSkipped(t: seq<byte>, i: nat, n: nat)
    requires i <= n < |t| && t[n] == SPACE && forall k :: i <= k < n ==> t[k] != SPACE && t[k] != 0
    ensures Fits(At(Ignore, [], []), t, i) <==> Fits(At(Ready, [], []), t, n + 1)
    ensures Fits(At(Ignore, [], []), t, i) ==>
              Parse(At(Ignore, [], []), t, i) == Parse(At(Ready, [], []), t, n + 1)
    decreases n - i
  {
    if i < n {
      PrefixSkipped(t, i + 1, n);
    }
  }

  /** A string without a space is accepted, with nothing in it. */
  lemma {:induction false} NoSpaceAccepted(t: seq<byte>, i: nat)
    requires i <= |t| && forall k :: i <= k < |t| ==> t[k] != SPACE && t[k] != 0
    ensures Fits(At(Ignore, [], []), t, i) && Parse(At(Ignore, [], []), t, i) == Stopped(0, At(Ignore, [], []))
    decreases |t| - i
  {
    if i < |t| {
      NoSpaceAccepted(t, i + 1);
    }
  }

  function SpaceFrom(t: seq<byte>, i: nat): (n: nat)
    requires i <= |t|
    ensures i <= n <= |t| && (forall k :: i <= k < n ==> t[k] != SPACE) && (n < |t| ==> t[n] == SPACE)
    decreases |t| - i
  {
    if i < |t| && t[i] != SPACE then SpaceFrom(t, i + 1) else i
  }

  ghost predicate IsText(t: seq<byte>)
  {
    forall k :: 0 <= k < |t| ==> t[k] != 0
  }

  lemma StartIsClean()
    ensures Start(Zeros(BUF)) == At(Ignore, [], [])
  {
  }

  /** Within capacity, and from a clean buffer, the parser accepts exactly the strings that have no
      space at all and the responses of the grammar. */
  lemma AcceptsIffResponse(t: seq<byte>)
    requires IsText(t) && Fits(Start(Zeros(BUF)), t, 0)
    ensures Parse(Start(Zeros(BUF)), t, 0).code == 0 <==> IsPrefix(t, |t|) || HasFields(t)
  {
    StartIsClean();
    var n := SpaceFrom(t, 0);
    if n < |t| {
      PrefixSkipped(t, 0, n);
      AfterSpace(t, n);
      NoOtherSpace(t, n);
    } else {
      NoSpaceAccepted(t, 0);
      NoResponseWithoutSpace(t);
    }
  }

  lemma NoResponseWithoutSpace(t: seq<byte>)
    requires IsPrefix(t, |t|)
    ensures !HasFields(t)
  {
  }

  lemma AfterSpace(t: seq<byte>, n: nat)
    requires IsPrefix(t, n) && n < |t| && t[n] == SPACE && Fits(At(Ready, [], []), t, n + 1)
    ensures Parse(At(Ready, [], []), t, n + 1).code == 0 <==> exists e, items :: IsResponse(t, n, e, items)
  {
    if Parse(At(Ready, [], []), t, n + 1).code == 0 {
      var items, e := ItemsFound([], t, n + 1);
      assert IsResponse(t, n, e, items);
    }
    if e, items :| IsResponse(t, n, e, items) {
      ItemsRun(items, [], t, n + 1, e);
    }
  }

  lemma NoOtherSpace(t: seq<byte>, n: nat)
    requires IsPrefix(t, n) && n < |t| && t[n] == SPACE
    ensures HasFields(t) <==> exists e, items :: IsResponse(t, n, e, items)
  {
  }

  /** From a clean buffer the string fits, is accepted with these entries, and leaves the buffer clean. */
  ghost predicate ParsedAs(t: seq<byte>, es: seq<Entry>)
  {
    && Fits(Start(Zeros(BUF)), t, 0)
    && var r := Parse(Start(Zeros(BUF)), t, 0); r.code == 0 && r.m.entries == es && r.m.buf == Zeros(BUF)
  }

  /** Capacity, for a response: at most 42 fields and at most 128 characters in each. A response within
      capacity is accepted, its fields are filed in order, less a trailing empty one, and the buffer is
      left clean. */
  lemma ResponseIsFiled(t: seq<byte>, n: nat, e: nat, items: seq<Item>)
    requires IsResponse(t, n, e, items)
    ensures Fits(Start(Zeros(BUF)), t, 0) <==> Narrow(items) && |Trim(items)| <= 42
    ensures Fits(Start(Zeros(BUF)), t, 0) ==> ParsedAs(t, Entries(Trim(items)))
  {
    StartIsClean();
    PrefixSkipped(t, 0, n);
    FieldsFiled(items, t, n + 1, e);
  }

  lemma FieldsFiled(items: seq<Item>, t: seq<byte>, i: nat, e: nat)
    requires Lists(items, t, i, e)
    ensures Filed([], t, i, Narrow(items) && |Trim(items)| <= PARAMS, Entries(Trim(items)))
  {
    ItemsRun(items, [], t, i, e);
    assert [] + Entries(Trim(items)) == Entries(Trim(items));
  }

  // ---------------------------------------------------------------- printing values

  /** `Plus` is a number written with its sign. */
  datatype Value = Empty | Int(n: int) | Plus(m: nat) | Str(s: seq<byte>)

  function Decimal(n: nat): (s: seq<byte>)
    ensures |s| > 0 && forall k :: 0 <= k < |s| ==> Digit(s[k])
  {
    if n < 10 then [(48 + n) as byte] else Decimal(n / 10) + [(48 + n % 10) as byte]
  }

  function ItemOf(v: Value): (x: Item)
  {
    match v
    case Empty => Blank
    case Int(n) => Number(if n < 0 then [45] + Decimal(-n) else Decimal(n))
    case Plus(m) => Number([43] + Decimal(m))
    case Str(s) => Text(s)
  }

  lemma {:induction false} DigitsOfPrefix(a: seq<byte>, c: byte, i: nat, acc: nat)
    requires i <= |a| && Digit(c) && forall k :: 0 <= k < |a| ==> Digit(a[k])
    ensures Digits(a + [c], i, acc) == 10 * Digits(a, i, acc) + DigitValue(c)
    decreases |a| - i
  {
    if i < |a| {
      DigitsOfPrefix(a, c, i + 1, 10 * acc + DigitValue(a[i]));
    } else {
      assert Digits(a + [c], i + 1, 10 * acc + DigitValue(c)) == 10 * acc + DigitValue(c);
    }
  }

  lemma {:induction false} DigitsOfDecimal(n: nat)
    ensures Digits(Decimal(n), 0, 0) == n
  {
    if n >= 10 {
      DigitsOfDecimal(n / 10);
      DigitsOfPrefix(Decimal(n / 10), (48 + n % 10) as byte, 0, 0);
    } else {
      assert Digits(Decimal(n), 1, n) == n;
    }
  }

  lemma {:induction false} DigitsAfterSign(c: byte, s: seq<byte>, i: nat, acc: nat)
    requires i <= |s|
    ensures Digits([c] + s, i + 1, acc) == Digits(s, i, acc)
    decreases |s| - i
  {
    if i < |s| && Digit(s[i]) {
      DigitsAfterSign(c, s, i + 1, 10 * acc + DigitValue(s[i]));
    }
  }

  lemma AtoiOfPlus(m: nat)
    ensures ItemOf(Plus(m)).Number? && GoodNumber(ItemOf(Plus(m)).text) && Atoi(ItemOf(Plus(m)).text) == m
  {
    DigitsAfterSign(43, Decimal(m), 0, 0);
    DigitsOfDecimal(m);
  }

  /** What a run of digits is worth, the last one counting once. */
  function Worth(s: seq<byte>): (n: int)
  {
    if s == [] then 0 else 10 * Worth(s[..|s| - 1]) + (s[|s| - 1] as int - 48)
  }

  lemma {:induction false} DigitsAreWorth(s: seq<byte>)
    requires forall k :: 0 <= k < |s| ==> Digit(s[k])
    ensures Digits(s, 0, 0) == Worth(s)
  {
    if s != [] {
      var last := |s| - 1;
      DigitsAreWorth(s[..last]);
      DigitsOfPrefix(s[..last], s[last], 0, 0);
      assert s == s[..last] + [s[last]];
    }
  }

  /** What a number is filed as: what its digits are worth, less than 0 after a minus. */
  lemma AtoiIsWorth(s: seq<byte>)
    requires GoodNumber(s)
    ensures Atoi(s) == if s[0] == 45 then -Worth(s[1..]) else if s[0] == 43 then Worth(s[1..]) else Worth(s)
  {
    if s[0] == 45 || s[0] == 43 {
      assert s == [s[0]] + s[1..];
      DigitsAfterSign(s[0], s[1..], 0, 0);
      DigitsAreWorth(s[1..]);
    } else {
      DigitsAreWorth(s);
    }
  }

  /** `atoi` reads back the integer that was printed. */
  lemma AtoiOfPrinted(n: int)
    ensures ItemOf(Int(n)).Number? && GoodNumber(ItemOf(Int(n)).text) && Atoi(ItemOf(Int(n)).text) == n
  {
    if n < 0 {
      DigitsAfterSign(MINUS, Decimal(-n), 0, 0);
      DigitsOfDecimal(-n);
    } else {
      DigitsOfDecimal(n);
    }
  }

  function Items(vs: seq<Value>): (items: seq<Item>)
    ensures |items| == |vs| && forall k :: 0 <= k < |vs| ==> items[k] == ItemOf(vs[k])
  {
    seq(|vs|, k requires 0 <= k < |vs| => ItemOf(vs[k]))
  }

  /** The entry the caller should find for a value: its type, and its number, or its characters, their
      count, and zeros after them. */
  ghost predicate Denotes(e: Entry, v: Value)
  {
    match v
    case Empty => e.kind == 0
    case Int(n) => e.kind == 1 && e.value == n
    case Plus(m) => e.kind == 1 && e.value == m
    case Str(s) =>
      && e.kind == 2 && e.len == |s| && |e.str| == 129 && |s| < 129 && e.str[..|s|] == s
      && forall k :: |s| <= k < 129 ==> e.str[k] == 0
  }

  ghost predicate PrintableValue(v: Value)
  {
    v.Str? ==> GoodText(v.s)
  }

  ghost predicate FitToPrint(vs: seq<Value>)
  {
    && vs != [] && vs[|vs| - 1] != Empty && |vs| <= 42
    && forall k :: 0 <= k < |vs| ==> PrintableValue(vs[k]) && Width(ItemOf(vs[k])) <= 128
  }

  ghost predicate AllDenote(es: seq<Entry>, vs: seq<Value>)
  {
    |es| == |vs| && forall k :: 0 <= k < |vs| ==> Denotes(es[k], vs[k])
  }

  /** Round trip: parsing what was printed gives back every value, in order, with its type. */
  lemma ParsePrinted(prefix: seq<byte>, vs: seq<Value>) returns (es: seq<Entry>)
    requires FitToPrint(vs) && IsPrefix(prefix, |prefix|)
    ensures ParsedAs(prefix + [32] + Join(Items(vs)), es) && AllDenote(es, vs)
  {
    es := ParsePrintedLine(prefix, vs, []);
    var t := prefix + [32] + Join(Items(vs));
    assert t + [] == t;
  }

  /** So does parsing a line, which ends in CR or LF, whatever comes after it. */
  lemma ParsePrintedLine(prefix: seq<byte>, vs: seq<Value>, tail: seq<byte>) returns (es: seq<Entry>)
    requires FitToPrint(vs) && IsPrefix(prefix, |prefix|) && (tail == [] || tail[0] == 13 || tail[0] == 10)
    ensures ParsedAs(prefix + [32] + Join(Items(vs)) + tail, es) && AllDenote(es, vs)
  {
    var items := Items(vs);
    es := Entries(items);
    forall k | 0 <= k < |vs| ensures Good(items[k]) && Denotes(EntryOf(items[k]), vs[k]) {
      ValueFiled(vs[k]);
    }
    EachGood(items);
    assert Trim(items) == items;
    PrintedFiled(prefix, items, tail);
  }

  lemma {:induction false} EachGood(items: seq<Item>)
    requires forall k :: 0 <= k < |items| ==> Good(items[k])
    ensures AllGood(items)
  {
    if items != [] {
      EachGood(items[1..]);
    }
  }

  lemma PrintedFiled(prefix: seq<byte>, items: seq<Item>, tail: seq<byte>)
    requires items != [] && AllGood(items) && IsPrefix(prefix, |prefix|) && Narrow(items) && |Trim(items)| <= 42
    requires tail == [] || tail[0] == 13 || tail[0] == 10
    ensures ParsedAs(prefix + [32] + Join(items) + tail, Entries(Trim(items)))
  {
    var t := prefix + [32] + Join(items) + tail;
    PrintedIsResponse(prefix, items, tail);
    ResponseIsFiled(t, |prefix|, |t| - |tail|, items);
  }

  lemma PrintedIsResponse(prefix: seq<byte>, items: seq<Item>, tail: seq<byte>)
    requires items != [] && AllGood(items) && IsPrefix(prefix, |prefix|)
    requires tail == [] || tail[0] == 13 || tail[0] == 10
    ensures var t := prefix + [32] + Join(items) + tail; IsResponse(t, |prefix|, |t| - |tail|, items)
  {
    var t := prefix + [32] + Join(items) + tail;
    assert t[|prefix| + 1..|t| - |tail|] == Join(items);
    assert tail != [] ==> t[|t| - |tail|] == tail[0];
  }

  lemma ValueFiled(v: Value)
    requires PrintableValue(v)
    ensures Good(ItemOf(v)) && (Width(ItemOf(v)) <= 128 ==> Denotes(EntryOf(ItemOf(v)), v))
  {
    if v.Int? {
      AtoiOfPrinted(v.n);
    } else if v.Plus? {
      AtoiOfPlus(v.m);
    }
  }
}
