/** What a parse leaves in the token buffer, and what the next parse makes of it. */
module AtBuffer {
  import opened Bytes
  import opened AtParser
  import opened AtGrammar
  import opened AtTheorems

  // ---------------------------------------------------------------- which texts leave the buffer dirty

  /** At `j` the text has a token that breaks off: a number, or a sign alone, that no comma or end
      follows, or an opening quote and characters after it without a closing one. */
  predicate BreaksAt(t: seq<byte>, j: nat)
    requires j <= |t|
  {
    var c := CharAt(t, j);
    if Sign(c) || Digit(c) then
      var e := DigitsEnd(t, j + 1);
      (CharAt(t, e) != 44 && !Ends(CharAt(t, e))) || (Sign(c) && e == j + 1)
    else
      c == 34 && var q := CharsEnd(t, j + 1); j + 1 < q && CharAt(t, q) != 34
  }

  /** What there is of that token. */
  function LeftAt(t: seq<byte>, j: nat): (tok: seq<byte>)
    requires j < |t|
  {
    if t[j] == 34 then t[j + 1..CharsEnd(t, j + 1)] else t[j..DigitsEnd(t, j + 1)]
  }

  /** From `i` to `j` the text is these fields, with a comma after each. */
  ghost predicate ClosedUp(items: seq<Item>, t: seq<byte>, i: nat, j: nat)
  {
    && i <= j <= |t|
    && if items == [] then i == j
    else
      var k := i + Length(items[0]);
      Closes(items[0], t, i, k) && ClosedUp(items[1..], t, k + 1, j)
  }

  /** A prefix, a space, closed fields, and then a token that breaks off. */
  ghost predicate Broken(t: seq<byte>, n: nat, items: seq<Item>, j: nat)
  {
    && IsPrefix(t, n) && n < j < |t| && t[n] == 32
    && ClosedUp(items, t, n + 1, j) && BreaksAt(t, j)
  }

  ghost predicate BreaksInToken(t: seq<byte>)
  {
    exists n, items, j :: Broken(t, n, items, j)
  }

  /** A parse that fails and leaves the token `tok`, which is not empty, in the buffer. */
  ghost predicate Leaves(r: Result, tok: seq<byte>)
  {
    r.Stopped? && r.code != 0 && 0 < |tok| < BUF && tok[0] != 0 && r.m.buf == Clean(tok)
  }

  lemma NumberBreaks(es: seq<Entry>, t: seq<byte>, j: nat)
    requires j < |t| && |es| <= PARAMS && BreaksAt(t, j) && t[j] != QUOTE && Fits(At(Ready, [], es), t, j)
    ensures Leaves(Parse(At(Ready, [], es), t, j), LeftAt(t, j))
  {
    var e := DigitsEnd(t, j + 1);
    var s := LeftAt(t, j);
    NumberRun(es, t, j, e);
    assert forall k :: 0 <= k < |s| ==> s[k] == t[j + k];
    FileClean(s, es);
  }

  lemma TextBreaks(es: seq<Entry>, t: seq<byte>, j: nat)
    requires j < |t| && |es| <= PARAMS && BreaksAt(t, j) && t[j] == QUOTE && Fits(At(Ready, [], es), t, j)
    ensures Leaves(Parse(At(Ready, [], es), t, j), LeftAt(t, j))
  {
    var q := CharsEnd(t, j + 1);
    var s := LeftAt(t, j);
    assert s[0] == t[j + 1];
    OpenedRun(es, t, j, q);
    TextStops(s, es, t, q);
  }

  lemma TextStops(s: seq<byte>, es: seq<Entry>, t: seq<byte>, q: nat)
    requires |s| < BUF && q <= |t| && Fits(At(InText, s, es), t, q) && !IsPrintable(CharAt(t, q))
    ensures Parse(At(InText, s, es), t, q) == Stopped(-2001, At(InText, s, es))
  {
  }

  lemma BreaksHere(es: seq<Entry>, t: seq<byte>, j: nat)
    requires j < |t| && |es| <= PARAMS && BreaksAt(t, j) && Fits(At(Ready, [], es), t, j)
    ensures Leaves(Parse(At(Ready, [], es), t, j), LeftAt(t, j))
  {
    if t[j] == QUOTE {
      TextBreaks(es, t, j);
    } else {
      NumberBreaks(es, t, j);
    }
  }

  ghost predicate CanGo(es: seq<Entry>, t: seq<byte>, i: nat)
  {
    i <= |t| && |es| <= PARAMS && Fits(At(Ready, [], es), t, i)
  }

  /** The machine, ready at `i`, comes to be ready at `j`. */
  ghost predicate GoesOn(es: seq<Entry>, t: seq<byte>, i: nat, es': seq<Entry>, j: nat)
  {
    && CanGo(es, t, i) && CanGo(es', t, j)
    && Parse(At(Ready, [], es), t, i) == Parse(At(Ready, [], es'), t, j)
  }

  lemma FieldGoesOn(x: Item, es: seq<Entry>, t: seq<byte>, i: nat, k: nat)
    requires Closes(x, t, i, k) && CanGo(es, t, i)
    ensures GoesOn(es, t, i, es + [EntryOf(x)], k + 1) && CanGo(es + [EntryOf(x)], t, k + 1)
  {
    FieldThenComma(x, es, t, i, k);
  }

  lemma GoesFurther(es: seq<Entry>, t: seq<byte>, i: nat, es': seq<Entry>, j: nat, es'': seq<Entry>, k: nat)
    requires GoesOn(es, t, i, es', j) && GoesOn(es', t, j, es'', k)
    ensures GoesOn(es, t, i, es'', k)
  {
  }

  /** Closed fields are filed one by one. */
  lemma {:induction false} FieldsGoOn(items: seq<Item>, es: seq<Entry>, t: seq<byte>, i: nat, j: nat)
    returns (es': seq<Entry>)
    requires ClosedUp(items, t, i, j) && CanGo(es, t, i)
    ensures GoesOn(es, t, i, es', j)
    decreases |items|
  {
    if items == [] {
      es' := es;
    } else {
      var es1, k := FirstGoesOn(items, es, t, i, j);
      es' := FieldsGoOn(items[1..], es1, t, k, j);
      GoesFurther(es, t, i, es1, k, es', j);
    }
  }

  lemma FirstGoesOn(items: seq<Item>, es: seq<Entry>, t: seq<byte>, i: nat, j: nat)
    returns (es': seq<Entry>, k: nat)
    requires items != [] && ClosedUp(items, t, i, j) && CanGo(es, t, i)
    ensures GoesOn(es, t, i, es', k) && CanGo(es', t, k) && ClosedUp(items[1..], t, k, j)
  {
    var comma := i + Length(items[0]);
    FieldGoesOn(items[0], es, t, i, comma);
    es', k := es + [EntryOf(items[0])], comma + 1;
  }

  // ---------------------------------------------------------------- and only those

  /** From the ready state at `i` on the parse ends with a dirty buffer. */
  ghost predicate Dirties(es: seq<Entry>, t: seq<byte>, i: nat)
    requires i <= |t|
  {
    Fits(At(Ready, [], es), t, i) && Parse(At(Ready, [], es), t, i).m.buf != Zeros(BUF)
  }

  /** The field at `i`, if it does not break off itself, is closed with a comma. */
  lemma FieldCloses(es: seq<Entry>, t: seq<byte>, i: nat) returns (x: Item, k: nat)
    requires i <= |t| && Dirties(es, t, i) && !BreaksAt(t, i)
    ensures Closes(x, t, i, k)
  {
    var c := CharAt(t, i);
    if Sign(c) || Digit(c) {
      k := DigitsEnd(t, i + 1);
      x := Number(t[i..k]);
      NumberCloses(es, t, i, k);
    } else if c == QUOTE {
      var q := CharsEnd(t, i + 1);
      x, k := Text(t[i + 1..q]), q + 1;
      TextCloses(es, t, i, q);
    } else {
      x, k := Blank, i;
      BlankCloses(es, t, i);
    }
  }

  lemma BlankCloses(es: seq<Entry>, t: seq<byte>, i: nat)
    requires i <= |t| && Dirties(es, t, i)
    requires var c := CharAt(t, i); !Sign(c) && !Digit(c) && c != QUOTE
    ensures Closes(Blank, t, i, i)
  {
    NothingIsClean();
    assert i < |t| && t[i] == COMMA && t[i..i] == [];
  }

  lemma TextCloses(es: seq<Entry>, t: seq<byte>, i: nat, q: nat)
    requires i < |t| && Dirties(es, t, i) && !BreaksAt(t, i) && t[i] == QUOTE && q == CharsEnd(t, i + 1)
    ensures Closes(Text(t[i + 1..q]), t, i, q + 1)
  {
    QuoteCloses(es, t, i, q);
  }

  lemma NumberCloses(es: seq<Entry>, t: seq<byte>, i: nat, k: nat)
    requires i < |t| && Dirties(es, t, i) && !BreaksAt(t, i) && (Sign(t[i]) || Digit(t[i]))
    requires k == DigitsEnd(t, i + 1)
    ensures Closes(Number(t[i..k]), t, i, k)
  {
    var s := t[i..k];
    assert forall m :: 0 <= m < |s| ==> s[m] == t[i + m];
    if Ends(CharAt(t, k)) {
      NumberThenEnd(es, t, i, k);
    }
  }

  lemma QuoteCloses(es: seq<Entry>, t: seq<byte>, i: nat, q: nat)
    requires i < |t| && Dirties(es, t, i) && !BreaksAt(t, i) && t[i] == QUOTE && q == CharsEnd(t, i + 1)
    ensures q + 1 < |t| && t[q] == QUOTE && t[q + 1] == COMMA
  {
    if q < |t| && t[q] == QUOTE {
      var s := t[i + 1..q];
      assert GoodText(s);
      TextRun(es, t, i, q);
      AfterTextClean(es + [EntryOf(Text(s))], t, q + 1);
    } else {
      NothingQuoted(es, t, i);
    }
  }

  lemma AfterTextClean(es: seq<Entry>, t: seq<byte>, j: nat)
    requires j <= |t| && Fits(At(AfterText, [], es), t, j)
    ensures CharAt(t, j) != COMMA ==> Parse(At(AfterText, [], es), t, j).m.buf == Zeros(BUF)
  {
    NothingIsClean();
  }

  lemma NothingQuoted(es: seq<Entry>, t: seq<byte>, i: nat)
    requires i < |t| && t[i] == QUOTE && Fits(At(Ready, [], es), t, i) && !IsPrintable(CharAt(t, i + 1))
    ensures Parse(At(Ready, [], es), t, i).m.buf == Zeros(BUF)
  {
    NothingIsClean();
    assert Parse(At(InText, [], es), t, i + 1) == Stopped(-2001, At(InText, [], es));
  }

  /** A parse that leaves the buffer dirty comes to a token that breaks off. */
  lemma {:induction false} BreakFound(es: seq<Entry>, t: seq<byte>, i: nat) returns (items: seq<Item>, j: nat)
    requires i <= |t| && Dirties(es, t, i)
    ensures ClosedUp(items, t, i, j) && j < |t| && BreaksAt(t, j)
    decreases |t| - i
  {
    if BreaksAt(t, i) {
      items, j := [], i;
    } else {
      var x, k := FieldCloses(es, t, i);
      FieldGoesOn(x, es, t, i, k);
      var rest;
      rest, j := BreakFound(es + [EntryOf(x)], t, k + 1);
      items := [x] + rest;
      ClosedCons(x, rest, t, i, k, j);
    }
  }

  lemma ClosedCons(x: Item, rest: seq<Item>, t: seq<byte>, i: nat, k: nat, j: nat)
    requires Closes(x, t, i, k) && ClosedUp(rest, t, k + 1, j)
    ensures ClosedUp([x] + rest, t, i, j)
  {
    assert ([x] + rest)[1..] == rest;
  }

  lemma BrokenLeaves(t: seq<byte>, n: nat, items: seq<Item>, j: nat)
    requires Broken(t, n, items, j) && Fits(Start(Zeros(BUF)), t, 0)
    ensures Leaves(Parse(Start(Zeros(BUF)), t, 0), LeftAt(t, j))
  {
    StartIsClean();
    PrefixSkipped(t, 0, n);
    var es := FieldsGoOn(items, [], t, n + 1, j);
    BreaksHere(es, t, j);
  }

  lemma CleanIsZeros(tok: seq<byte>)
    requires 0 < |tok| < BUF && tok[0] != 0
    ensures Clean(tok) != Zeros(BUF)
  {
    assert Clean(tok)[0] == tok[0];
  }

  /** Up to the first space, or a zero byte before it, nothing is written. */
  lemma {:induction false} PrefixClean(t: seq<byte>, i: nat)
    requires i <= |t| && Fits(At(Ignore, [], []), t, i) && IsPrefix(t, i)
    requires Parse(At(Ignore, [], []), t, i).m.buf != Zeros(BUF)
    ensures exists n: nat :: IsPrefix(t, n) && n < |t| && t[n] == SPACE
    decreases |t| - i
  {
    NothingIsClean();
    if i < |t| && t[i] != SPACE && t[i] != 0 {
      PrefixClean(t, i + 1);
    }
  }

  /** A parse that finds the buffer clean leaves it clean unless the text breaks off inside a token;
      then it fails, and the token stays behind. */
  lemma ParseLeavesCleanIff(t: seq<byte>)
    requires Fits(Start(Zeros(BUF)), t, 0)
    ensures var r := Parse(Start(Zeros(BUF)), t, 0);
            && (r.m.buf == Zeros(BUF) <==> !BreaksInToken(t)) && (r.code == 0 ==> r.m.buf == Zeros(BUF))
            && forall n, items, j :: Broken(t, n, items, j) ==> Leaves(r, LeftAt(t, j))
  {
    var r := Parse(Start(Zeros(BUF)), t, 0);
    forall n, items, j | Broken(t, n, items, j) ensures Leaves(r, LeftAt(t, j)) && r.m.buf != Zeros(BUF) {
      BrokenLeaves(t, n, items, j);
      CleanIsZeros(LeftAt(t, j));
    }
    if r.m.buf != Zeros(BUF) {
      StartIsClean();
      PrefixClean(t, 0);
      var n: nat :| IsPrefix(t, n) && n < |t| && t[n] == SPACE;
      PrefixSkipped(t, 0, n);
      var items, j := BreakFound([], t, n + 1);
      assert Broken(t, n, items, j);
    }
  }

  // ---------------------------------------------------------------- sequences of parses

  /** One parse after the other, each with the buffer the one before left. */
  ghost predicate AllSucceed(buf: seq<byte>, ts: seq<seq<byte>>)
    decreases |ts|
  {
    ts == [] ||
    (&& Fits(Start(buf), ts[0], 0)
     && var r := Parse(Start(buf), ts[0], 0); r.code == 0 && AllSucceed(r.m.buf, ts[1..]))
  }

  /** The buffer the `k`-th of them finds. */
  ghost function BufferBefore(buf: seq<byte>, ts: seq<seq<byte>>, k: nat): (b: seq<byte>)
    requires AllSucceed(buf, ts) && k < |ts|
    decreases |ts|
  {
    if k == 0 then buf else BufferBefore(Parse(Start(buf), ts[0], 0).m.buf, ts[1..], k - 1)
  }

  /** Each parse in a sequence of successful ones starts from a clean buffer, so its result, entries
      and all, is the same as if it were the first. */
  lemma {:induction false} SuccessesAreIndependent(ts: seq<seq<byte>>, k: nat)
    requires AllSucceed(Zeros(BUF), ts) && k < |ts|
    ensures BufferBefore(Zeros(BUF), ts, k) == Zeros(BUF)
    ensures var b := BufferBefore(Zeros(BUF), ts, k);
            && Fits(Start(b), ts[k], 0) && Fits(Start(Zeros(BUF)), ts[k], 0)
            && Parse(Start(b), ts[k], 0) == Parse(Start(Zeros(BUF)), ts[k], 0)
            && Parse(Start(b), ts[k], 0).code == 0
    decreases |ts|
  {
    ParseLeavesCleanIff(ts[0]);
    if k > 0 {
      SuccessesAreIndependent(ts[1..], k - 1);
    }
  }

  // ---------------------------------------------------------------- a buffer that was not cleaned

  /** Digits left behind by a failed parse become part of the next number: the new digit replaces
      the first of them, and the rest are read along with it. */
  lemma StaleDigitsAreRead(tok: seq<byte>, c: byte)
    requires 2 <= |tok| < BUF && Digit(c) && forall k :: 0 <= k < |tok| ==> Digit(tok[k])
    ensures var t := [SPACE, c];
            && Fits(Start(Clean(tok)), t, 0)
            && var r := Parse(Start(Clean(tok)), t, 0);
               r.code == 0 && r.m.entries == [EntryOf(Number([c] + tok[1..]))]
  {
    var t, s := [SPACE, c], [c] + tok[1..];
    assert Clean(tok)[0 := c] == Clean(s);
    var m := Machine(InNumber, 1, Clean(s), []);
    FileClean(s, []);
    assert [] + [EntryOf(Number(s))] == [EntryOf(Number(s))];
    assert Parse(m, t, 2) == Stopped(0, File(m, NumberEntry(Clean(s)), Ready));
    assert Parse(Machine(Ready, 0, Clean(tok), []), t, 1) == Parse(m, t, 2);
  }

  /** The text ` 12x` breaks off inside a number and leaves `12` in the buffer. */
  lemma TwelveStays()
    ensures var t := [SPACE, 49, 50, 120];
            && Fits(Start(Zeros(BUF)), t, 0)
            && var r := Parse(Start(Zeros(BUF)), t, 0); r.code == -1004 && r.m.buf == Clean([49, 50])
  {
    var t := [SPACE, 49, 50, 120];
    StartIsClean();
    PushClean(Ready, [], [], 49, InNumber);
    PushClean(InNumber, [49], [], 50, InNumber);
    assert [] + [49] == [49] && [49] + [50] == [49, 50];
    var m1, m2 := At(InNumber, [49], []), At(InNumber, [49, 50], []);
    assert Fits(m2, t, 3) && Parse(m2, t, 3) == Stopped(-1004, m2);
    assert Fits(m1, t, 2) && Parse(m1, t, 2) == Parse(m2, t, 3);
    var m0 := At(Ready, [], []);
    assert Fits(m0, t, 1) && Parse(m0, t, 1) == Parse(m1, t, 2);
  }

  /** Two parses in a row: ` 12x`, which fails, and then ` 7`, which is read as 72. */
  lemma SevenReadAsSeventyTwo()
    ensures Fits(Start(Zeros(BUF)), [SPACE, 49, 50, 120], 0) && Fits(Start(Zeros(BUF)), [SPACE, 55], 0)
    ensures Parse(Start(Zeros(BUF)), [SPACE, 55], 0).m.entries == [Entry(1, 7, Zeros(BUF), 0)]
    ensures var left := Parse(Start(Zeros(BUF)), [SPACE, 49, 50, 120], 0).m.buf;
            && Fits(Start(left), [SPACE, 55], 0)
            && Parse(Start(left), [SPACE, 55], 0).m.entries == [Entry(1, 72, Zeros(BUF), 0)]
  {
    TwelveStays();
    StaleDigitsAreRead([49, 50], 55);
    assert [55] + [49, 50][1..] == [55, 50];
    assert Digits([55, 50], 2, 72) == 72 && Digits([55, 50], 1, 7) == 72;
    SevenAlone();
  }

  lemma SevenAlone()
    ensures Fits(Start(Zeros(BUF)), [SPACE, 55], 0)
    ensures Parse(Start(Zeros(BUF)), [SPACE, 55], 0).m.entries == [Entry(1, 7, Zeros(BUF), 0)]
  {
    var t, items := [SPACE, 55], [Number([55])];
    assert t[1..2] == [55] == Join(items);
    assert IsResponse(t, 0, 2, items);
    ResponseIsFiled(t, 0, 2, items);
    assert Digits([55], 1, 7) == 7;
    assert Entries(items) == [EntryOf(items[0])];
  }

  function As(n: nat): (s: seq<byte>)
    ensures |s| == n && forall k :: 0 <= k < n ==> s[k] == 65
  {
    seq(n, _ => 65)
  }

  /** A string of `k` characters, filed from a buffer that held `d`: the byte after its last character
      is whatever the buffer held there. */
  lemma {:induction false} StringOver(d: seq<byte>, k: nat, j: nat)
    requires |d| == BUF && d[BUF - 1] == 0 && j <= k < BUF - 1
    ensures var t, m := [SPACE, QUOTE] + As(k) + [QUOTE], Machine(InText, j, As(j) + d[j..], []);
            && Fits(m, t, 2 + j)
            && var r := Parse(m, t, 2 + j); r.code == 0 && r.m.entries == [TextEntry(As(k) + d[k..], k)]
    decreases k - j
  {
    var t, m := [SPACE, QUOTE] + As(k) + [QUOTE], Machine(InText, j, As(j) + d[j..], []);
    if j < k {
      StringOver(d, k, j + 1);
      assert t[2 + j] == As(k)[j] == 65;
      assert (As(j) + d[j..])[j := 65] == As(j + 1) + d[j + 1..];
    } else {
      var f := File(m, TextEntry(m.buf, k), AfterText);
      assert [] + [TextEntry(m.buf, k)] == [TextEntry(m.buf, k)];
      assert t[2 + j] == QUOTE;
      assert Parse(f, t, 3 + j) == Stopped(0, f);
    }
  }

  lemma StringFiled(d: seq<byte>, k: nat)
    requires |d| == BUF && d[BUF - 1] == 0 && k < BUF - 1
    ensures var t := [SPACE, QUOTE] + As(k) + [QUOTE];
            && Fits(Start(d), t, 0)
            && var r := Parse(Start(d), t, 0); r.code == 0 && r.m.entries == [TextEntry(As(k) + d[k..], k)]
  {
    var t := [SPACE, QUOTE] + As(k) + [QUOTE];
    StringOver(d, k, 0);
    assert As(0) + d[0..] == d;
    assert Fits(Machine(Ready, 0, d, []), t, 1);
  }

  /** Every string is parsed as from a clean buffer. */
  ghost predicate AsIfClean(d: seq<byte>)
  {
    forall t {:trigger Fits(Start(d), t, 0)} :: Fits(Start(d), t, 0) && Fits(Start(Zeros(BUF)), t, 0) ==>
      Parse(Start(d), t, 0).code == Parse(Start(Zeros(BUF)), t, 0).code
      && Parse(Start(d), t, 0).m.entries == Parse(Start(Zeros(BUF)), t, 0).m.entries
  }

  /** Parsing is independent of what came before exactly when the buffer is clean: any stale byte shows
      in some response. */
  lemma IndependentIffClean(d: seq<byte>)
    requires |d| == BUF && d[BUF - 1] == 0
    ensures AsIfClean(d) <==> d == Zeros(BUF)
  {
    if d != Zeros(BUF) {
      var k :| 0 <= k < BUF && d[k] != 0;
      StringFiled(d, k);
      StringFiled(Zeros(BUF), k);
      var x, z := As(k) + d[k..], As(k) + Zeros(BUF)[k..];
      assert x[..k + 1][k] == d[k] && z[..k + 1][k] == 0;
      assert TextEntry(x, k).str[k] != TextEntry(z, k).str[k];
      var t := [SPACE, QUOTE] + As(k) + [QUOTE];
      assert Fits(Start(d), t, 0);
    }
  }
}
