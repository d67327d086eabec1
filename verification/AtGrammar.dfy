/** What the AT parser accepts, and what it makes of it: a grammar, a printer, and the proof that the
    machine and they agree. */
module AtGrammar {
  import opened Bytes
  import opened AtParser

  // ---------------------------------------------------------------- characters, by their codes

  predicate Digit(c: byte)
  {
    48 <= c <= 57
  }

  predicate Sign(c: byte)
  {
    c == 43 || c == 45
  }

  /** What may stand between two quotes. */
  predicate Plain(c: byte)
  {
    32 <= c <= 126 && c != 34
  }

  /** End of string, CR, LF. */
  predicate Ends(c: byte)
  {
    c == 0 || c == 13 || c == 10
  }

  // ---------------------------------------------------------------- the grammar

  /** A field of a response as it is written. */
  datatype Item = Blank | Number(text: seq<byte>) | Text(chars: seq<byte>)

  predicate GoodNumber(s: seq<byte>)
  {
    && |s| > 0 && (Sign(s[0]) || Digit(s[0]))
    && (forall k :: 1 <= k < |s| ==> Digit(s[k]))
    && (|s| == 1 ==> Digit(s[0]))
  }

  predicate GoodText(s: seq<byte>)
  {
    forall k :: 0 <= k < |s| ==> Plain(s[k])
  }

  predicate Good(x: Item)
  {
    match x
    case Blank => true
    case Number(s) => GoodNumber(s)
    case Text(s) => GoodText(s)
  }

  predicate AllGood(items: seq<Item>)
  {
    items == [] || (Good(items[0]) && AllGood(items[1..]))
  }

  function Print(x: Item): (s: seq<byte>)
  {
    match x
    case Blank => []
    case Number(s) => s
    case Text(s) => [34] + s + [34]
  }

  /** Fields joined with commas. */
  function Join(items: seq<Item>): (s: seq<byte>)
    requires items != []
  {
    if |items| == 1 then Print(items[0]) else Print(items[0]) + [44] + Join(items[1..])
  }

  /** A field that is empty and last is not noticed. */
  function Trim(items: seq<Item>): (r: seq<Item>)
    requires items != []
  {
    if items[|items| - 1] == Blank then items[..|items| - 1] else items
  }

  function Width(x: Item): (n: nat)
  {
    match x
    case Blank => 0
    case Number(s) => |s|
    case Text(s) => |s|
  }

  /** The list entry a field ends up as. */
  function EntryOf(x: Item): (e: Entry)
  {
    match x
    case Blank => NO_ENTRY
    case Number(s) => Entry(1, Atoi(s), Zeros(BUF), 0)
    case Text(s) => Entry(2, 0, s + Zeros(if |s| <= BUF then BUF - |s| else 0), |s|)
  }

  function Entries(items: seq<Item>): (es: seq<Entry>)
    ensures |es| == |items| && forall k :: 0 <= k < |items| ==> es[k] == EntryOf(items[k])
  {
    seq(|items|, k requires 0 <= k < |items| => EntryOf(items[k]))
  }

  ghost predicate Narrow(items: seq<Item>)
  {
    forall k :: 0 <= k < |items| ==> Width(items[k]) <= 128
  }

  // ---------------------------------------------------------------- clean buffers

  /** A buffer that holds `tok` and zeros. */
  function Clean(tok: seq<byte>): (buf: seq<byte>)
    requires |tok| < BUF
    ensures |buf| == BUF && buf[BUF - 1] == 0
  {
    tok + Zeros(BUF - |tok|)
  }

  lemma NothingIsClean()
    ensures Clean([]) == Zeros(BUF)
  {
  }

  function At(mode: Mode, tok: seq<byte>, es: seq<Entry>): (m: Machine)
    requires |tok| < BUF
  {
    Machine(mode, |tok|, Clean(tok), es)
  }

  lemma {:induction false} StrLenOfClean(tok: seq<byte>, i: nat)
    requires |tok| < BUF && i <= |tok| && forall k :: 0 <= k < |tok| ==> tok[k] != 0
    ensures StrLen(Clean(tok), i) == |tok| - i
    decreases |tok| - i
  {
    if i < |tok| {
      StrLenOfClean(tok, i + 1);
    }
  }

  lemma PushClean(mode: Mode, tok: seq<byte>, es: seq<Entry>, c: byte, mode': Mode)
    requires |tok| + 1 < BUF
    ensures Push(At(mode, tok, es), c, mode') == At(mode', tok + [c], es)
  {
  }

  lemma FileClean(tok: seq<byte>, es: seq<Entry>)
    requires |tok| < BUF && forall k :: 0 <= k < |tok| ==> tok[k] != 0
    ensures NumberEntry(Clean(tok)) == EntryOf(Number(tok))
    ensures TextEntry(Clean(tok), |tok|) == EntryOf(Text(tok))
    ensures Clean([]) == Zeros(BUF)
    ensures |tok| > 0 ==> LoneSign(Clean(tok)) == (|tok| == 1 && Sign(tok[0]))
  {
    StrLenOfClean(tok, 0);
    assert Clean(tok)[..|tok|] == tok;
    assert Clean(tok)[..|tok| + 1] + Zeros(BUF - |tok| - 1) == tok + Zeros(BUF - |tok|);
    NothingIsClean();
  }

  // ---------------------------------------------------------------- running the machine over a token

  /** Reading digits only adds them to the token. */
  lemma {:induction false} DigitsRun(tok: seq<byte>, es: seq<Entry>, t: seq<byte>, i: nat, j: nat)
    requires i <= j <= |t| && |tok| < BUF && |es| <= PARAMS
    requires forall k :: i <= k < j ==> Digit(t[k])
    ensures Fits(At(InNumber, tok, es), t, i) <==>
              |tok| + (j - i) < BUF && Fits(At(InNumber, tok + t[i..j], es), t, j)
    ensures Fits(At(InNumber, tok, es), t, i) ==>
              Parse(At(InNumber, tok, es), t, i) == Parse(At(InNumber, tok + t[i..j], es), t, j)
    decreases j - i
  {
    if i == j {
      assert tok + t[i..j] == tok;
    } else if |tok| + 1 < BUF {
      PushClean(InNumber, tok, es, t[i], InNumber);
      DigitsRun(tok + [t[i]], es, t, i + 1, j);
      assert tok + [t[i]] + t[i + 1..j] == tok + t[i..j];
    }
  }

  /** Reading printable characters other than the quote only adds them to the token. */
  lemma {:induction false} CharsRun(tok: seq<byte>, es: seq<Entry>, t: seq<byte>, i: nat, j: nat)
    requires i <= j <= |t| && |tok| < BUF && |es| <= PARAMS
    requires forall k :: i <= k < j ==> Plain(t[k])
    ensures Fits(At(InText, tok, es), t, i) <==>
              |tok| + (j - i) < BUF && Fits(At(InText, tok + t[i..j], es), t, j)
    ensures Fits(At(InText, tok, es), t, i) ==>
              Parse(At(InText, tok, es), t, i) == Parse(At(InText, tok + t[i..j], es), t, j)
    decreases j - i
  {
    if i == j {
      assert tok + t[i..j] == tok;
    } else if |tok| + 1 < BUF {
      PushClean(InText, tok, es, t[i], InText);
      CharsRun(tok + [t[i]], es, t, i + 1, j);
      assert tok + [t[i]] + t[i + 1..j] == tok + t[i..j];
    }
  }

  /** A whole number from its first character on. */
  lemma NumberRun(es: seq<Entry>, t: seq<byte>, i: nat, j: nat)
    requires i < j <= |t| && |es| <= PARAMS
    requires Sign(t[i]) || Digit(t[i])
    requires forall k :: i < k < j ==> Digit(t[k])
    ensures Fits(At(Ready, [], es), t, i) <==> j - i < BUF && Fits(At(InNumber, t[i..j], es), t, j)
    ensures Fits(At(Ready, [], es), t, i) ==>
              Parse(At(Ready, [], es), t, i) == Parse(At(InNumber, t[i..j], es), t, j)
  {
    NumberStarts(es, t, i);
    DigitsRun([t[i]], es, t, i + 1, j);
    assert [t[i]] + t[i + 1..j] == t[i..j];
  }

  lemma NumberStarts(es: seq<Entry>, t: seq<byte>, i: nat)
    requires i < |t| && |es| <= PARAMS && (Sign(t[i]) || Digit(t[i]))
    ensures Fits(At(Ready, [], es), t, i) <==> Fits(At(InNumber, [t[i]], es), t, i + 1)
    ensures Fits(At(Ready, [], es), t, i) ==>
              Parse(At(Ready, [], es), t, i) == Parse(At(InNumber, [t[i]], es), t, i + 1)
  {
    PushClean(Ready, [], es, t[i], InNumber);
    assert [] + [t[i]] == [t[i]];
  }

  /** What follows a number: the end of the response, or a comma. */
  lemma NumberThen(tok: seq<byte>, es: seq<Entry>, t: seq<byte>, j: nat)
    requires GoodNumber(tok) && |tok| < BUF && |es| <= PARAMS && j <= |t|
    ensures var m, m' := At(InNumber, tok, es), At(Ready, [], es + [EntryOf(Number(tok))]);
            && (Ends(CharAt(t, j)) ==>
                  && (Fits(m, t, j) <==> |es| < PARAMS)
                  && (Fits(m, t, j) ==> Parse(m, t, j) == Stopped(0, m')))
            && (CharAt(t, j) == COMMA ==>
                  && (Fits(m, t, j) <==> Fits(m', t, j + 1))
                  && (Fits(m, t, j) ==> Parse(m, t, j) == Parse(m', t, j + 1)))
  {
    FileClean(tok, es);
  }

  /** A string from its opening quote on, as far as its characters go. */
  lemma OpenedRun(es: seq<Entry>, t: seq<byte>, i: nat, j: nat)
    requires i < j <= |t| && |es| <= PARAMS
    requires t[i] == QUOTE && forall k :: i < k < j ==> Plain(t[k])
    ensures Fits(At(Ready, [], es), t, i) <==> j - i - 1 < BUF && Fits(At(InText, t[i + 1..j], es), t, j)
    ensures Fits(At(Ready, [], es), t, i) ==>
              Parse(At(Ready, [], es), t, i) == Parse(At(InText, t[i + 1..j], es), t, j)
  {
    CharsRun([], es, t, i + 1, j);
    assert [] + t[i + 1..j] == t[i + 1..j];
  }

  /** A whole string from its opening to its closing quote. */
  lemma TextRun(es: seq<Entry>, t: seq<byte>, i: nat, j: nat)
    requires i < j < |t| && |es| <= PARAMS
    requires t[i] == QUOTE && t[j] == QUOTE && GoodText(t[i + 1..j])
    ensures var m, m' := At(Ready, [], es), At(AfterText, [], es + [EntryOf(Text(t[i + 1..j]))]);
            && (Fits(m, t, i) <==> j - i - 1 < BUF && Fits(m', t, j + 1))
            && (Fits(m, t, i) ==> Parse(m, t, i) == Parse(m', t, j + 1))
  {
    var s := t[i + 1..j];
    assert forall k :: i + 1 <= k < j ==> t[k] == s[k - i - 1];
    OpenedRun(es, t, i, j);
    if |s| < BUF {
      ClosingQuote(s, es, t, j);
    }
  }

  lemma ClosingQuote(s: seq<byte>, es: seq<Entry>, t: seq<byte>, j: nat)
    requires GoodText(s) && |s| < BUF && |es| <= PARAMS && j < |t| && t[j] == QUOTE
    ensures var m, m' := At(InText, s, es), At(AfterText, [], es + [EntryOf(Text(s))]);
            && (Fits(m, t, j) <==> Fits(m', t, j + 1))
            && (Fits(m, t, j) ==> Parse(m, t, j) == Parse(m', t, j + 1))
  {
    FileClean(s, es);
  }

  /** The machine at `i` gets to `j`, where it is ready again with `es'`, if the token is not too long. */
  ghost predicate Passes(es: seq<Entry>, t: seq<byte>, i: nat, fits: bool, es': seq<Entry>, j: nat)
    requires i <= |t| && j <= |t|
  {
    var m, m' := At(Ready, [], es), At(Ready, [], es');
    && (Fits(m, t, i) <==> fits && Fits(m', t, j))
    && (Fits(m, t, i) ==> Parse(m, t, i) == Parse(m', t, j))
  }

  lemma NumberThenComma(es: seq<Entry>, t: seq<byte>, i: nat, j: nat)
    requires i <= j < |t| && GoodNumber(t[i..j]) && t[j] == COMMA && |es| <= PARAMS
    ensures Passes(es, t, i, j - i < BUF, es + [EntryOf(Number(t[i..j]))], j + 1)
  {
    var s := t[i..j];
    assert forall k :: i <= k < j ==> t[k] == s[k - i];
    NumberRun(es, t, i, j);
    if j - i < BUF {
      NumberThen(s, es, t, j);
    }
  }

  lemma TextThenComma(es: seq<Entry>, t: seq<byte>, i: nat, j: nat)
    requires i + 2 <= j < |t| && t[i] == QUOTE && t[j - 1] == QUOTE && GoodText(t[i + 1..j - 1]) && t[j] == COMMA
    requires |es| <= PARAMS
    ensures Passes(es, t, i, j - i - 2 < BUF, es + [EntryOf(Text(t[i + 1..j - 1]))], j + 1)
  {
    TextRun(es, t, i, j - 1);
  }

  function Length(x: Item): (n: nat)
  {
    match x
    case Blank => 0
    case Number(s) => |s|
    case Text(s) => |s| + 2
  }

  /** From `i` to `k` the text is this field as it is written. */
  ghost predicate Spelled(x: Item, t: seq<byte>, i: nat, k: nat)
  {
    && k == i + Length(x) && k <= |t|
    && match x
       case Blank => true
       case Number(s) => t[i..k] == s
       case Text(s) => t[i] == 34 && t[k - 1] == 34 && t[i + 1..k - 1] == s
  }

  lemma QuotedSlice(chars: seq<byte>, t: seq<byte>, i: nat, e: nat)
    requires i <= e <= |t| && t[i..e] == Print(Text(chars))
    ensures i + 2 <= e && t[i] == QUOTE && t[e - 1] == QUOTE && t[i + 1..e - 1] == chars
  {
    var s := t[i..e];
    assert s == [QUOTE] + chars + [QUOTE];
    assert t[i] == s[0] && t[e - 1] == s[|s| - 1];
    assert forall k :: i <= k < e ==> t[k] == s[k - i];
    assert t[i + 1..e - 1] == s[1..|s| - 1];
    assert s[1..|s| - 1] == chars;
  }

  lemma SpelledIsPrinted(x: Item, t: seq<byte>, i: nat, k: nat)
    requires i <= k <= |t|
    ensures Spelled(x, t, i, k) <==> t[i..k] == Print(x)
  {
    if x.Text? {
      if t[i..k] == Print(x) {
        QuotedSlice(x.chars, t, i, k);
      }
      if Spelled(x, t, i, k) {
        QuotedPrint(t, i, k - 1);
      }
    }
  }

  lemma QuotedPrint(t: seq<byte>, i: nat, q: nat)
    requires i < q < |t| && t[i] == QUOTE && t[q] == QUOTE
    ensures t[i..q + 1] == Print(Text(t[i + 1..q]))
  {
    assert t[i..q + 1] == [t[i]] + t[i + 1..q] + [t[q]];
  }

  /** Then there is a comma. */
  ghost predicate Closes(x: Item, t: seq<byte>, i: nat, k: nat)
  {
    Good(x) && Spelled(x, t, i, k) && k < |t| && t[k] == 44
  }

  /** One field followed by a comma: the machine files it and is ready for the next. */
  lemma FieldThenComma(x: Item, es: seq<Entry>, t: seq<byte>, i: nat, j: nat)
    requires Closes(x, t, i, j) && |es| <= PARAMS
    ensures Passes(es, t, i, Width(x) < BUF, es + [EntryOf(x)], j + 1)
  {
    match x
    case Blank =>
    case Number(_) => NumberThenComma(es, t, i, j);
    case Text(_) => TextThenComma(es, t, i, j);
  }

  /** From position `i` on, ready for a field: whether the rest fits, and the entries it leads to. */
  ghost predicate Filed(es: seq<Entry>, t: seq<byte>, i: nat, fits: bool, es': seq<Entry>)
    requires i <= |t|
  {
    var m := At(Ready, [], es);
    && (Fits(m, t, i) <==> fits)
    && (Fits(m, t, i) ==> var r := Parse(m, t, i); r.code == 0 && r.m.entries == es' && r.m.buf == Zeros(BUF))
  }

  lemma BlankThenEnd(es: seq<Entry>, t: seq<byte>, i: nat)
    requires i <= |t| && Ends(CharAt(t, i)) && |es| <= PARAMS
    ensures Filed(es, t, i, true, es)
  {
  }

  lemma NumberThenEnd(es: seq<Entry>, t: seq<byte>, i: nat, e: nat)
    requires i <= e <= |t| && GoodNumber(t[i..e]) && Ends(CharAt(t, e)) && |es| <= PARAMS
    ensures Filed(es, t, i, e - i < BUF && |es| < PARAMS, es + [EntryOf(Number(t[i..e]))])
  {
    var s := t[i..e];
    assert forall k :: i <= k < e ==> t[k] == s[k - i];
    NumberRun(es, t, i, e);
    if e - i < BUF {
      NumberThen(s, es, t, e);
      FileClean([], es);
    }
  }

  lemma TextThenEnd(es: seq<Entry>, t: seq<byte>, i: nat, e: nat)
    requires i + 2 <= e <= |t| && t[i] == QUOTE && t[e - 1] == QUOTE && GoodText(t[i + 1..e - 1])
    requires Ends(CharAt(t, e)) && |es| <= PARAMS
    ensures Filed(es, t, i, e - i - 2 < BUF && |es| < PARAMS, es + [EntryOf(Text(t[i + 1..e - 1]))])
  {
    TextRun(es, t, i, e - 1);
    if |es| < PARAMS {
      AfterTextEnds(es + [EntryOf(Text(t[i + 1..e - 1]))], t, e);
    }
  }

  lemma AfterTextEnds(es: seq<Entry>, t: seq<byte>, e: nat)
    requires e <= |t| && Ends(CharAt(t, e)) && |es| <= PARAMS
    ensures Fits(At(AfterText, [], es), t, e) && Parse(At(AfterText, [], es), t, e) == Stopped(0, At(AfterText, [], es))
    ensures Clean([]) == Zeros(BUF)
  {
  }

  /** One field at the end of the response; an empty one leaves no entry. */
  lemma FieldThenEnd(x: Item, es: seq<Entry>, t: seq<byte>, i: nat, e: nat)
    requires Good(x) && i <= e <= |t| && t[i..e] == Print(x) && Ends(CharAt(t, e)) && |es| <= PARAMS
    ensures Filed(es, t, i, Width(x) < BUF && |es| + |Trim([x])| <= PARAMS, es + Entries(Trim([x])))
  {
    LoneItem(x, es);
    match x
    case Blank => BlankThenEnd(es, t, i);
    case Number(_) => NumberThenEnd(es, t, i, e);
    case Text(chars) =>
      QuotedSlice(chars, t, i, e);
      TextThenEnd(es, t, i, e);
  }

  lemma LoneItem(x: Item, es: seq<Entry>)
    ensures x == Blank ==> es + Entries(Trim([x])) == es && |Trim([x])| == 0
    ensures x != Blank ==> es + Entries(Trim([x])) == es + [EntryOf(x)] && |Trim([x])| == 1
  {
  }

  /** From `i` to `e` the text is a comma-joined list of these fields, and then it ends. */
  ghost predicate Lists(items: seq<Item>, t: seq<byte>, i: nat, e: nat)
  {
    && items != [] && AllGood(items) && i <= e <= |t|
    && t[i..e] == Join(items) && (e == |t| || Ends(t[e]))
  }

  lemma FirstOfList(items: seq<Item>, t: seq<byte>, i: nat, e: nat) returns (j: nat)
    requires |items| > 1 && Lists(items, t, i, e)
    ensures j < e && Closes(items[0], t, i, j) && Lists(items[1..], t, j + 1, e)
  {
    j := i + |Print(items[0])|;
    JoinParts(items, t, i, e);
    SpelledIsPrinted(items[0], t, i, j);
  }

  lemma JoinParts(items: seq<Item>, t: seq<byte>, i: nat, e: nat)
    requires |items| > 1 && i <= e <= |t| && t[i..e] == Join(items)
    ensures var j := i + |Print(items[0])|;
            j < e && t[i..j] == Print(items[0]) && t[j] == COMMA && t[j + 1..e] == Join(items[1..])
  {
    SplitThree(t, i, e, Print(items[0]), COMMA, Join(items[1..]));
  }

  lemma SplitThree(t: seq<byte>, i: nat, e: nat, a: seq<byte>, c: byte, b: seq<byte>)
    requires i <= e <= |t| && t[i..e] == a + [c] + b
    ensures i + |a| < e && t[i..i + |a|] == a && t[i + |a|] == c && t[i + |a| + 1..e] == b
  {
    var s := t[i..e];
    assert s[..|a|] == a && s[|a|] == c && s[|a| + 1..] == b;
    assert t[i..i + |a|] == s[..|a|] && t[i + |a| + 1..e] == s[|a| + 1..];
  }

  lemma TrimTail(items: seq<Item>)
    requires |items| > 1
    ensures Trim(items) == [items[0]] + Trim(items[1..])
  {
  }

  lemma EntriesCons(x: Item, items: seq<Item>, es: seq<Entry>)
    ensures es + [EntryOf(x)] + Entries(items) == es + Entries([x] + items)
  {
  }

  lemma NarrowTail(items: seq<Item>)
    requires |items| > 1
    ensures Narrow(items) <==> Width(items[0]) < BUF && Narrow(items[1..])
  {
  }

  /** The rest fits just when every token is at most 128 characters long and at most 42 fields are
      filed; then it is accepted, and filed field by field, less a trailing empty one. */
  ghost predicate AllFiled(items: seq<Item>, es: seq<Entry>, t: seq<byte>, i: nat)
    requires items != [] && i <= |t|
  {
    Filed(es, t, i, Narrow(items) && |es| + |Trim(items)| <= PARAMS, es + Entries(Trim(items)))
  }

  /** A comma-joined list of fields, up to the end of the response. */
  lemma {:induction false} ItemsRun(items: seq<Item>, es: seq<Entry>, t: seq<byte>, i: nat, e: nat)
    requires Lists(items, t, i, e) && |es| <= PARAMS
    ensures AllFiled(items, es, t, i)
    decreases |items|, 1
  {
    if |items| == 1 {
      OneFiled(items, es, t, i, e);
    } else {
      SeveralRun(items, es, t, i, e);
    }
  }

  lemma {:induction false} SeveralRun(items: seq<Item>, es: seq<Entry>, t: seq<byte>, i: nat, e: nat)
    requires |items| > 1 && Lists(items, t, i, e) && |es| <= PARAMS
    ensures AllFiled(items, es, t, i)
    decreases |items|, 0
  {
    var j := FirstOfList(items, t, i, e);
    if |es| < PARAMS {
      ItemsRun(items[1..], es + [EntryOf(items[0])], t, j + 1, e);
    }
    StepFiled(items, es, t, i, j);
  }

  /** The first of several fields, given what becomes of the others. */
  lemma StepFiled(items: seq<Item>, es: seq<Entry>, t: seq<byte>, i: nat, j: nat)
    requires |items| > 1 && Closes(items[0], t, i, j) && |es| <= PARAMS
    requires |es| < PARAMS ==> AllFiled(items[1..], es + [EntryOf(items[0])], t, j + 1)
    ensures AllFiled(items, es, t, i)
  {
    FieldThenComma(items[0], es, t, i, j);
    ConsFiled(items, es, t, i, j + 1);
  }

  lemma OneFiled(items: seq<Item>, es: seq<Entry>, t: seq<byte>, i: nat, e: nat)
    requires |items| == 1 && Lists(items, t, i, e) && |es| <= PARAMS
    ensures AllFiled(items, es, t, i)
  {
    assert items == [items[0]];
    FieldThenEnd(items[0], es, t, i, e);
  }

  lemma ConsFiled(items: seq<Item>, es: seq<Entry>, t: seq<byte>, i: nat, j: nat)
    requires |items| > 1 && i <= |t| && j <= |t| && |es| <= PARAMS
    requires Passes(es, t, i, Width(items[0]) < BUF, es + [EntryOf(items[0])], j)
    requires |es| < PARAMS ==> AllFiled(items[1..], es + [EntryOf(items[0])], t, j)
    ensures AllFiled(items, es, t, i)
  {
    var x, rest := items[0], items[1..];
    TrimTail(items);
    NarrowTail(items);
    EntriesCons(x, Trim(rest), es);
    if |es| < PARAMS {
      PassesThenFiled(es, t, i, Width(x) < BUF, es + [EntryOf(x)], j, Narrow(rest) && |es| + 1 + |Trim(rest)| <= PARAMS,
                      es + [EntryOf(x)] + Entries(Trim(rest)));
    }
  }

  lemma PassesThenFiled(es: seq<Entry>, t: seq<byte>, i: nat, first: bool, es': seq<Entry>, j: nat,
                        second: bool, es'': seq<Entry>)
    requires i <= |t| && j <= |t| && Passes(es, t, i, first, es', j) && Filed(es', t, j, second, es'')
    ensures Filed(es, t, i, first && second, es'')
  {
  }
}
