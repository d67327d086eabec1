/** The AT response parser: a five-state character machine that collects a token in a buffer and
    files finished tokens in a list. */
module AtParser {
  import opened Bytes

  const PARAMS: nat := 42
  const BUF: nat := 129

  /** A list entry: 0 nothing, 1 an integer, 2 a string with its length. */
  datatype Entry = Entry(kind: int, value: int, str: seq<byte>, len: nat)

  function Zeros(n: nat): (z: seq<byte>)
    ensures |z| == n && forall k :: 0 <= k < n ==> z[k] == 0
  {
    seq(n, _ => 0)
  }

  const NO_ENTRY := Entry(0, 0, Zeros(BUF), 0)

  // ---------------------------------------------------------------- characters

  const SPACE: byte := 32
  const QUOTE: byte := 34
  const PLUS: byte := 43
  const COMMA: byte := 44
  const MINUS: byte := 45

  predicate IsDigit(c: byte)
  {
    48 <= c <= 57
  }

  function DigitValue(c: byte): (d: nat)
    requires IsDigit(c)
  {
    c - 48
  }

  predicate IsSign(c: byte)
  {
    c == PLUS || c == MINUS
  }

  predicate IsPrintable(c: byte)
  {
    0x20 <= c <= 0x7E
  }

  /** End of string, carriage return, line feed. */
  predicate IsEnd(c: byte)
  {
    c == 0 || c == 13 || c == 10
  }

  // ---------------------------------------------------------------- the C library

  /** How many bytes from `i` on come before the first zero. */
  function StrLen(buf: seq<byte>, i: nat): (n: nat)
    requires i <= |buf|
    ensures i + n <= |buf| && (forall k :: i <= k < i + n ==> buf[k] != 0)
    ensures i + n < |buf| ==> buf[i + n] == 0
    decreases |buf| - i
  {
    if i == |buf| || buf[i] == 0 then 0 else 1 + StrLen(buf, i + 1)
  }

  /** The value of the digits from `i` on, up to the first other character. */
  function Digits(s: seq<byte>, i: nat, acc: nat): (n: nat)
    requires i <= |s|
    decreases |s| - i
  {
    if i < |s| && IsDigit(s[i]) then Digits(s, i + 1, 10 * acc + DigitValue(s[i])) else acc
  }

  /** `atoi`: an optional sign, then digits. No token starts with white space. */
  function Atoi(s: seq<byte>): (n: int)
  {
    if |s| > 0 && s[0] == MINUS then -(Digits(s, 1, 0) as int)
    else if |s| > 0 && s[0] == PLUS then Digits(s, 1, 0)
    else Digits(s, 0, 0)
  }

  // ---------------------------------------------------------------- the machine as a function

  datatype Mode = Ignore | InNumber | InText | Ready | AfterText

  /** `buf` is the token buffer and `idx` its fill; `entries` are the list entries decided so far. */
  datatype Machine = Machine(mode: Mode, idx: nat, buf: seq<byte>, entries: seq<Entry>)

  datatype Result = Running(m: Machine) | Stopped(code: int, m: Machine)

  /** A number is filed by what `strlen` and `atoi` make of the whole buffer, stale bytes included. */
  function NumberEntry(buf: seq<byte>): (e: Entry)
  {
    Entry(1, Atoi(buf[..StrLen(buf, 0)]), Zeros(BUF), 0)
  }

  /** A string is filed with one byte more than its length, which ought to be its terminator. */
  function TextEntry(buf: seq<byte>, idx: nat): (e: Entry)
    requires idx < |buf| == BUF
  {
    Entry(2, 0, buf[..idx + 1] + Zeros(BUF - idx - 1), idx)
  }

  function Push(m: Machine, c: byte, mode: Mode): (m': Machine)
    requires m.idx < |m.buf|
  {
    m.(mode := mode, idx := m.idx + 1, buf := m.buf[m.idx := c])
  }

  function File(m: Machine, e: Entry, mode: Mode): (m': Machine)
  {
    m.(mode := mode, idx := 0, buf := Zeros(BUF), entries := m.entries + [e])
  }

  predicate LoneSign(buf: seq<byte>)
    requires |buf| > 0
  {
    StrLen(buf, 0) <= 1 && IsSign(buf[0])
  }

  /** Room for one more character in the buffer, or one more entry in the list. The code's own size
      checks come after the writes and compare with sizes in bytes, so it relies on its callers. */
  predicate Room(m: Machine)
  {
    |m.buf| == BUF && m.buf[BUF - 1] == 0 && m.idx < BUF && |m.entries| <= PARAMS
  }

  /** What one character does. */
  function Step(m: Machine, c: byte): (r: Result)
    requires Room(m)
  {
    match m.mode
    case Ignore =>
      if c == 0 then Stopped(0, m)
      else if c == SPACE then Running(m.(mode := Ready))
      else Running(m)
    case Ready =>
      if IsEnd(c) then Stopped(0, m)
      else if c == SPACE then Stopped(-5, m)
      else if c == COMMA then Running(m.(entries := m.entries + [NO_ENTRY]))
      else if IsSign(c) || IsDigit(c) then Running(Push(m, c, InNumber))
      else if c == QUOTE then Running(m.(mode := InText))
      else Stopped(-3001, m)
    case AfterText =>
      if IsEnd(c) then Stopped(0, m)
      else if c == COMMA then Running(m.(mode := Ready))
      else Stopped(-4001, m)
    case InText =>
      if c == QUOTE then Running(File(m, TextEntry(m.buf, m.idx), AfterText))
      else if IsPrintable(c) then Running(Push(m, c, InText))
      else Stopped(-2001, m)
    case InNumber =>
      if c == COMMA then
        if LoneSign(m.buf) then Stopped(-1001, m) else Running(File(m, NumberEntry(m.buf), Ready))
      else if IsEnd(c) then
        if LoneSign(m.buf) then Stopped(-1002, m) else Stopped(0, File(m, NumberEntry(m.buf), Ready))
      else if IsDigit(c) then Running(Push(m, c, InNumber))
      else Stopped(-1004, m)
  }

  /** The character at `i`; the string ends with its first zero. */
  function CharAt(t: seq<byte>, i: nat): (c: byte)
    requires i <= |t|
  {
    if i < |t| then t[i] else 0
  }

  /** Capacity: all the way through there is room for what comes next. */
  predicate Fits(m: Machine, t: seq<byte>, i: nat)
    requires i <= |t|
    decreases |t| - i
  {
    Room(m) &&
    match Step(m, CharAt(t, i))
    case Stopped(_, m') => |m'.entries| <= PARAMS
    case Running(m') => i < |t| ==> Fits(m', t, i + 1)
  }

  /** The whole parse of `t` from position `i` on. */
  function Parse(m: Machine, t: seq<byte>, i: nat): (r: Result)
    requires i <= |t| && Fits(m, t, i)
    ensures r.Stopped?
    decreases |t| - i
  {
    var r := Step(m, CharAt(t, i));
    if r.Stopped? then r else Parse(r.m, t, i + 1)
  }

  const EINVAL: int := -22

  function Start(buf: seq<byte>): (m: Machine)
  {
    Machine(Ignore, 0, buf, [])
  }

  // ---------------------------------------------------------------- the code

  class Parser {
    const parseBuf: array<byte>
    const list: array<Entry>
    var count: int

    ghost predicate Valid()
      reads this, parseBuf, list
    {
      parseBuf.Length == BUF && list.Length == PARAMS && parseBuf[BUF - 1] == 0
    }

    constructor ()
      ensures Valid() && parseBuf[..] == Zeros(BUF)
    {
      parseBuf := new byte[BUF](_ => 0);
      list := new Entry[PARAMS](_ => NO_ENTRY);
      count := 0;
    }

    /** The array state stands for the machine state. */
    ghost predicate Holds(m: Machine)
      reads this, parseBuf, list
    {
      && parseBuf.Length == BUF && list.Length == PARAMS
      && parseBuf[..] == m.buf && |m.entries| <= PARAMS
      && forall k :: 0 <= k < PARAMS ==> list[k] == if k < |m.entries| then m.entries[k] else NO_ENTRY
    }

    /** `at_res_clear`. */
    method Clear()
      requires Valid()
      modifies this, list
      ensures Valid() && count == 0 && forall k :: 0 <= k < PARAMS ==> list[k] == NO_ENTRY
    {
      count := 0;
      var i := 0;
      while i < PARAMS
        invariant 0 <= i <= PARAMS
        invariant forall k :: 0 <= k < i ==> list[k] == NO_ENTRY
        modifies list
      {
        list[i] := NO_ENTRY;
        i := i + 1;
      }
    }

    method Wipe()
      requires parseBuf.Length == BUF
      modifies parseBuf
      ensures parseBuf[..] == Zeros(BUF)
    {
      forall k | 0 <= k < BUF {
        parseBuf[k] := 0;
      }
    }

    /** File the number in the buffer as entry `res`, and clean the buffer. */
    method FileNumber(res: nat)
      requires Valid() && res < PARAMS && list[res] == NO_ENTRY
      modifies parseBuf, list
      ensures Valid() && parseBuf[..] == Zeros(BUF)
      ensures list[..] == old(list[..])[res := NumberEntry(old(parseBuf[..]))]
    {
      list[res] := Entry(1, Atoi(parseBuf[..StrLen(parseBuf[..], 0)]), list[res].str, list[res].len);
      assert parseBuf[..StrLen(parseBuf[..], 0)] == parseBuf[..][..StrLen(parseBuf[..], 0)];
      Wipe();
    }

    /** File the string in the buffer as entry `res`, and clean the buffer. */
    method FileText(res: nat, idx: nat)
      requires Valid() && res < PARAMS && idx < BUF && list[res] == NO_ENTRY
      modifies parseBuf, list
      ensures Valid() && parseBuf[..] == Zeros(BUF)
      ensures list[..] == old(list[..])[res := TextEntry(old(parseBuf[..]), idx)]
    {
      list[res] := Entry(2, list[res].value, parseBuf[..idx + 1] + list[res].str[idx + 1..], idx);
      assert Zeros(BUF)[idx + 1..] == Zeros(BUF - idx - 1);
      assert parseBuf[..idx + 1] == parseBuf[..][..idx + 1];
      Wipe();
    }

    /** `__at_res_parse`: one character, then the rest. `s` is a C string holding the text `t`. */
    method ParseFrom(idx: nat, res: nat, mode: Mode, s: seq<byte>, at: nat, ghost t: seq<byte>, ghost m: Machine)
      returns (ret: int)
      requires |t| < |s| && s[..|t|] == t && s[|t|] == 0 && at <= |t|
      requires m == Machine(mode, idx, parseBuf[..], m.entries) && res == |m.entries| && Holds(m)
      requires Fits(m, t, at)
      modifies this`count, parseBuf, list
      ensures var r := Parse(m, t, at);
              && ret == r.code && Holds(r.m)
              && count == if ret == 0 then |r.m.entries| else old(count)
      decreases |t| - at, 1
    {
      var c := s[at];
      assert c == CharAt(t, at);
      ghost var r := Step(m, c);
      match mode
      case Ignore =>
        if c == 0 {
          count := res;
          return 0;
        }
        ret := ParseFrom(idx, res, if c == SPACE then Ready else Ignore, s, at + 1, t, r.m);
      case Ready =>
        ret := ParseReady(idx, res, s, at, t, m);
      case AfterText =>
        if IsEnd(c) {
          count := res;
          return 0;
        } else if c == COMMA {
          ret := ParseFrom(idx, res, Ready, s, at + 1, t, r.m);
        } else {
          return -4001;
        }
      case InText =>
        if c == QUOTE {
          FileText(res, idx);
          ret := ParseFrom(0, res + 1, AfterText, s, at + 1, t, r.m);
        } else if IsPrintable(c) {
          parseBuf[idx] := c;
          ret := ParseFrom(idx + 1, res, InText, s, at + 1, t, r.m);
        } else {
          return -2001;
        }
      case InNumber =>
        ret := ParseInNumber(idx, res, s, at, t, m);
    }

    /** The same, at the start of a field. */
    method ParseReady(idx: nat, res: nat, s: seq<byte>, at: nat, ghost t: seq<byte>, ghost m: Machine)
      returns (ret: int)
      requires |t| < |s| && s[..|t|] == t && s[|t|] == 0 && at <= |t|
      requires m == Machine(Ready, idx, parseBuf[..], m.entries) && res == |m.entries| && Holds(m)
      requires Fits(m, t, at)
      modifies this`count, parseBuf, list
      ensures var r := Parse(m, t, at);
              && ret == r.code && Holds(r.m)
              && count == if ret == 0 then |r.m.entries| else old(count)
      decreases |t| - at, 0
    {
      var c := s[at];
      assert c == CharAt(t, at);
      ghost var r := Step(m, c);
      if IsEnd(c) {
        count := res;
        return 0;
      } else if c == SPACE {
        return -5;
      } else if c == COMMA {
        ret := ParseFrom(idx, res + 1, Ready, s, at + 1, t, r.m);
      } else if IsSign(c) || IsDigit(c) {
        parseBuf[idx] := c;
        ret := ParseFrom(idx + 1, res, InNumber, s, at + 1, t, r.m);
      } else if c == QUOTE {
        ret := ParseFrom(idx, res, InText, s, at + 1, t, r.m);
      } else {
        return -3001;
      }
    }

    /** The same, inside a number. */
    method ParseInNumber(idx: nat, res: nat, s: seq<byte>, at: nat, ghost t: seq<byte>, ghost m: Machine)
      returns (ret: int)
      requires |t| < |s| && s[..|t|] == t && s[|t|] == 0 && at <= |t|
      requires m == Machine(InNumber, idx, parseBuf[..], m.entries) && res == |m.entries| && Holds(m)
      requires Fits(m, t, at)
      modifies this`count, parseBuf, list
      ensures var r := Parse(m, t, at);
              && ret == r.code && Holds(r.m)
              && count == if ret == 0 then |r.m.entries| else old(count)
      decreases |t| - at, 0
    {
      var c := s[at];
      assert c == CharAt(t, at);
      ghost var r := Step(m, c);
      if c == COMMA {
        if LoneSign(parseBuf[..]) {
          return -1001;
        }
        FileNumber(res);
        ret := ParseFrom(0, res + 1, Ready, s, at + 1, t, r.m);
      } else if IsEnd(c) {
        if LoneSign(parseBuf[..]) {
          return -1002;
        }
        FileNumber(res);
        count := res + 1;
        return 0;
      } else if IsDigit(c) {
        parseBuf[idx] := c;
        ret := ParseFrom(idx + 1, res, InNumber, s, at + 1, t, r.m);
      } else {
        return -1004;
      }
    }

    /** `at_res_parse`: clear the list, then parse; any failure is reported as -EINVAL. The token
        buffer is used as the last call left it. */
    method AtResParse(s: seq<byte>, ghost t: seq<byte>) returns (ret: int)
      requires Valid() && |t| < |s| && s[..|t|] == t && s[|t|] == 0
      requires Fits(Start(parseBuf[..]), t, 0)
      modifies this, parseBuf, list
      ensures var r := Parse(Start(old(parseBuf[..])), t, 0);
              && ret == (if r.code == 0 then 0 else -22) && Holds(r.m)
              && count == if r.code == 0 then |r.m.entries| else 0
    {
      Clear();
      ghost var m := Start(parseBuf[..]);
      ret := ParseFrom(0, 0, Ignore, s, 0, t, m);
      if ret != 0 {
        ret := EINVAL;
      }
    }
  }
}
