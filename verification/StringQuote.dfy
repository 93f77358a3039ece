/** Quoted strings: writing them with `%q`, and reading them back in the lexer. */
module StringQuote {
  import opened Bytes
  import opened Wrappers

  const QUOTE: byte := '"' as int
  const BACKSLASH: byte := 92
  const NEWLINE: byte := 10
  const RETURN: byte := 13

  predicate IsNewline(c: int) { c == NEWLINE || c == RETURN }

  // ---------- writing ----------

  function Digit(d: int): byte
    requires 0 <= d < 10
  {
    '0' as int + d
  }

  /** The shortest decimal text of a byte (`%d`), and the one of three digits (`%03d`). */
  function Decimal(c: byte): seq<byte> {
    if c < 10 then [Digit(c)] else if c < 100 then [Digit(c / 10), Digit(c % 10)] else Decimal3(c)
  }

  function Decimal3(c: byte): seq<byte> {
    [Digit(c / 100), Digit(c / 10 % 10), Digit(c % 10)]
  }

  /** How `%q` writes character `c`, followed by `next` (0 at the end). */
  function QuoteChar(c: byte, next: byte): seq<byte> {
    if c == QUOTE || c == BACKSLASH || c == NEWLINE then [BACKSLASH, c]
    else if c == 0 || IsCntrl(c) then [BACKSLASH] + if IsDigit(next) then Decimal3(c) else Decimal(c)
    else [c]
  }

  function QuoteFrom(s: seq<byte>): seq<byte> {
    if s == [] then [] else QuoteChar(s[0], if |s| > 1 then s[1] else 0) + QuoteFrom(s[1..])
  }

  function Quoted(s: seq<byte>): seq<byte> {
    [QUOTE] + QuoteFrom(s) + [QUOTE]
  }

  function Next(s: seq<byte>, i: nat): byte {
    if i + 1 < |s| then s[i + 1] else 0
  }

  lemma QuoteStep(s: seq<byte>, i: nat)
    requires i < |s|
    ensures QuoteFrom(s[i..]) == QuoteChar(s[i], Next(s, i)) + QuoteFrom(s[i + 1..])
  {
    assert s[i..][1..] == s[i + 1..];
  }

  /** `addquoted`. */
  method AddQuoted(s: seq<byte>) returns (b: seq<byte>)
    ensures b == Quoted(s)
  {
    hide QuoteFrom, Decimal, Decimal3, QuoteChar;
    b := [QUOTE];
    var i := 0;
    QuoteEnds(s);
    while i < |s|
      invariant 0 <= i <= |s| && b + QuoteFrom(s[i..]) == [QUOTE] + QuoteFrom(s)
    {
      ghost var b0 := b;
      if s[i] == QUOTE || s[i] == BACKSLASH || s[i] == NEWLINE {
        b := b + [BACKSLASH];
        b := b + [s[i]];
        assert b == b0 + [BACKSLASH, s[i]];
      } else if s[i] == 0 || IsCntrl(s[i]) {
        var buff;
        if !IsDigit(Next(s, i)) {
          buff := [BACKSLASH] + Decimal(s[i]);
        } else {
          buff := [BACKSLASH] + Decimal3(s[i]);
        }
        b := b + buff;
      } else {
        b := b + [s[i]];
      }
      QuoteAppended(s, i, b0, b);
      i := i + 1;
    }
    assert b + [] == b;
    b := b + [QUOTE];
  }

  lemma QuoteEnds(s: seq<byte>)
    ensures s[0..] == s && QuoteFrom(s[|s|..]) == []
  {
  }

  lemma QuoteAppended(s: seq<byte>, i: nat, b0: seq<byte>, b: seq<byte>)
    requires i < |s|
    requires b == b0 + (if s[i] == QUOTE || s[i] == BACKSLASH || s[i] == NEWLINE then [BACKSLASH, s[i]]
      else if s[i] == 0 || IsCntrl(s[i]) then [BACKSLASH] + if IsDigit(Next(s, i)) then Decimal3(s[i]) else Decimal(s[i])
      else [s[i]])
    ensures b + QuoteFrom(s[i + 1..]) == b0 + QuoteFrom(s[i..])
  {
    hide QuoteFrom, Decimal, Decimal3;
    QuoteStep(s, i);
    var q, tail := QuoteChar(s[i], Next(s, i)), QuoteFrom(s[i + 1..]);
    assert b == b0 + q;
    hide QuoteChar;
    assert (b0 + q) + tail == b0 + (q + tail);
  }

  // ---------- what string literals mean ----------

  /** A string literal read: its text, what comes after it, and the number of line ends passed. */
  datatype Lexed = Text(s: seq<byte>, rest: seq<byte>, lines: nat) | Malformed

  /** An escape sequence read: the bytes it stands for. */
  datatype Escape = Bytes(s: seq<byte>, rest: seq<byte>, lines: nat) | BadEscape

  function HexValue(c: byte): (v: int)
    requires IsXDigit(c)
    ensures 0 <= v < 16
  {
    if IsDigit(c) then c - '0' as int else if c >= 'a' as int then c - 'a' as int + 10 else c - 'A' as int + 10
  }

  /** The number of characters of a line end at the start of `t`: two for `\n\r` and `\r\n`. */
  function NewlineLength(t: seq<byte>): nat
    requires |t| > 0
  {
    if |t| > 1 && IsNewline(t[1]) && t[1] != t[0] then 2 else 1
  }

  /** The value of up to `n` decimal digits, and what follows. */
  function Digits(t: seq<byte>, n: nat, r: nat): (nat, seq<byte>) {
    if n > 0 && t != [] && IsDigit(t[0]) then Digits(t[1..], n - 1, 10 * r + (t[0] - '0' as int)) else (r, t)
  }

  /** The value of the hexadecimal digits up to a closing brace; `None` if it is too large or there is none. */
  function HexDigits(t: seq<byte>, r: nat): Option<(nat, seq<byte>)> {
    if r > 0x10FFFF || t == [] then None
    else if IsXDigit(t[0]) then HexDigits(t[1..], r * 16 + HexValue(t[0]))
    else if t[0] == '}' as int then Some((r, t[1..]))
    else None
  }

  /** UTF-8, as in section 3 of RFC 3629. */
  function Utf8(x: nat): seq<byte>
    requires x <= 0x10FFFF
  {
    if x < 0x80 then [x]
    else if x < 0x800 then [0xC0 + x / 64, 0x80 + x % 64]
    else if x < 0x10000 then [0xE0 + x / 4096, 0x80 + x / 64 % 64, 0x80 + x % 64]
    else [0xF0 + x / 262144, 0x80 + x / 4096 % 64, 0x80 + x / 64 % 64, 0x80 + x % 64]
  }

  /** White space skipped by `\z`. */
  function SkipSpaces(t: seq<byte>, lines: nat): (seq<byte>, nat)
    decreases |t|
  {
    if t == [] || !IsSpace(t[0]) then (t, lines)
    else if IsNewline(t[0]) then SkipSpaces(t[NewlineLength(t)..], lines + 1)
    else SkipSpaces(t[1..], lines)
  }

  function Simple(c: byte): Option<byte> {
    if c == 'a' as int then Some(7) else if c == 'b' as int then Some(8) else if c == 'f' as int then Some(12)
    else if c == 'n' as int then Some(10) else if c == 'r' as int then Some(13) else if c == 't' as int then Some(9)
    else if c == 'v' as int then Some(11)
    else if c == BACKSLASH || c == QUOTE || c == '\'' as int then Some(c)
    else None
  }

  /** The escape sequences of section 3.1 of the reference manual; `t` starts after the backslash. */
  function ReadEscape(t: seq<byte>): Escape {
    if t == [] then Bytes([], t, 0)
    else if Simple(t[0]).Some? then Bytes([Simple(t[0]).value], t[1..], 0)
    else if t[0] == 'x' as int then
      if |t| > 2 && IsXDigit(t[1]) && IsXDigit(t[2]) then Bytes([HexValue(t[1]) * 16 + HexValue(t[2])], t[3..], 0) else BadEscape
    else if t[0] == 'u' as int then
      if |t| > 2 && t[1] == '{' as int && IsXDigit(t[2]) then
        match HexDigits(t[2..], 0)
        case Some((v, rest)) => if v <= 0x10FFFF then Bytes(Utf8(v), rest, 0) else BadEscape
        case None => BadEscape
      else BadEscape
    else if IsNewline(t[0]) then Bytes([NEWLINE], t[NewlineLength(t)..], 1)
    else if t[0] == 'z' as int then var (rest, lines) := SkipSpaces(t[1..], 0); Bytes([], rest, lines)
    else if IsDigit(t[0]) then var (v, rest) := Digits(t, 3, 0); if v <= 255 then Bytes([v], rest, 0) else BadEscape
    else BadEscape
  }

  lemma DigitsShorter(t: seq<byte>, n: nat, r: nat)
    ensures |Digits(t, n, r).1| <= |t|
  {
  }

  lemma HexShorter(t: seq<byte>, r: nat)
    ensures HexDigits(t, r).Some? ==> |HexDigits(t, r).value.1| <= |t|
  {
  }

  lemma SpacesShorter(t: seq<byte>, lines: nat)
    ensures |SkipSpaces(t, lines).0| <= |t|
    decreases |t|
  {
  }

  lemma EscapeShorter(t: seq<byte>)
    ensures ReadEscape(t).Bytes? ==> |ReadEscape(t).rest| <= |t|
  {
    DigitsShorter(t, 3, 0);
    if |t| > 2 {
      HexShorter(t[2..], 0);
    }
    if |t| > 0 {
      SpacesShorter(t[1..], 0);
    }
  }

  /** The string literal with delimiter `del` whose text starts with `t`. */
  function ReadText(t: seq<byte>, del: byte): Lexed
    decreases |t|
  {
    if t == [] then Malformed
    else if t[0] == del then Text([], t[1..], 0)
    else if IsNewline(t[0]) then Malformed
    else if t[0] == BACKSLASH then
      EscapeShorter(t[1..]);
      match ReadEscape(t[1..])
      case Bytes(s, rest, lines) => Prepend(s, lines, ReadText(rest, del))
      case BadEscape => Malformed
    else Prepend([t[0]], 0, ReadText(t[1..], del))
  }

  function Prepend(s: seq<byte>, lines: nat, r: Lexed): Lexed {
    if r.Text? then Text(s + r.s, r.rest, lines + r.lines) else Malformed
  }

  // ---------- the round trip ----------

  function Count(s: seq<byte>, c: byte): nat {
    if s == [] then 0 else (if s[0] == c then 1 else 0) + Count(s[1..], c)
  }

  /** What follows a quoted character neither continues a number nor ends a line. */
  lemma FirstQuoted(s: seq<byte>, rest: seq<byte>)
    ensures var t := QuoteFrom(s) + [QUOTE] + rest;
      t != [] && !IsNewline(t[0]) && (IsDigit(t[0]) <==> s != [] && IsDigit(s[0]))
  {
    if s != [] {
      assert (QuoteFrom(s) + [QUOTE] + rest)[0] == QuoteChar(s[0], if |s| > 1 then s[1] else 0)[0];
    }
  }

  lemma ReadDecimal(c: byte, t: seq<byte>)
    requires t == [] || !IsDigit(t[0])
    ensures Digits(Decimal(c) + t, 3, 0) == (c as nat, t)
  {
    if c < 10 {
      assert (Decimal(c) + t)[1..] == t;
    } else if c < 100 {
      assert (Decimal(c) + t)[1..] == [Digit(c % 10)] + t;
      assert ([Digit(c % 10)] + t)[1..] == t;
      assert Digits(Decimal(c) + t, 3, 0) == Digits([Digit(c % 10)] + t, 2, c / 10) == Digits(t, 1, c / 10 * 10 + c % 10);
    } else {
      ReadDecimal3(c, t);
    }
  }

  /** Three digits end a decimal escape whatever follows. */
  lemma ReadDecimal3(c: byte, t: seq<byte>)
    ensures Digits(Decimal3(c) + t, 3, 0) == (c as nat, t)
  {
    var a, b, d := Digit(c / 100), Digit(c / 10 % 10), Digit(c % 10);
    assert (Decimal3(c) + t)[1..] == [b, d] + t;
    assert ([b, d] + t)[1..] == [d] + t;
    assert ([d] + t)[1..] == t;
    assert Digits(Decimal3(c) + t, 3, 0) == Digits([b, d] + t, 2, c / 100) == Digits([d] + t, 1, c / 100 * 10 + c / 10 % 10)
      == Digits(t, 0, (c / 100 * 10 + c / 10 % 10) * 10 + c % 10);
  }

  lemma EscapePair(c: byte, t: seq<byte>)
    requires c == QUOTE || c == BACKSLASH || c == NEWLINE
    requires t != [] && !IsNewline(t[0])
    ensures ReadEscape([c] + t) == Bytes([c], t, if c == NEWLINE then 1 else 0)
  {
    hide Digits, HexDigits, SkipSpaces, Utf8;
    assert ([c] + t)[0] == c && ([c] + t)[1..] == t;
  }

  lemma ReadPair(c: byte, t: seq<byte>)
    requires c == QUOTE || c == BACKSLASH || c == NEWLINE
    requires t != [] && !IsNewline(t[0])
    ensures ReadText([BACKSLASH, c] + t, QUOTE) == Prepend([c], if c == NEWLINE then 1 else 0, ReadText(t, QUOTE))
  {
    hide ReadEscape;
    EscapePair(c, t);
    assert ([BACKSLASH, c] + t)[1..] == [c] + t;
  }

  lemma ReadNumber(c: byte, d: seq<byte>, t: seq<byte>)
    requires d != [] && IsDigit(d[0]) && Digits(d + t, 3, 0) == (c as nat, t)
    ensures ReadText([BACKSLASH] + d + t, QUOTE) == Prepend([c], 0, ReadText(t, QUOTE))
  {
    var q := [BACKSLASH] + d + t;
    assert q[1..] == d + t;
    assert ReadEscape(d + t) == Bytes([c], t, 0) by {
      hide Digits;
    }
    hide ReadEscape, Digits;
  }

  lemma ReadPlain(c: byte, t: seq<byte>)
    requires c != QUOTE && c != BACKSLASH && !IsNewline(c)
    ensures ReadText([c] + t, QUOTE) == Prepend([c], 0, ReadText(t, QUOTE))
  {
    assert ([c] + t)[1..] == t;
  }

  lemma ReadQuotedChar(c: byte, next: byte, t: seq<byte>)
    requires t != [] && !IsNewline(t[0]) && (IsDigit(t[0]) <==> IsDigit(next))
    ensures ReadText(QuoteChar(c, next) + t, QUOTE) == Prepend([c], if c == NEWLINE then 1 else 0, ReadText(t, QUOTE))
  {
    hide ReadText, Digits;
    if c == QUOTE || c == BACKSLASH || c == NEWLINE {
      ReadPair(c, t);
    } else if c == 0 || IsCntrl(c) {
      if IsDigit(next) {
        ReadDecimal3(c, t);
        ReadNumber(c, Decimal3(c), t);
      } else {
        ReadDecimal(c, t);
        ReadNumber(c, Decimal(c), t);
      }
    } else {
      ReadPlain(c, t);
    }
  }

  /** Lexing the text that `%q` produces gives the string back, and passes its line ends, for every byte string. */
  lemma {:induction false} QuoteRoundTrip(s: seq<byte>, rest: seq<byte>)
    ensures ReadText(QuoteFrom(s) + [QUOTE] + rest, QUOTE) == Text(s, rest, Count(s, NEWLINE))
  {
    if s == [] {
      assert QuoteFrom(s) + [QUOTE] + rest == [QUOTE] + rest;
    } else {
      var c, next: byte := s[0], if |s| > 1 then s[1] else 0;
      var t := QuoteFrom(s[1..]) + [QUOTE] + rest;
      assert QuoteFrom(s) + [QUOTE] + rest == QuoteChar(c, next) + t;
      FirstQuoted(s[1..], rest);
      ReadQuotedChar(c, next, t);
      QuoteRoundTrip(s[1..], rest);
      assert [c] + s[1..] == s;
    }
  }
}
