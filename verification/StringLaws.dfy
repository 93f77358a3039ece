/** Section 3.1 of the Lua 5.3 manual: what escape sequences stand for; and what `%q` writes. */
module StringLaws {
  import opened Bytes
  import opened StringQuote
  import opened Wrappers

  // ---------- what `%q` writes ----------

  /** Quotes, backslashes and newlines get a backslash. */
  lemma QuotedPair(c: byte, s: seq<byte>)
    requires c == 34 || c == 92 || c == 10
    ensures QuoteFrom([c] + s) == [92, c] + QuoteFrom(s)
  {
    assert ([c] + s)[1..] == s;
  }

  /** Zeros and control characters are written with the fewest digits, or with three before a digit. */
  lemma QuotedControl(c: byte, s: seq<byte>)
    requires (c < 32 || c == 127) && c != 10
    ensures QuoteFrom([c] + s) == (if s != [] && 48 <= s[0] <= 57 then [92, 48 + c / 100, 48 + c / 10 % 10, 48 + c % 10]
      else if c < 10 then [92, 48 + c] else if c < 100 then [92, 48 + c / 10, 48 + c % 10] else [92, 49, 50, 55]) + QuoteFrom(s)
  {
    hide QuoteFrom, QuoteChar;
    ControlText(c, if s != [] then s[0] else 0);
    QuoteOne(c, s);
  }

  lemma ControlText(c: byte, next: byte)
    requires (c < 32 || c == 127) && c != 10
    ensures QuoteChar(c, next) == if 48 <= next <= 57 then [92, 48 + c / 100, 48 + c / 10 % 10, 48 + c % 10]
      else if c < 10 then [92, 48 + c] else if c < 100 then [92, 48 + c / 10, 48 + c % 10] else [92, 49, 50, 55]
  {
  }

  lemma QuoteOne(c: byte, s: seq<byte>)
    ensures QuoteFrom([c] + s) == QuoteChar(c, if s != [] then s[0] else 0) + QuoteFrom(s)
  {
    hide QuoteChar;
    var t := [c] + s;
    assert t[0] == c && t[1..] == s && (s != [] ==> t[1] == s[0]);
  }

  /** All other characters are written as they are. */
  lemma QuotedPlain(c: byte, s: seq<byte>)
    requires c >= 32 && c != 127 && c != 34 && c != 92
    ensures QuoteFrom([c] + s) == [c] + QuoteFrom(s)
  {
    assert ([c] + s)[1..] == s;
  }

  lemma QuotedWhole(s: seq<byte>)
    ensures QuoteFrom([]) == [] && Quoted(s) == [34] + QuoteFrom(s) + [34]
  {
  }

  // ---------- what escape sequences stand for ----------

  /** One character after the backslash, and the byte that it means: bell, backspace, form feed, newline, carriage return,
      tabulators, the backslash and the quotes. */
  predicate NamedEscape(c: byte, b: byte) {
    || (c == 'a' as int && b == 7) || (c == 'b' as int && b == 8) || (c == 'f' as int && b == 12) || (c == 'n' as int && b == 10)
    || (c == 'r' as int && b == 13) || (c == 't' as int && b == 9) || (c == 'v' as int && b == 11)
    || (c == 92 && b == 92) || (c == 34 && b == 34) || (c == 39 && b == 39)
  }

  lemma NamedEscapes(c: byte, b: byte, t: seq<byte>)
    requires NamedEscape(c, b)
    ensures ReadEscape([c] + t) == Bytes([b], t, 0)
  {
    hide Digits, HexDigits, SkipSpaces, Utf8;
    assert ([c] + t)[1..] == t;
  }

  /** The hexadecimal digit of value `v`. */
  function HexDigit(v: nat, upper: bool): byte
    requires v < 16
  {
    if v < 10 then 48 + v else if upper then 55 + v else 87 + v
  }

  lemma HexDigitIs(v: nat, upper: bool)
    requires v < 16
    ensures IsXDigit(HexDigit(v, upper)) && HexValue(HexDigit(v, upper)) == v
  {
  }

  /** `\xXX`. */
  lemma HexEscape(a: nat, b: nat, u: bool, w: bool, t: seq<byte>)
    requires a < 16 && b < 16
    ensures ReadEscape(['x' as int, HexDigit(a, u), HexDigit(b, w)] + t) == Bytes([16 * a + b], t, 0)
  {
    hide Digits, HexDigits, SkipSpaces, Utf8, HexValue, HexDigit;
    HexDigitIs(a, u);
    HexDigitIs(b, w);
    var s := ['x' as int, HexDigit(a, u), HexDigit(b, w)] + t;
    assert s[0] == 'x' as int && s[1] == HexDigit(a, u) && s[2] == HexDigit(b, w) && s[3..] == t;
  }

  lemma NoHexEscape(s: seq<byte>)
    requires s != [] && s[0] == 'x' as int && (|s| < 3 || !IsXDigit(s[1]) || !IsXDigit(s[2]))
    ensures ReadEscape(s) == BadEscape
  {
    hide Digits, HexDigits, SkipSpaces, Utf8, HexValue;
  }

  /** `\ddd`: one, two or three digits, as many as there are. */
  lemma OneDigitEscape(a: nat, t: seq<byte>)
    requires a < 10 && (t == [] || !(48 <= t[0] <= 57))
    ensures ReadEscape([48 + a] + t) == Bytes([a], t, 0)
  {
    hide ReadEscape, Digits;
    OneDigit([48 + a] + t);
    assert ([48 + a] + t)[1..] == t;
    DigitStep([48 + a] + t, 3, 0);
    DigitStep(t, 2, a);
  }

  lemma TwoDigitEscape(a: nat, b: nat, t: seq<byte>)
    requires a < 10 && b < 10 && (t == [] || !(48 <= t[0] <= 57))
    ensures ReadEscape([48 + a, 48 + b] + t) == Bytes([10 * a + b], t, 0)
  {
    hide ReadEscape, Digits;
    var r, q := [48 + a, 48 + b] + t, [48 + b] + t;
    assert r[1..] == q && q[1..] == t;
    OneDigit(r);
    DigitStep(r, 3, 0);
    DigitStep(q, 2, a);
    DigitStep(t, 1, 10 * a + b);
  }

  /** A value above 255 is an error. */
  lemma ThreeDigitEscape(a: nat, b: nat, c: nat, t: seq<byte>)
    requires a < 10 && b < 10 && c < 10
    ensures var v := 100 * a + 10 * b + c; ReadEscape([48 + a, 48 + b, 48 + c] + t) == if v <= 255 then Bytes([v], t, 0) else BadEscape
  {
    hide ReadEscape, Digits;
    var r, q, p := [48 + a, 48 + b, 48 + c] + t, [48 + b, 48 + c] + t, [48 + c] + t;
    assert r[1..] == q && q[1..] == p && p[1..] == t;
    OneDigit(r);
    DigitStep(r, 3, 0);
    DigitStep(q, 2, a);
    DigitStep(p, 1, 10 * a + b);
    DigitStep(t, 0, 100 * a + 10 * b + c);
  }

  lemma OneDigit(s: seq<byte>)
    requires s != [] && 48 <= s[0] <= 57
    ensures ReadEscape(s) == var (v, rest) := Digits(s, 3, 0); if v <= 255 then Bytes([v], rest, 0) else BadEscape
  {
    hide Digits, HexDigits, SkipSpaces, Utf8;
  }

  lemma DigitStep(s: seq<byte>, n: nat, r: nat)
    ensures Digits(s, n, r) == if n > 0 && s != [] && 48 <= s[0] <= 57 then Digits(s[1..], n - 1, 10 * r + (s[0] - 48)) else (r, s)
  {
  }

  /** `\u{XXX}` with any number of digits: a value up to 0x10FFFF, in UTF-8. */
  lemma UnicodeEscape(v: nat, upper: bool, s: seq<byte>, t: seq<byte>)
    requires v < 16 && |s| >= 1 && s[|s| - 1] == '}' as int && forall i :: 0 <= i < |s| - 1 ==> IsXDigit(s[i])
    ensures var n := HexNumber(v, s[..|s| - 1]);
      ReadEscape(['u' as int, '{' as int, HexDigit(v, upper)] + s + t) == if n <= 0x10FFFF then Bytes(Utf8(n), t, 0) else BadEscape
  {
    hide Digits, HexDigits, SkipSpaces, Utf8, HexValue, HexDigit, HexNumber;
    HexDigitIs(v, upper);
    var d := HexDigit(v, upper);
    var r := ['u' as int, '{' as int, d] + s + t;
    assert r[0] == 'u' as int && r[1] == '{' as int && r[2] == d && r[2..] == [d] + (s + t);
    HexStep(d, s + t, 0);
    HexRead(v, s, t);
  }

  /** The value of hexadecimal digits after `r`. */
  function HexNumber(r: nat, s: seq<byte>): nat
    requires forall i :: 0 <= i < |s| ==> IsXDigit(s[i])
    decreases |s|
  {
    if s == [] then r else HexNumber(16 * r + HexValue(s[0]), s[1..])
  }

  lemma HexStep(d: byte, t: seq<byte>, r: nat)
    requires IsXDigit(d) && r <= 0x10FFFF
    ensures HexDigits([d] + t, r) == HexDigits(t, r * 16 + HexValue(d))
  {
    assert ([d] + t)[1..] == t;
  }

  lemma {:induction false} HexRead(r: nat, s: seq<byte>, t: seq<byte>)
    requires |s| >= 1 && s[|s| - 1] == '}' as int && forall i :: 0 <= i < |s| - 1 ==> IsXDigit(s[i])
    ensures var n := HexNumber(r, s[..|s| - 1]); n >= r && HexDigits(s + t, r) == if n <= 0x10FFFF then Some((n, t)) else None
    decreases |s|
  {
    if |s| == 1 {
      assert (s + t)[0] == '}' as int && (s + t)[1..] == t;
    } else {
      var q := s[1..];
      assert s + t == [s[0]] + (q + t) && s[..|s| - 1][1..] == q[..|q| - 1];
      HexRead(16 * r + HexValue(s[0]), q, t);
      if r <= 0x10FFFF {
        HexStep(s[0], q + t, r);
      }
    }
  }

  function Rest(b: int, m: int): int
    requires m > 0
  {
    b % m
  }

  /** UTF-8: how many bytes, what they look like, and that they give the value back (section 3 of RFC 3629). */
  lemma Utf8Decodes(x: nat)
    requires x <= 0x10FFFF
    ensures var s := Utf8(x);
      && |s| == (if x < 0x80 then 1 else if x < 0x800 then 2 else if x < 0x10000 then 3 else 4)
      && (forall i :: 1 <= i < |s| ==> 0x80 <= s[i] < 0xC0)
      && (|s| == 1 ==> s[0] == x)
      && (|s| == 2 ==> 0xC0 <= s[0] < 0xE0 && 0x40 * Rest(s[0], 0x20) + Rest(s[1], 0x40) == x)
      && (|s| == 3 ==> 0xE0 <= s[0] < 0xF0 && 0x1000 * Rest(s[0], 0x10) + 0x40 * Rest(s[1], 0x40) + Rest(s[2], 0x40) == x)
      && (|s| == 4 ==> 0xF0 <= s[0] < 0xF8 && 0x40000 * Rest(s[0], 8) + 0x1000 * Rest(s[1], 0x40) + 0x40 * Rest(s[2], 0x40) + Rest(s[3], 0x40) == x)
  {
    hide Rest;
    if x >= 0x10000 {
      FourBytes(x);
    } else if x >= 0x800 {
      ThreeBytes(x);
    } else if x >= 0x80 {
      TwoBytes(x);
    }
  }

  lemma TwoBytes(x: nat)
    requires 0x80 <= x < 0x800
    ensures 0x40 * Rest(0xC0 + x / 0x40, 0x20) + Rest(0x80 + x % 0x40, 0x40) == x
  {
    LeadByte(0xC0, 0x20, x / 0x40);
    LeadByte(0x80, 0x40, x % 0x40);
  }

  lemma ThreeBytes(x: nat)
    requires 0x800 <= x < 0x10000
    ensures 0x1000 * Rest(0xE0 + x / 0x1000, 0x10) + 0x40 * Rest(0x80 + x / 0x40 % 0x40, 0x40) + Rest(0x80 + x % 0x40, 0x40) == x
  {
    SixBits(x);
    LeadByte(0xE0, 0x10, x / 0x1000);
    LeadByte(0x80, 0x40, x / 0x40 % 0x40);
    LeadByte(0x80, 0x40, x % 0x40);
  }

  lemma FourBytes(x: nat)
    requires 0x10000 <= x <= 0x10FFFF
    ensures 0x40000 * Rest(0xF0 + x / 0x40000, 8) + 0x1000 * Rest(0x80 + x / 0x1000 % 0x40, 0x40)
      + 0x40 * Rest(0x80 + x / 0x40 % 0x40, 0x40) + Rest(0x80 + x % 0x40, 0x40) == x
  {
    SixBits(x);
    LeadByte(0xF0, 8, x / 0x40000);
    LeadByte(0x80, 0x40, x / 0x1000 % 0x40);
    LeadByte(0x80, 0x40, x / 0x40 % 0x40);
    LeadByte(0x80, 0x40, x % 0x40);
  }

  lemma SixBits(x: nat)
    ensures x == 0x40 * (x / 0x40) + x % 0x40
    ensures x / 0x40 == 0x40 * (x / 0x1000) + x / 0x40 % 0x40
    ensures x / 0x1000 == 0x40 * (x / 0x40000) + x / 0x1000 % 0x40
  {
  }

  lemma LeadByte(base: nat, size: nat, v: nat)
    requires (base == 0xC0 && size == 0x20) || (base == 0xE0 && size == 0x10) || (base == 0xF0 && size == 8) || (base == 0x80 && size == 0x40)
    ensures v < size ==> (base + v) % size == v
  {
  }

  /** A line end after the backslash, of one or of two different characters, is a newline. */
  lemma LineEndEscape(c: byte, d: byte, t: seq<byte>)
    requires (c == 10 && d == 13) || (c == 13 && d == 10)
    ensures t == [] || t[0] != d ==> ReadEscape([c] + t) == Bytes([10], t, 1)
    ensures ReadEscape([c, d] + t) == Bytes([10], t, 1)
  {
    hide Digits, HexDigits, SkipSpaces, Utf8;
    var one, two := [c] + t, [c, d] + t;
    assert one[0] == c && one[1..] == t && two[0] == c && two[1] == d && two[2..] == t;
  }

  lemma {:induction false} SkipRow(s: seq<byte>, t: seq<byte>, lines: nat)
    requires forall i :: 0 <= i < |s| ==> s[i] == 32 || s[i] == 9 || s[i] == 11 || s[i] == 12
    requires t == [] || !(t[0] == 32 || 9 <= t[0] <= 13)
    ensures SkipSpaces(s + t, lines) == (t, lines)
    decreases |s|
  {
    if s == [] {
      assert s + t == t;
    } else {
      SkipRow(s[1..], t, lines);
      assert (s + t)[0] == s[0] && (s + t)[1..] == s[1..] + t;
    }
  }

  /** `\z` skips the white space that follows, line ends included. */
  lemma SkipEscape(s: seq<byte>, t: seq<byte>, u: seq<byte>)
    requires forall i :: 0 <= i < |s| ==> s[i] == 32 || s[i] == 9 || s[i] == 11 || s[i] == 12
    requires forall i :: 0 <= i < |t| ==> t[i] == 32 || t[i] == 9 || t[i] == 11 || t[i] == 12
    requires u == [] || !(u[0] == 32 || 9 <= u[0] <= 13)
    ensures ReadEscape(['z' as int] + (s + u)) == Bytes([], u, 0)
    ensures ReadEscape(['z' as int] + ([10] + (t + u))) == Bytes([], u, 1)
  {
    SkipStart(s + u);
    SkipRow(s, u, 0);
    SkipStart([10] + (t + u));
    SkipRow(t, u, 1);
    SkipLine(t + u);
  }

  lemma SkipLine(r: seq<byte>)
    requires r == [] || r[0] != 13
    ensures SkipSpaces([10] + r, 0) == SkipSpaces(r, 1)
  {
    assert ([10] + r)[1..] == r;
  }

  lemma SkipStart(r: seq<byte>)
    ensures ReadEscape(['z' as int] + r) == Bytes([], SkipSpaces(r, 0).0, SkipSpaces(r, 0).1)
  {
    hide SkipSpaces;
    assert (['z' as int] + r)[1..] == r;
  }

  /** The text of a literal: its delimiter ends it, a line end does not belong into it. */
  lemma LiteralEnds(t: seq<byte>, del: byte)
    requires del == 34 || del == 39
    ensures ReadText([del] + t, del) == Text([], t, 0) && ReadText([10] + t, del) == Malformed && ReadText([13] + t, del) == Malformed
    ensures ReadText([], del) == Malformed
  {
    assert ([del] + t)[1..] == t;
  }

  lemma OneCharacter(c: byte, t: seq<byte>, del: byte)
    requires c != del && c != 92 && c != 10 && c != 13
    ensures ReadText([c] + t, del) == if ReadText(t, del).Text? then Text([c] + ReadText(t, del).s, ReadText(t, del).rest, ReadText(t, del).lines) else Malformed
  {
    assert ([c] + t)[1..] == t;
  }
}
