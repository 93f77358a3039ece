/** Reading a string literal in the lexer. */
module StringLex {
  import opened Bytes
  import opened StringQuote
  import opened Wrappers

  const EOZ: int := -1
  const MAX_INT: int := 0x7fff_ffff

  datatype Status = Done | LexError

  class LexState {
    const input: seq<byte>
    var pos: nat
    var buff: seq<byte>
    var linenumber: int

    constructor (input: seq<byte>)
      ensures this.input == input && pos == 0 && buff == [] && linenumber == 1
    {
      this.input, pos, buff, linenumber := input, 0, [], 1;
    }

    ghost predicate Valid()
      reads this
    {
      pos <= |input|
    }

    ghost function Rest(): seq<byte>
      reads this
      requires Valid()
    {
      input[pos..]
    }

    /** `ls->current`. */
    function Current(): (c: int)
      reads this
      ensures pos < |input| ==> c == input[pos]
      ensures pos >= |input| ==> c == EOZ
    {
      if pos < |input| then input[pos] else EOZ
    }

    method Next()
      requires Valid()
      modifies `pos
      ensures Valid() && Rest() == if old(Rest()) == [] then [] else old(Rest())[1..]
      ensures pos == if old(pos) < |input| then old(pos) + 1 else old(pos)
    {
      if pos < |input| {
        pos := pos + 1;
      }
    }

    method SaveAndNext()
      requires Valid() && pos < |input|
      modifies `pos, `buff
      ensures Valid() && Rest() == old(Rest())[1..] && buff == old(buff) + [input[old(pos)]] && pos == old(pos) + 1
    {
      buff := buff + [input[pos]];
      pos := pos + 1;
    }

    /** `luaZ_buffremove`. */
    method BuffRemove(n: nat)
      requires n <= |buff|
      modifies `buff
      ensures buff == old(buff)[..|old(buff)| - n]
    {
      buff := buff[..|buff| - n];
    }

    /** `inclinenumber`. */
    method IncLineNumber() returns (r: Status)
      requires Valid() && IsNewline(Current())
      modifies `pos, `linenumber
      ensures Valid() && linenumber == old(linenumber) + 1 && Rest() == old(Rest())[NewlineLength(old(Rest()))..] && pos > old(pos)
      ensures r.Done? <==> linenumber < 2147483647
    {
      ghost var t := Rest();
      var first := Current();
      Next();
      if IsNewline(Current()) && Current() != first {
        assert t[1] == input[pos];
        Next();
        assert t[1..][1..] == t[2..];
      }
      linenumber := linenumber + 1;
      r := if linenumber >= MAX_INT then LexError else Done;
    }

    /** `readdecesc`: up to three digits; `-1` for "decimal escape too large". */
    method ReadDecEsc() returns (c: int)
      requires Valid()
      modifies `pos, `buff
      ensures Valid() && buff == old(buff) && pos >= old(pos) && (IsDigit(old(Current())) ==> pos > old(pos))
      ensures var (v, rest) := Digits(old(Rest()), 3, 0); Rest() == rest && c == if v <= 255 then v else -1
    {
      var i, r: nat := 0, 0;
      ghost var t, b := Rest(), buff;
      while i < 3 && IsDigit(Current())
        invariant 0 <= i <= 3 && Valid() && pos == old(pos) + i && |buff| == |b| + i && buff[..|b|] == b
        invariant Digits(t, 3, 0) == Digits(Rest(), 3 - i, r)
      {
        assert Rest()[0] == input[pos];
        r := 10 * r + (Current() - '0' as int);
        SaveAndNext();
        i := i + 1;
      }
      assert Rest() == [] || i == 3 || !IsDigit(Rest()[0]);
      BuffRemove(i);
      c := if r <= 255 then r else -1;
    }

    /** `gethexa`: `-1` for "hexadecimal digit expected". */
    method GetHexa() returns (v: int)
      requires Valid() && pos < |input|
      modifies `pos, `buff
      ensures Valid() && pos == old(pos) + 1 && Rest() == old(Rest())[1..] && buff == old(buff) + [input[old(pos)]]
      ensures IsXDigit(Current()) ==> v == HexValue(Current())
      ensures !IsXDigit(Current()) ==> v == -1
    {
      SaveAndNext();
      v := if IsXDigit(Current()) then HexValue(Current()) else -1;
    }

    /** `readhexaesc`, and the step over its last digit; `-1` for an error. */
    method ReadHexaEsc() returns (c: int)
      requires Valid() && Current() == 'x' as int
      modifies `pos, `buff
      ensures Valid() && pos > old(pos)
      ensures c >= 0 ==> c < 256 && ReadEscape(old(Rest())) == Bytes([c as byte], Rest(), 0) && buff == old(buff)
      ensures c < 0 ==> ReadEscape(old(Rest())) == BadEscape
    {
      ghost var t, b := Rest(), buff;
      var r := GetHexa();
      assert pos < |input| ==> t[1] == input[pos];
      if r < 0 {
        return -1;
      }
      var q := GetHexa();
      assert pos < |input| ==> t[2] == input[pos];
      if q < 0 {
        return -1;
      }
      BuffRemove(2);
      Next();
      assert t[1..][1..][1..] == t[3..];
      c := r * 16 + q;
    }

    /** `readutf8esc`: `-1` for an error. */
    method ReadUtf8Esc() returns (v: int)
      requires Valid() && Current() == 'u' as int && |buff| > 0
      modifies `pos, `buff
      ensures Valid() && pos > old(pos)
      ensures v >= 0 ==> v <= 0x10FFFF && ReadEscape(old(Rest())) == Bytes(Utf8(v), Rest(), 0) && buff == old(buff)[..|old(buff)| - 1]
      ensures v < 0 ==> ReadEscape(old(Rest())) == BadEscape
    {
      ghost var t, b := Rest(), buff;
      var i := 4;
      SaveAndNext();
      assert pos < |input| ==> t[1] == input[pos];
      if Current() != '{' as int {
        return -1;
      }
      var r := GetHexa();
      assert pos < |input| ==> t[2] == input[pos];
      if r < 0 {
        return -1;
      }
      assert t[1..][1..] == t[2..] == Rest();
      SaveAndNext();
      while IsXDigit(Current())
        invariant Valid() && pos > old(pos) && 0 <= r <= 0x10FFFF && i >= 4 && |buff| == |b| + i - 1 && buff[..|b|] == b
        invariant HexDigits(t[2..], 0) == HexDigits(Rest(), r)
        decreases |input| - pos
      {
        assert Rest()[0] == input[pos];
        i := i + 1;
        r := r * 16 + HexValue(Current());
        if r > 0x10FFFF {
          assert HexDigits(Rest()[1..], r) == None;
          return -1;
        }
        SaveAndNext();
      }
      assert pos < |input| ==> Rest()[0] == input[pos];
      if Current() != '}' as int {
        return -1;
      }
      Next();
      BuffRemove(i);
      v := r;
    }

    /** `\z`: a span of white space is skipped. */
    method SkipZ() returns (r: Status)
      requires Valid()
      modifies `pos, `linenumber
      ensures Valid() && pos >= old(pos) && linenumber >= old(linenumber)
      ensures r.Done? ==> (Rest(), (linenumber - old(linenumber)) as nat) == SkipSpaces(old(Rest()), 0)
      ensures r.LexError? ==> linenumber >= MAX_INT && SkipSpaces(old(Rest()), 0).1 >= linenumber - old(linenumber)
    {
      ghost var t := Rest();
      while IsSpace(Current())
        invariant Valid() && pos >= old(pos) && linenumber >= old(linenumber)
        invariant SkipSpaces(t, 0) == SkipSpaces(Rest(), (linenumber - old(linenumber)) as nat)
        decreases |input| - pos
      {
        assert Rest()[0] == input[pos];
        if IsNewline(Current()) {
          r := IncLineNumber();
          if r.LexError? {
            SpacesGrow(Rest(), (linenumber - old(linenumber)) as nat);
            return;
          }
        } else {
          Next();
        }
      }
      assert Rest() == [] || Rest()[0] == input[pos];
      return Done;
    }

    /** One escape sequence of `read_string`. */
    method ReadEscapeSequence() returns (r: Status)
      requires Valid() && Current() == BACKSLASH
      modifies `pos, `buff, `linenumber
      ensures Valid() && pos > old(pos) && linenumber >= old(linenumber)
      ensures r.Done? ==> var e := ReadEscape(old(Rest())[1..]);
        e.Bytes? && e.rest == Rest() && buff == old(buff) + e.s && linenumber == old(linenumber) + e.lines
      ensures r.LexError? ==> var e := ReadEscape(old(Rest())[1..]);
        e == BadEscape || (linenumber >= MAX_INT && e.lines >= linenumber - old(linenumber))
    {
      hide ReadEscape, Simple, SkipSpaces, Utf8, Digits;
      ghost var b := buff;
      SaveAndNext();
      ghost var t := Rest();
      assert pos < |input| ==> t[0] == input[pos];
      EscapeCases(t);
      var current := Current();
      if current == EOZ {
        // The backslash stays in the buffer; the next turn of the loop reports the end of the text.
        BuffRemove(1);
        return Done;
      } else if Simple(current).Some? {
        Next();
        BuffRemove(1);
        buff := buff + [Simple(current).value];
        return Done;
      } else if current == 'x' as int {
        var c := ReadHexaEsc();
        if c < 0 {
          return LexError;
        }
        BuffRemove(1);
        buff := buff + [c];
        return Done;
      } else if current == 'u' as int {
        var v := ReadUtf8Esc();
        if v < 0 {
          return LexError;
        }
        assert buff == b;
        var bytes := Utf8Esc(v);
        buff := buff + bytes;
        return Done;
      } else if IsNewline(current) {
        r := IncLineNumber();
        if r.Done? {
          BuffRemove(1);
          buff := buff + [NEWLINE];
        }
      } else if current == 'z' as int {
        BuffRemove(1);
        Next();
        r := SkipZ();
      } else {
        if !IsDigit(current) {
          return LexError;
        }
        var c := ReadDecEsc();
        DecimalEscape(t);
        if c < 0 {
          return LexError;
        }
        BuffRemove(1);
        buff := buff + [c];
        return Done;
      }
    }

    /** `read_string`: the text of the literal, as the manual defines it. */
    method ReadString(del: byte) returns (r: Status, s: seq<byte>)
      requires Valid() && Current() == del && buff == [] && !IsNewline(del) && del != BACKSLASH
      modifies `pos, `buff, `linenumber
      ensures r.Done? ==> Valid() && var l := ReadText(old(Rest())[1..], del);
        l.Text? && s == l.s && Rest() == l.rest && linenumber == old(linenumber) + l.lines
      ensures r.LexError? ==> var l := ReadText(old(Rest())[1..], del);
        l == Malformed || old(linenumber) + l.lines >= 2147483647
    {
      hide ReadText, ReadEscape;
      ghost var acc: seq<byte>, t := [], Rest()[1..];
      s := [];
      SaveAndNext();
      PrependNone(ReadText(t, del));
      while Current() != del
        invariant Valid() && buff == [del] + acc && linenumber >= old(linenumber)
        invariant ReadText(t, del) == Prepend(acc, (linenumber - old(linenumber)) as nat, ReadText(Rest(), del))
        decreases |input| - pos
      {
        ghost var u, l, a := Rest(), linenumber, acc;
        ghost var n := (l - old(linenumber)) as nat;
        assert pos < |input| ==> u[0] == input[pos];
        TextStep(u, del);
        if Current() == EOZ || IsNewline(Current()) {
          return LexError, [];
        } else if Current() == BACKSLASH {
          r := ReadEscapeSequence();
          if r.LexError? {
            EscapeError(a, n, u[1..], ReadText(u, del), del);
            return;
          }
          ghost var e := ReadEscape(u[1..]);
          acc := acc + e.s;
          PrependTwice(a, n, e.s, e.lines, ReadText(Rest(), del));
        } else {
          SaveAndNext();
          acc := acc + [u[0]];
          PrependTwice(a, n, [u[0]], 0, ReadText(Rest(), del));
        }
      }
      assert Rest()[0] == input[pos];
      TextStep(Rest(), del);
      SaveAndNext();
      s := buff[1..|buff| - 1];
      assert s == acc + [];
      return Done, s;
    }
  }

  lemma EscapeCases(t: seq<byte>)
    ensures t == [] ==> ReadEscape(t) == Bytes([], t, 0)
    ensures t != [] && Simple(t[0]).Some? ==> ReadEscape(t) == Bytes([Simple(t[0]).value], t[1..], 0)
    ensures t != [] && IsNewline(t[0]) ==> Simple(t[0]).None? && ReadEscape(t) == Bytes([NEWLINE], t[NewlineLength(t)..], 1)
    ensures t != [] && t[0] == 'z' as int ==> Simple(t[0]).None? && ReadEscape(t) == Bytes([], SkipSpaces(t[1..], 0).0, SkipSpaces(t[1..], 0).1)
    ensures t != [] && Simple(t[0]).None? && t[0] != 'x' as int && t[0] != 'u' as int && t[0] != 'z' as int && !IsNewline(t[0]) && !IsDigit(t[0]) ==>
      ReadEscape(t) == BadEscape
  {
    hide SkipSpaces;
  }

  lemma DecimalEscape(t: seq<byte>)
    requires t != [] && IsDigit(t[0])
    ensures Digits(t, 3, 0).0 > 255 ==> ReadEscape(t) == BadEscape
    ensures Digits(t, 3, 0).0 <= 255 ==> ReadEscape(t) == Bytes([Digits(t, 3, 0).0], Digits(t, 3, 0).1, 0)
  {
    hide Digits;
  }

  lemma PrependNone(r: Lexed)
    ensures Prepend([], 0, r) == r
  {
  }

  lemma PrependTwice(s: seq<byte>, n: nat, u: seq<byte>, m: nat, r: Lexed)
    ensures Prepend(s, n, Prepend(u, m, r)) == Prepend(s + u, n + m, r)
  {
    if r.Text? {
      assert s + (u + r.s) == s + u + r.s;
    }
  }

  /** One turn of the loop. */
  lemma TextStep(t: seq<byte>, del: byte)
    ensures t == [] ==> ReadText(t, del) == Malformed
    ensures t != [] && t[0] == del ==> ReadText(t, del) == Text([], t[1..], 0)
    ensures t != [] && t[0] != del && IsNewline(t[0]) ==> ReadText(t, del) == Malformed
    ensures t != [] && t[0] != del && t[0] == BACKSLASH ==>
      var e := ReadEscape(t[1..]);
      ReadText(t, del) == if e.Bytes? then Prepend(e.s, e.lines, ReadText(e.rest, del)) else Malformed
    ensures t != [] && t[0] != del && !IsNewline(t[0]) && t[0] != BACKSLASH ==> ReadText(t, del) == Prepend([t[0]], 0, ReadText(t[1..], del))
  {
    hide ReadEscape;
  }

  lemma EscapeError(acc: seq<byte>, n: nat, t: seq<byte>, r: Lexed, del: byte)
    requires ReadEscape(t) == BadEscape ==> r == Malformed
    requires ReadEscape(t).Bytes? ==> r == Prepend(ReadEscape(t).s, ReadEscape(t).lines, ReadText(ReadEscape(t).rest, del))
    ensures Prepend(acc, n, r).Text? ==> ReadEscape(t).Bytes? && Prepend(acc, n, r).lines >= n + ReadEscape(t).lines
  {
    hide ReadEscape, ReadText;
  }

  lemma SpacesGrow(t: seq<byte>, lines: nat)
    ensures SkipSpaces(t, lines).1 >= lines
    decreases |t|
  {
  }

  /** `luaO_utf8esc`: the bytes are built from the last one. */
  method Utf8Esc(x0: nat) returns (buff: seq<byte>)
    requires x0 <= 0x10FFFF
    ensures buff == Utf8(x0)
  {
    hide Utf8;
    Utf8Cases(x0);
    var x := x0;
    if x < 0x80 {
      return [x];
    }
    var mfb := 0x3f;
    buff := [0x80 + x % 64];
    x, mfb := x / 64, 0x1f;
    while x > mfb
      invariant (mfb == 0x1f && x == x0 / 64 && buff == [0x80 + x0 % 64])
             || (mfb == 0x0f && x == x0 / 64 / 64 && x0 >= 0x800 && buff == [0x80 + x0 / 64 % 64, 0x80 + x0 % 64])
             || (mfb == 0x07 && x == x0 / 64 / 64 / 64 && x0 >= 0x10000 && buff == [0x80 + x0 / 64 / 64 % 64, 0x80 + x0 / 64 % 64, 0x80 + x0 % 64])
      decreases mfb
    {
      buff := [0x80 + x % 64] + buff;
      x, mfb := x / 64, mfb / 2;
    }
    // The first byte: as many one bits as there are bytes, then what is left of the value.
    buff := [256 - 2 * (mfb + 1) + x] + buff;
  }

  lemma Utf8Cases(x: nat)
    requires x <= 0x10FFFF
    ensures x < 0x80 ==> Utf8(x) == [x]
    ensures 0x80 <= x < 0x800 ==> Utf8(x) == [0xC0 + x / 64, 0x80 + x % 64]
    ensures 0x800 <= x < 0x10000 ==> Utf8(x) == [0xE0 + x / 64 / 64, 0x80 + x / 64 % 64, 0x80 + x % 64]
    ensures 0x10000 <= x ==> Utf8(x) == [0xF0 + x / 64 / 64 / 64, 0x80 + x / 64 / 64 % 64, 0x80 + x / 64 % 64, 0x80 + x % 64]
  {
  }

  /** What `%q` writes, the lexer reads back: the same bytes, with as many lines passed as the string has
      line ends; the only error is a chunk with too many lines. */
  method QuoteAndRead(s: seq<byte>) returns (r: Status, back: seq<byte>)
    ensures r.Done? ==> back == s
    ensures 1 + Count(s, NEWLINE) < 2147483647 ==> r.Done?
  {
    var text := AddQuoted(s);
    var ls := new LexState(text);
    assert ls.Rest() == text;
    assert text[1..] == QuoteFrom(s) + [QUOTE] + [];
    QuoteRoundTrip(s, []);
    r, back := ls.ReadString(QUOTE);
  }
}
