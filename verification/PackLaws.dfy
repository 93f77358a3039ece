/** Section 6.4.2 of the Lua 5.3 manual: what `string.pack` writes for each option. */
module PackLaws {
  import opened Bytes
  import opened Division
  import opened PackInts
  import opened PackFormat
  import opened PackFields
  import opened PackRoundTrip
  import opened PackStrings
  import opened Powers

  // ---------- option by option ----------

  /** What is packed from option `i` on. */
  function TextFrom(pl: Platform, h: Header, fmt: seq<byte>, i: nat, total: nat, args: seq<Val>): Result<seq<byte>> {
    var fs :- Fields(pl, h, fmt, i, total, args); Ok(Text(pl, fs))
  }

  lemma OptionText(pl: Platform, h: Header, fmt: seq<byte>, i: nat, total: nat, args: seq<Val>, d: Details)
    requires i < |fmt| && fmt[i] != 0 && DetailsAt(h, total, fmt, i, pl.little) == Ok(d) && (Takes(d.kind) ==> args != [])
    ensures var body := Body(pl, FieldOf(d, args));
      TextFrom(pl, h, fmt, i, total, args) ==
        if body.Err? then Err(body.error)
        else
          var rest := TextFrom(pl, d.head, fmt, d.next, total + d.ntoalign + |body.value|, Left(d.kind, args));
          if rest.Err? then rest else Ok(Zeros(d.ntoalign) + body.value + rest.value)
  {
    hide DetailsAt, Body;
    var f := FieldOf(d, args);
    if Body(pl, f).Ok? {
      var rest := Fields(pl, d.head, fmt, d.next, total + d.ntoalign + |Body(pl, f).value|, Left(d.kind, args));
      if rest.Ok? {
        assert ([f] + rest.value)[0] == f && ([f] + rest.value)[1..] == rest.value;
      }
    }
  }

  lemma TextEnd(pl: Platform, h: Header, fmt: seq<byte>, total: nat, args: seq<Val>)
    ensures TextFrom(pl, h, fmt, |fmt|, total, args) == Ok([])
  {
  }

  predicate IsOrder(o: byte) {
    o == '<' as int || o == '>' as int || o == '=' as int
  }

  /** Whether the lowest byte comes first after `<`, after `>`, and in the order of the machine. */
  function LowFirst(pl: Platform, o: byte): bool {
    if o == '<' as int then true else if o == '>' as int then false else pl.little
  }

  lemma OrderDetails(pl: Platform, o: byte, fmt: seq<byte>, i: nat, h: Header, total: nat)
    requires IsOrder(o) && i < |fmt| && fmt[i] == o
    ensures DetailsAt(h, total, fmt, i, pl.little) == Ok(Details(Knop, 0, 0, i + 1, h.(islittle := LowFirst(pl, o))))
  {
  }

  /** The first character gives the byte order for the option that follows. */
  lemma OrderThen(pl: Platform, o: byte, t: seq<byte>, args: seq<Val>)
    requires IsOrder(o)
    ensures Packed(pl, [o] + t, args) == TextFrom(pl, Header(LowFirst(pl, o), 1), [o] + t, 1, 0, args)
  {
    hide DetailsAt, TextFrom, Packed, IsOrder, LowFirst;
    var fmt, h := [o] + t, Header(pl.little, 1);
    OrderNotZero(o);
    OrderDetails(pl, o, fmt, 0, h, 0);
    WholeText(pl, fmt, args);
    AlignText(pl, h, fmt, args, Header(LowFirst(pl, o), 1));
  }

  lemma OrderNotZero(o: byte)
    requires IsOrder(o)
    ensures o != 0
  {
  }

  /** Without alignment. */
  lemma PlainDetails(h: Header, fmt: seq<byte>, i: nat, native: bool, k: Kind, size: nat, next: nat)
    requires i < |fmt| && h.maxalign == 1 && k != Kpaddalign && OptionAt(h, fmt, i, native) == Ok(Option(k, size, next, h))
    ensures DetailsAt(h, 0, fmt, i, native) == Ok(Details(k, size, 0, next, h))
  {
    hide OptionAt;
    GapLeast(0, 1, 0);
  }

  /** One option, of one argument, without alignment. */
  lemma SingleOption(pl: Platform, o: byte, t: seq<byte>, k: Kind, size: nat, args: seq<Val>)
    requires IsOrder(o) && t != [] && t[0] != 0 && |args| == if Takes(k) then 1 else 0
    requires k != Kpaddalign && OptionAt(Header(LowFirst(pl, o), 1), [o] + t, 1, pl.little) == Ok(Option(k, size, 1 + |t|, Header(LowFirst(pl, o), 1)))
    ensures Packed(pl, [o] + t, args) == Body(pl, Field(0, k, size, LowFirst(pl, o), if Takes(k) then args[0] else Str([])))
  {
    hide OptionAt, DetailsAt, TextFrom, Body, Packed, IsOrder, LowFirst;
    var fmt, h := [o] + t, Header(LowFirst(pl, o), 1);
    OrderThen(pl, o, t, args);
    var d := Details(k, size, 0, 1 + |t|, h);
    PlainDetails(h, fmt, 1, pl.little, k, size, 1 + |t|);
    assert fmt[1] == t[0] && Left(k, args) == [];
    OptionText(pl, h, fmt, 1, 0, args, d);
    var body := Body(pl, FieldOf(d, args));
    if body.Ok? {
      TextEnd(pl, h, fmt, |body.value|, []);
      assert Zeros(0) + body.value + [] == body.value;
    }
  }

  // ---------- integers ----------

  /** The options for integers, with their sizes. */
  predicate IntegerOption(t: seq<byte>, size: nat, signed: bool) {
    || (|t| == 1 && IntegerLetter(t[0], size, signed))
    || (|t| == 2 && t[0] == (if signed then 'i' as int else 'I' as int) && 1 <= size <= 9 && t[1] == 48 + size)
    || (|t| == 3 && t[0] == (if signed then 'i' as int else 'I' as int) && 10 <= size <= 16 && t[1] == 49 && t[2] == 38 + size)
  }

  predicate IntegerLetter(c: byte, size: nat, signed: bool) {
    if signed then
      || (c == 'b' as int && size == 1) || (c == 'h' as int && size == 2) || (c == 'i' as int && size == 4)
      || (c == 'l' as int && size == 8) || (c == 'j' as int && size == 8)
    else
      || (c == 'B' as int && size == 1) || (c == 'H' as int && size == 2) || (c == 'I' as int && size == 4)
      || (c == 'L' as int && size == 8) || (c == 'J' as int && size == 8) || (c == 'T' as int && size == 8)
  }

  lemma IntegerOptionAt(o: byte, t: seq<byte>, size: nat, signed: bool, h: Header, native: bool)
    requires IntegerOption(t, size, signed)
    ensures OptionAt(h, [o] + t, 1, native) == Ok(Option(if signed then Kint else Kuint, size, 1 + |t|, h))
  {
    var fmt := [o] + t;
    assert forall j :: 0 <= j < |t| ==> fmt[j + 1] == t[j];
    if |t| == 2 {
      assert NumFrom(fmt, 3, size) == (size, 3);
      assert NumFrom(fmt, 2, 0) == (size, 3);
    } else if |t| == 3 {
      assert NumFrom(fmt, 4, size) == (size, 4);
      assert NumFrom(fmt, 3, 1) == (size, 4);
      assert NumFrom(fmt, 2, 0) == (size, 4);
    }
  }

  /** The integers of `size` bytes; unsigned options of eight bytes and more take negative integers, too. */
  predicate InRange(n: Integer, size: nat, signed: bool)
    requires size > 0
  {
    var half: int := Pow2(8 * size - 1);
    if signed then -half <= n < half else size >= 8 || 0 <= n < 2 * half
  }

  /** Byte `k` of the two's complement of `n`. */
  function ByteOf(n: int, k: nat): byte {
    n / Pow256(k) % 256
  }

  /** The bytes of the two's complement of `n`, the lowest first or last. */
  ghost predicate Spelled(s: seq<byte>, n: int, size: nat, lowFirst: bool) {
    |s| == size && forall k :: 0 <= k < size ==> s[if lowFirst then k else size - 1 - k] == ByteOf(n, k)
  }

  lemma {:induction false} LowBytes(n: int, size: nat, k: nat)
    requires k < size
    ensures Low(n, size)[k] == ByteOf(n, k)
    decreases k
  {
    if k > 0 {
      LowBytes(n / 256, size - 1, k - 1);
      DivTwice(n, 256, Pow256(k - 1));
    } else {
      assert Pow256(0) == 1;
    }
  }

  lemma DivTwice(n: int, a: int, b: int)
    requires a > 0 && b > 0
    ensures a * b > 0 && n / a / b == n / (a * b)
  {
    var q, r := n / a, n % a;
    var q2, r2 := q / b, q % b;
    assert n == a * q + r && q == b * q2 + r2;
    assert n == (a * b) * q2 + (a * r2 + r) by {
      assert a * q == a * (b * q2) + a * r2;
      assert a * (b * q2) == (a * b) * q2;
    }
    TimesMore(a, r2, b);
    DivUnique(n, a * b, q2, a * r2 + r);
  }

  /** An integer is accepted if it fits, and written byte by byte in the order asked for; bytes beyond the eighth
      extend the sign of a signed option and are zero for an unsigned one. */
  lemma IntegerBytes(pl: Platform, o: byte, t: seq<byte>, size: nat, signed: bool, n: Integer)
    requires IsOrder(o) && IntegerOption(t, size, signed) && size > 0
    ensures var r := Packed(pl, [o] + t, [Int(n)]);
      && (r.Ok? <==> InRange(n, size, signed))
      && (r.Ok? ==> Spelled(r.value, if !signed && n < 0 then n + TWO64 else n, size, LowFirst(pl, o)))
  {
    hide OptionAt, Low, Pow256, Pow2, Body, Packed, InRange, ByteOf, Order;
    IntegerOptionAt(o, t, size, signed, Header(LowFirst(pl, o), 1), pl.little);
    OptionStarts(t, size, signed);
    hide IntegerOption, IntegerLetter;
    SingleOption(pl, o, t, if signed then Kint else Kuint, size, [Int(n)]);
    IntegerBody(pl, size, signed, LowFirst(pl, o), 0, n);
    LowSpelled(if !signed && n < 0 then n + TWO64 else n, size, LowFirst(pl, o));
  }

  lemma OptionStarts(t: seq<byte>, size: nat, signed: bool)
    requires IntegerOption(t, size, signed)
    ensures t != [] && t[0] != 0 && size > 0
  {
  }

  lemma LowSpelled(v: int, size: nat, lowFirst: bool)
    ensures Spelled(Order(Low(v, size), lowFirst), v, size, lowFirst)
  {
    hide Low, ByteOf, Order;
    var t := Low(v, size);
    OrderSpells(t, lowFirst);
    forall k | 0 <= k < size
      ensures t[k] == ByteOf(v, k)
    {
      LowBytes(v, size, k);
    }
  }

  lemma OrderSpells(t: seq<byte>, lowFirst: bool)
    ensures |Order(t, lowFirst)| == |t| && forall k :: 0 <= k < |t| ==> Order(t, lowFirst)[if lowFirst then k else |t| - 1 - k] == t[k]
  {
  }

  lemma IntegerBody(pl: Platform, size: nat, signed: bool, lowFirst: bool, gap: nat, n: Integer)
    requires size > 0
    ensures var body := Body(pl, Field(gap, if signed then Kint else Kuint, size, lowFirst, Int(n)));
      if InRange(n, size, signed) then body == Ok(Order(Low(if !signed && n < 0 then n + TWO64 else n, size), lowFirst)) else body.Err?
  {
    hide InRange, Low, FitsSigned, FitsUnsigned, Order;
    FitsRange(n, size, signed);
  }

  lemma FitsRange(n: Integer, size: nat, signed: bool)
    requires 0 < size
    ensures InRange(n, size, signed) <==> if signed then FitsSigned(n, size) else FitsUnsigned(n, size)
  {
    hide Pow2, Pow256;
    PowBits(size);
    HalfPower(8 * size);
    if size >= 8 {
      PowBits(8);
      PowEight();
      PowGrows(8, size);
    }
  }

  lemma HalfPower(m: nat)
    requires m > 0
    ensures Pow2(m) == 2 * Pow2(m - 1)
  {
  }

  lemma {:induction false} PowBits(k: nat)
    ensures Pow256(k) == Pow2(8 * k)
  {
    if k > 0 {
      PowBits(k - 1);
      Pow2Add(8, 8 * (k - 1));
      assert Pow2(8) == 256;
    }
  }

  lemma {:induction false} OrderAt(s: seq<byte>, little: bool, k: nat)
    requires k < |s|
    ensures |Order(s, little)| == |s| && Order(s, little)[if little then k else |s| - 1 - k] == s[k]
  {
  }

  // ---------- reading integers ----------

  /** Any bytes of the right number are the text of one integer, which `unpack` gives. */
  lemma IntegerRead(pl: Platform, o: byte, t: seq<byte>, size: nat, signed: bool, data: seq<byte>) returns (n: Integer)
    requires IsOrder(o) && IntegerOption(t, size, signed) && |data| == size <= 8
    ensures InRange(n, size, signed) && Packed(pl, [o] + t, [Int(n)]) == Ok(data)
    ensures Unpacked(pl, [o] + t, data, 1) == Ok(([Int(n)], size + 1))
  {
    hide Packed, Unpacked, IntegerOption, IntegerLetter, Low, OptionAt, DetailsAt, Body, InRange, Order, Fields, KeptAll, AllShort, IsOrder, LowFirst;
    OptionStarts(t, size, signed);
    OrderNotZero(o);
    var low := LowFirst(pl, o);
    n := IntegerOf(Order(data, low), signed);
    OrderBack(data, low);
    IntegerOptionAt(o, t, size, signed, Header(low, 1), pl.little);
    SingleOption(pl, o, t, if signed then Kint else Kuint, size, [Int(n)]);
    IntegerBody(pl, size, signed, low, 0, n);
    RoundTrip(pl, [o] + t, [Int(n)]);
    OrderDetails(pl, o, [o] + t, 0, Header(pl.little, 1), 0);
    IntegerFields(pl, Header(pl.little, 1), Header(low, 1), [o] + t, size, signed, n);
  }

  /** The integer that the bytes stand for, the lowest first. */
  lemma IntegerOf(s: seq<byte>, signed: bool) returns (n: Integer)
    requires 0 < |s| <= 8
    ensures InRange(n, |s|, signed) && Low(if !signed && n < 0 then n + TWO64 else n, |s|) == s
  {
    hide Pow2, Pow256, Low;
    var v := Number(s);
    PowEight();
    PowGrows(|s|, 8);
    PowBits(|s|);
    HalfPower(8 * |s|);
    LowNumber(s);
    LowPeriod(v, |s|);
    if signed {
      n := if 2 * v >= Pow256(|s|) then v - Pow256(|s|) else v;
    } else {
      n := if v >= TWO63 then v - TWO64 else v;
      assert v >= TWO63 ==> |s| == 8 by {
        if |s| < 8 {
          PowGrows(|s|, 7);
          assert 256 * Pow256(7) == TWO64 by {
            PowGrows(7, 8);
            EighthPower();
          }
        }
      }
    }
  }

  lemma EighthPower()
    ensures 256 * Pow256(7) == Pow256(8)
  {
  }

  lemma {:induction false} LowNumber(s: seq<byte>)
    ensures Low(Number(s), |s|) == s
  {
    if s != [] {
      LowNumber(s[1..]);
      DivUnique(Number(s), 256, Number(s[1..]), s[0]);
      assert s == [s[0]] + s[1..];
    }
  }

  lemma {:induction false} LowPeriod(v: int, size: nat)
    ensures Low(v - Pow256(size), size) == Low(v, size)
    decreases size
  {
    if size > 0 {
      LowPeriod(v / 256, size - 1);
      var p := Pow256(size - 1);
      DivUnique(v - 256 * p, 256, v / 256 - p, v % 256);
    }
  }

  lemma IntegerFields(pl: Platform, h: Header, g: Header, fmt: seq<byte>, size: nat, signed: bool, n: Integer)
    requires |fmt| > 1 && fmt[0] != 0 && fmt[1] != 0 && size > 0 && InRange(n, size, signed) && g.maxalign == 1
    requires DetailsAt(h, 0, fmt, 0, pl.little) == Ok(Details(Knop, 0, 0, 1, g))
    requires OptionAt(g, fmt, 1, pl.little) == Ok(Option(if signed then Kint else Kuint, size, |fmt|, g))
    ensures var fs := Fields(pl, h, fmt, 0, 0, [Int(n)]); fs.Ok? && AllShort(fs.value) && KeptAll(pl, fs.value) == [Int(n)]
  {
    hide OptionAt, DetailsAt, InRange, Body, Fields, KeptAll, AllShort;
    PlainDetails(g, fmt, 1, pl.little, if signed then Kint else Kuint, size, |fmt|);
    IntegerBody(pl, size, signed, g.islittle, 0, n);
    TwoFields(pl, h, g, fmt, Details(if signed then Kint else Kuint, size, 0, |fmt|, g), n);
  }

  lemma TwoFields(pl: Platform, h: Header, g: Header, fmt: seq<byte>, d: Details, n: Integer)
    requires |fmt| > 1 && fmt[0] != 0 && fmt[1] != 0 && d.ntoalign == 0 && d.next == |fmt| && (d.kind == Kint || d.kind == Kuint)
    requires DetailsAt(h, 0, fmt, 0, pl.little) == Ok(Details(Knop, 0, 0, 1, g)) && DetailsAt(g, 0, fmt, 1, pl.little) == Ok(d)
    requires Body(pl, Field(0, d.kind, d.size, d.head.islittle, Int(n))).Ok?
    ensures var fs := Fields(pl, h, fmt, 0, 0, [Int(n)]); fs.Ok? && AllShort(fs.value) && KeptAll(pl, fs.value) == [Int(n)]
  {
    hide DetailsAt, Body, Fields, KeptAll, AllShort;
    var a, b := Field(0, Knop, 0, g.islittle, Str([])), Field(0, d.kind, d.size, d.head.islittle, Int(n));
    NopBody(pl, a);
    OptionFields(pl, h, fmt, 0, 0, [Int(n)], Details(Knop, 0, 0, 1, g));
    OptionFields(pl, g, fmt, 1, 0, [Int(n)], d);
    NoFields(pl, d.head, fmt, |Body(pl, b).value|);
    TwoKept(pl, a, b, n);
    assert Left(d.kind, [Int(n)]) == [];
  }

  lemma OptionFields(pl: Platform, h: Header, fmt: seq<byte>, i: nat, total: nat, args: seq<Val>, d: Details)
    requires i < |fmt| && fmt[i] != 0 && DetailsAt(h, total, fmt, i, pl.little) == Ok(d) && (Takes(d.kind) ==> args != [])
    requires Body(pl, FieldOf(d, args)).Ok?
    ensures var rest := Fields(pl, d.head, fmt, d.next, total + d.ntoalign + |Body(pl, FieldOf(d, args)).value|, Left(d.kind, args));
      rest.Ok? ==> Fields(pl, h, fmt, i, total, args) == Ok([FieldOf(d, args)] + rest.value)
  {
    hide DetailsAt, Body;
  }

  lemma NoFields(pl: Platform, h: Header, fmt: seq<byte>, total: nat)
    ensures Fields(pl, h, fmt, |fmt|, total, []) == Ok([])
  {
  }

  lemma TwoKept(pl: Platform, a: Field, b: Field, n: Integer)
    requires a.kind == Knop && (b.kind == Kint || b.kind == Kuint) && b.arg == Int(n)
    ensures var fs := [a] + ([b] + []); AllShort(fs) && KeptAll(pl, fs) == [Int(n)]
  {
    var fs := [a] + ([b] + []);
    assert fs[0] == a && fs[1] == b && fs[1..] == [b] && fs[1..][1..] == [];
    assert KeptAll(pl, [b]) == [Int(n)] + KeptAll(pl, []);
  }

  lemma NopBody(pl: Platform, f: Field)
    requires f.kind == Knop
    ensures Body(pl, f) == Ok([])
  {
  }

  // ---------- floats and strings ----------

  /** `f` writes the four bytes of the number as a float, `d` and `n` its eight bytes, in the order asked for. */
  lemma FloatBytes(pl: Platform, o: byte, c: byte, bits: Double, k: nat)
    requires IsOrder(o) && (c == 'f' as int || c == 'd' as int || c == 'n' as int)
    ensures var r := Packed(pl, [o, c], [Num(bits)]); var s := if c == 'f' as int then pl.narrow(bits) else bits;
      && r.Ok? && |r.value| == (if c == 'f' as int then 4 else 8)
      && (k < |r.value| ==> r.value[if LowFirst(pl, o) == pl.little then k else |r.value| - 1 - k] == s[k])
  {
    hide Body, Packed, OptionAt;
    var h := Header(LowFirst(pl, o), 1);
    assert [o, c] == [o] + [c];
    assert ([o] + [c])[1] == c;
    FloatOption([o] + [c], c, h, pl.little);
    SingleOption(pl, o, [c], Kfloat, if c == 'f' as int then 4 else 8, [Num(bits)]);
    FloatBody(pl, if c == 'f' as int then 4 else 8, LowFirst(pl, o), bits, k);
  }

  lemma FloatOption(fmt: seq<byte>, c: byte, h: Header, native: bool)
    requires |fmt| == 2 && fmt[1] == c && (c == 'f' as int || c == 'd' as int || c == 'n' as int)
    ensures OptionAt(h, fmt, 1, native) == Ok(Option(Kfloat, if c == 'f' as int then 4 else 8, 2, h))
  {
  }

  lemma FloatBody(pl: Platform, size: nat, lowFirst: bool, bits: Double, k: nat)
    requires size == 4 || size == 8
    ensures var body := Body(pl, Field(0, Kfloat, size, lowFirst, Num(bits))); var s: seq<byte> := if size == 4 then pl.narrow(bits) else bits;
      body.Ok? && |body.value| == size && (k < size ==> body.value[if lowFirst == pl.little then k else size - 1 - k] == s[k])
  {
    hide Order;
    var s: seq<byte> := if size == 4 then pl.narrow(bits) else bits;
    if k < size {
      OrderAt(s, lowFirst == pl.little, k);
    }
  }

  /** `z` writes the string and a zero; a string with a zero inside is refused. */
  lemma ZeroTerminated(pl: Platform, o: byte, s: seq<byte>)
    requires IsOrder(o)
    ensures Packed(pl, [o, 'z' as int], [Str(s)]) == if 0 in s then Err("string contains zeros") else Ok(s + [0])
  {
    assert [o, 'z' as int] == [o] + ['z' as int];
    assert ([o] + ['z' as int])[1] == 'z' as int;
    SingleOption(pl, o, ['z' as int], Kzstr, 0, [Str(s)]);
  }

  /** The options for counted strings, with the size of the count. */
  predicate CountedOption(t: seq<byte>, size: nat) {
    || (t == ['s' as int] && size == 8)
    || (|t| == 2 && t[0] == 's' as int && 1 <= size <= 9 && t[1] == 48 + size)
    || (|t| == 3 && t[0] == 's' as int && 10 <= size <= 16 && t[1] == 49 && t[2] == 38 + size)
  }

  /** `s` writes the length of the string in so many bytes, and the string; the length has to fit. */
  lemma CountedString(pl: Platform, o: byte, t: seq<byte>, size: nat, s: seq<byte>)
    requires IsOrder(o) && CountedOption(t, size)
    ensures var r := Packed(pl, [o] + t, [Str(s)]);
      && (r.Ok? <==> size >= 8 || |s| < Pow2(8 * size))
      && (r.Ok? ==> |r.value| == size + |s| && Spelled(r.value[..size], |s|, size, LowFirst(pl, o)) && r.value[size..] == s)
  {
    hide OptionAt, Low, Pow256, Pow2, Packed, Body, IsOrder, LowFirst, Order, ByteOf, CountedOption;
    CountedOptionAt(o, t, size, Header(LowFirst(pl, o), 1), pl.little);
    SingleOption(pl, o, t, Kstring, size, [Str(s)]);
    CountedBody(pl, size, LowFirst(pl, o), s);
  }

  lemma CountedBody(pl: Platform, size: nat, lowFirst: bool, s: seq<byte>)
    ensures var r := Body(pl, Field(0, Kstring, size, lowFirst, Str(s)));
      && (r.Ok? <==> size >= 8 || |s| < Pow2(8 * size))
      && (r.Ok? ==> |r.value| == size + |s| && Spelled(r.value[..size], |s|, size, lowFirst) && r.value[size..] == s)
  {
    hide Low, Pow256, Pow2, Order, ByteOf, Spelled;
    PowBits(size);
    LowSpelled(|s|, size, lowFirst);
    var count := Order(Low(|s|, size), lowFirst);
    assert (count + s)[..size] == count && (count + s)[size..] == s;
  }

  lemma CountedOptionAt(o: byte, t: seq<byte>, size: nat, h: Header, native: bool)
    requires CountedOption(t, size)
    ensures t != [] && t[0] != 0 && OptionAt(h, [o] + t, 1, native) == Ok(Option(Kstring, size, 1 + |t|, h))
  {
    var fmt := [o] + t;
    assert forall j :: 0 <= j < |t| ==> fmt[j + 1] == t[j];
    if |t| == 2 {
      assert NumFrom(fmt, 3, size) == (size, 3);
      assert NumFrom(fmt, 2, 0) == (size, 3);
    } else if |t| == 3 {
      assert NumFrom(fmt, 4, size) == (size, 4);
      assert NumFrom(fmt, 3, 1) == (size, 4);
      assert NumFrom(fmt, 2, 0) == (size, 4);
    }
  }

  /** `c` followed by one digit writes so many bytes of the string, filled up with zeros. */
  lemma FixedString(pl: Platform, o: byte, n: nat, s: seq<byte>, k: nat)
    requires IsOrder(o) && n <= 9
    ensures var r := Packed(pl, [o, 'c' as int, 48 + n], [Str(s)]);
      r.Ok? && |r.value| == n && (k < n ==> r.value[k] == if k < |s| then s[k] else 0)
  {
    var t := ['c' as int, 48 + n];
    assert [o, 'c' as int, 48 + n] == [o] + t;
    var fmt := [o] + t;
    assert forall j :: 0 <= j < |t| ==> fmt[j + 1] == t[j];
    assert NumFrom(fmt, 3, n) == (n, 3);
    assert NumFrom(fmt, 2, 0) == (n, 3);
    SingleOption(pl, o, t, Kchar, n, [Str(s)]);
  }

  /** At the start of a format the order is that of the machine: as after `=`. */
  lemma NativeOrder(pl: Platform, fmt: seq<byte>, args: seq<Val>)
    ensures Packed(pl, ['=' as int] + fmt, args) == TextFrom(pl, Header(pl.little, 1), ['=' as int] + fmt, 1, 0, args)
    ensures Packed(pl, fmt, args) == TextFrom(pl, Header(pl.little, 1), fmt, 0, 0, args)
  {
    OrderThen(pl, '=' as int, fmt, args);
  }

  /** `x` is one zero byte, and a space is nothing. */
  lemma Padding(pl: Platform, o: byte)
    requires IsOrder(o)
    ensures Packed(pl, [o, 'x' as int], []) == Ok([0]) && Packed(pl, [o, ' ' as int], []) == Ok([])
  {
    hide Packed, OptionAt, Body;
    assert [o, 'x' as int] == [o] + ['x' as int] && [o, ' ' as int] == [o] + [' ' as int];
    PaddingOption(o, Header(LowFirst(pl, o), 1), pl.little);
    SingleOption(pl, o, ['x' as int], Kpadding, 1, []);
    SingleOption(pl, o, [' ' as int], Knop, 0, []);
    PaddingBody(pl, LowFirst(pl, o));
  }

  lemma PaddingOption(o: byte, h: Header, native: bool)
    ensures OptionAt(h, [o] + ['x' as int], 1, native) == Ok(Option(Kpadding, 1, 2, h))
    ensures OptionAt(h, [o] + [' ' as int], 1, native) == Ok(Option(Knop, 0, 2, h))
  {
    assert ([o] + ['x' as int])[1] == 'x' as int && ([o] + [' ' as int])[1] == ' ' as int;
  }

  lemma PaddingBody(pl: Platform, lowFirst: bool)
    ensures Body(pl, Field(0, Kpadding, 1, lowFirst, Str([]))) == Ok([0]) && Body(pl, Field(0, Knop, 0, lowFirst, Str([]))) == Ok([])
  {
  }

  /** There are no other options. */
  lemma OtherOptions(pl: Platform, c: byte, rest: seq<byte>, args: seq<Val>)
    requires c != 0 && c !in OPTIONS
    ensures Packed(pl, [c] + rest, args).Err?
  {
    var fmt := [c] + rest;
    assert forall j :: 0 <= j < |OPTIONS| ==> OPTIONS[j] in OPTIONS;
    NoOption(Header(pl.little, 1), fmt, pl.little);
    hide DetailsAt;
  }

  const OPTIONS: seq<byte> := ['b' as int, 'B' as int, 'h' as int, 'H' as int, 'i' as int, 'I' as int, 'l' as int, 'L' as int, 'j' as int,
    'J' as int, 'T' as int, 'f' as int, 'd' as int, 'n' as int, 's' as int, 'z' as int, 'c' as int, 'x' as int, 'X' as int, ' ' as int,
    '<' as int, '>' as int, '=' as int, '!' as int]

  lemma NoOption(h: Header, fmt: seq<byte>, native: bool)
    requires fmt != [] && fmt[0] !in OPTIONS
    ensures DetailsAt(h, 0, fmt, 0, native).Err?
  {
    Listed();
  }

  lemma Listed()
    ensures forall c: byte :: c !in OPTIONS ==>
      (Plain(c).Err? && c != 'i' as int && c != 'I' as int && c != 's' as int && c != 'c' as int && c != '<' as int && c != '>' as int
        && c != '=' as int && c != '!' as int)
  {
    assert forall j :: 0 <= j < |OPTIONS| ==> OPTIONS[j] in OPTIONS;
  }

  // ---------- alignment ----------

  /** After `!` every option of 2, 4 or 8 bytes starts at a multiple of its size; without it nothing is skipped. */
  lemma AlignedAfterByte(pl: Platform, c: byte, size: nat, signed: bool, n: Integer, m: Integer)
    requires IntegerLetter(c, size, signed) && InRange(n, 1, true) && InRange(m, size, signed)
    ensures var r := Packed(pl, ['!' as int, 'b' as int, c], [Int(n), Int(m)]); var s := Packed(pl, ['b' as int, c], [Int(n), Int(m)]);
      && r.Ok? && |r.value| == 2 * size && (forall k :: 1 <= k < size ==> r.value[k] == 0)
      && s.Ok? && |s.value| == 1 + size && s.value[1..] == r.value[size..] && s.value[0] == r.value[0]
  {
    hide Low, Pow2, Pow256, InRange, Order, DetailsAt, IntegerLetter, Body, TextFrom, Packed;
    var one, two := ['!' as int, 'b' as int, c], ['b' as int, c];
    var h, a := Header(pl.little, 1), Header(pl.little, 8);
    var first, last := IntText(n, 1, true, pl.little), IntText(m, size, signed, pl.little);
    AlignDetails(h, c, size, signed, pl.little);
    assert [Int(n), Int(m)][1..] == [Int(m)] && [Int(m)][1..] == [];
    AlignText(pl, h, one, [Int(n), Int(m)], a);
    IntegerText(pl, a, one, 1, 0, [Int(n), Int(m)], 1, true, 0, n);
    IntegerText(pl, a, one, 2, 1, [Int(m)], size, signed, size - 1, m);
    TextEnd(pl, a, one, 2 * size, []);
    IntegerText(pl, h, two, 0, 0, [Int(n), Int(m)], 1, true, 0, n);
    IntegerText(pl, h, two, 1, 1, [Int(m)], size, signed, 0, m);
    TextEnd(pl, h, two, 1 + size, []);
    WholeText(pl, one, [Int(n), Int(m)]);
    WholeText(pl, two, [Int(n), Int(m)]);
    AlignedTexts(first, last, size);
  }

  lemma AlignedTexts(first: seq<byte>, last: seq<byte>, size: nat)
    requires |first| == 1 && |last| == size > 0
    ensures var x, y := Zeros(0) + first + (Zeros(size - 1) + last + []), Zeros(0) + first + (Zeros(0) + last + []);
      && |x| == 2 * size && (forall k :: 1 <= k < size ==> x[k] == 0) && x[0] == y[0] && x[size..] == y[1..] == last
  {
  }

  function IntText(n: Integer, size: nat, signed: bool, lowFirst: bool): (s: seq<byte>)
    ensures |s| == size
  {
    Order(Low(if !signed && n < 0 then n + TWO64 else n, size), lowFirst)
  }

  lemma WholeText(pl: Platform, fmt: seq<byte>, args: seq<Val>)
    ensures Packed(pl, fmt, args) == TextFrom(pl, Header(pl.little, 1), fmt, 0, 0, args)
  {
  }

  lemma AlignText(pl: Platform, h: Header, fmt: seq<byte>, args: seq<Val>, a: Header)
    requires fmt != [] && fmt[0] != 0 && DetailsAt(h, 0, fmt, 0, pl.little) == Ok(Details(Knop, 0, 0, 1, a))
    ensures TextFrom(pl, h, fmt, 0, 0, args) == TextFrom(pl, a, fmt, 1, 0, args)
  {
    hide DetailsAt, TextFrom;
    OptionText(pl, h, fmt, 0, 0, args, Details(Knop, 0, 0, 1, a));
    var rest := TextFrom(pl, a, fmt, 1, 0, args);
    if rest.Ok? {
      assert Zeros(0) + [] + rest.value == rest.value;
    }
  }

  lemma IntegerText(pl: Platform, h: Header, fmt: seq<byte>, i: nat, total: nat, args: seq<Val>, size: nat, signed: bool, gap: nat, n: Integer)
    requires i < |fmt| && fmt[i] != 0 && args != [] && args[0] == Int(n) && size > 0 && InRange(n, size, signed)
    requires DetailsAt(h, total, fmt, i, pl.little) == Ok(Details(if signed then Kint else Kuint, size, gap, i + 1, h))
    ensures var rest := TextFrom(pl, h, fmt, i + 1, total + gap + size, args[1..]);
      TextFrom(pl, h, fmt, i, total, args) ==
        if rest.Err? then rest else Ok(Zeros(gap) + IntText(n, size, signed, h.islittle) + rest.value)
  {
    hide DetailsAt, Body, InRange, TextFrom, Low, Order;
    OptionText(pl, h, fmt, i, total, args, Details(if signed then Kint else Kuint, size, gap, i + 1, h));
    IntegerBody(pl, size, signed, h.islittle, gap, n);
  }

  lemma AlignDetails(h: Header, c: byte, size: nat, signed: bool, native: bool)
    requires IntegerLetter(c, size, signed) && h.maxalign == 1
    ensures c != 0 && size > 0
    ensures var one, two := ['!' as int, 'b' as int, c], ['b' as int, c]; var a := h.(maxalign := 8);
      && DetailsAt(h, 0, one, 0, native) == Ok(Details(Knop, 0, 0, 1, a))
      && DetailsAt(a, 0, one, 1, native) == Ok(Details(Kint, 1, 0, 2, a))
      && DetailsAt(a, 1, one, 2, native) == Ok(Details(if signed then Kint else Kuint, size, size - 1, 3, a))
      && DetailsAt(h, 0, two, 0, native) == Ok(Details(Kint, 1, 0, 1, h))
      && DetailsAt(h, 1, two, 1, native) == Ok(Details(if signed then Kint else Kuint, size, 0, 2, h))
  {
    hide OptionAt, WithGap;
    var one, two := ['!' as int, 'b' as int, c], ['b' as int, c];
    BangOption(one, h, native);
    LetterOption(one, 1, 'b' as int, 1, true, h.(maxalign := 8), native);
    LetterOption(one, 2, c, size, signed, h.(maxalign := 8), native);
    LetterOption(two, 0, 'b' as int, 1, true, h, native);
    LetterOption(two, 1, c, size, signed, h, native);
    Gaps(if signed then Kint else Kuint, size, h);
  }

  lemma BangOption(fmt: seq<byte>, h: Header, native: bool)
    requires |fmt| > 1 && fmt[0] == '!' as int && fmt[1] == 'b' as int
    ensures OptionAt(h, fmt, 0, native) == Ok(Option(Knop, 0, 1, h.(maxalign := 8)))
  {
  }

  lemma LetterOption(fmt: seq<byte>, i: nat, c: byte, size: nat, signed: bool, h: Header, native: bool)
    requires i < |fmt| && fmt[i] == c && IntegerLetter(c, size, signed) && (i + 1 == |fmt| || !(48 <= fmt[i + 1] <= 57))
    ensures OptionAt(h, fmt, i, native) == Ok(Option(if signed then Kint else Kuint, size, i + 1, h)) && c != 0 && size > 0
  {
  }

  lemma Gaps(k: Kind, size: nat, h: Header)
    requires h.maxalign == 1 && (k == Kint || k == Kuint) && (size == 1 || size == 2 || size == 4 || size == 8)
    ensures forall n: nat :: WithGap(Option(k, size, n, h.(maxalign := 8)), 1, size) == Ok(Details(k, size, size - 1, n, h.(maxalign := 8)))
    ensures forall n: nat :: WithGap(Option(k, size, n, h), 1, size) == Ok(Details(k, size, 0, n, h))
    ensures forall n: nat, g: Header :: WithGap(Option(Kint, 1, n, g), 0, 1) == Ok(Details(Kint, 1, 0, n, g))
    ensures forall n: nat, g: Header, t: nat :: WithGap(Option(Knop, 0, n, g), t, 0) == Ok(Details(Knop, 0, 0, n, g))
  {
  }

  /** `X` with an option skips to a multiple of its size, and writes nothing else. */
  lemma AlignedX(pl: Platform, c: byte, size: nat, signed: bool, n: Integer)
    requires IntegerLetter(c, size, signed) && InRange(n, 1, true)
    ensures var r := Packed(pl, ['!' as int, 'b' as int, 'X' as int, c], [Int(n)]);
      r.Ok? && |r.value| == size && (forall k :: 1 <= k < size ==> r.value[k] == 0)
  {
    hide Low, Pow2, Pow256, InRange, Order, DetailsAt, IntegerLetter, Body, TextFrom, Packed;
    var fmt, h, a := ['!' as int, 'b' as int, 'X' as int, c], Header(pl.little, 1), Header(pl.little, 8);
    XDetails(h, c, size, signed, pl.little);
    var d := Details(Kpaddalign, 0, size - 1, 4, a);
    assert [Int(n)][1..] == [];
    AlignText(pl, h, fmt, [Int(n)], a);
    IntegerText(pl, a, fmt, 1, 0, [Int(n)], 1, true, 0, n);
    OptionText(pl, a, fmt, 2, 1, [], d);
    SkipBody(pl, FieldOf(d, []));
    TextEnd(pl, a, fmt, size, []);
    WholeText(pl, fmt, [Int(n)]);
    var first := IntText(n, 1, true, pl.little);
    assert Zeros(0) + first + (Zeros(size - 1) + [] + []) == first + Zeros(size - 1);
  }

  lemma SkipBody(pl: Platform, f: Field)
    requires f.kind == Kpaddalign
    ensures Body(pl, f) == Ok([])
  {
  }

  lemma XDetails(h: Header, c: byte, size: nat, signed: bool, native: bool)
    requires IntegerLetter(c, size, signed) && h.maxalign == 1
    ensures size > 0
    ensures var fmt := ['!' as int, 'b' as int, 'X' as int, c]; var a := h.(maxalign := 8);
      && DetailsAt(h, 0, fmt, 0, native) == Ok(Details(Knop, 0, 0, 1, a))
      && DetailsAt(a, 0, fmt, 1, native) == Ok(Details(Kint, 1, 0, 2, a))
      && DetailsAt(a, 1, fmt, 2, native) == Ok(Details(Kpaddalign, 0, size - 1, 4, a))
  {
    hide OptionAt, WithGap;
    var fmt := ['!' as int, 'b' as int, 'X' as int, c];
    BangOption(fmt, h, native);
    LetterOption(fmt, 1, 'b' as int, 1, true, h.(maxalign := 8), native);
    LetterOption(fmt, 3, c, size, signed, h.(maxalign := 8), native);
    XOption(fmt, h.(maxalign := 8), native);
    Gaps(if signed then Kint else Kuint, size, h);
    XGap(size, h.(maxalign := 8));
  }

  lemma XOption(fmt: seq<byte>, h: Header, native: bool)
    requires |fmt| == 4 && fmt[2] == 'X' as int
    ensures OptionAt(h, fmt, 2, native) == Ok(Option(Kpaddalign, 0, 3, h))
  {
  }

  lemma XGap(size: nat, a: Header)
    requires a.maxalign == 8 && (size == 1 || size == 2 || size == 4 || size == 8)
    ensures forall n: nat :: WithGap(Option(Kpaddalign, 0, n, a), 1, size) == Ok(Details(Kpaddalign, 0, size - 1, n, a))
  {
  }

  /** Data that are too short for an integer are refused. */
  lemma TooShort(pl: Platform, o: byte, t: seq<byte>, size: nat, signed: bool, data: seq<byte>)
    requires IsOrder(o) && IntegerOption(t, size, signed) && |data| < size
    ensures Unpacked(pl, [o] + t, data, 1) == Err("data string too short")
  {
    hide DetailsAt, OptionAt, Extracted, IntegerOption, IntegerLetter;
    OptionStarts(t, size, signed);
    var fmt, h, g := [o] + t, Header(pl.little, 1), Header(LowFirst(pl, o), 1);
    assert fmt[0] == o && fmt[1] == t[0] && o != 0;
    OrderDetails(pl, o, fmt, 0, h, 0);
    IntegerOptionAt(o, t, size, signed, g, pl.little);
    PlainDetails(g, fmt, 1, pl.little, if signed then Kint else Kuint, size, 1 + |t|);
    NothingRead(pl, g.islittle, data);
    assert UnpackFrom(pl, g, fmt, 1, data, 0) == Err("data string too short");
  }

  lemma NothingRead(pl: Platform, lowFirst: bool, data: seq<byte>)
    requires |data| < MAXSTRING
    ensures Extracted(pl, Knop, 0, lowFirst, data, 0) == Ok(([], 0))
  {
  }

  // ---------- limits ----------

  /** Numerals are read digit by digit, as long as ten times the value and nine more fit in an `int`. */
  lemma NumeralDigit(fmt: seq<byte>, i: nat, a: nat)
    requires i < |fmt|
    ensures NumFrom(fmt, i, a) == if 48 <= fmt[i] <= 57 && a <= 214748363 then NumFrom(fmt, i + 1, 10 * a + (fmt[i] - 48)) else (a, i)
  {
  }

  /** Which strings of `z` are too long to come back. */
  lemma ShortIs(fs: seq<Field>)
    ensures AllShort(fs) <==> forall k :: 0 <= k < |fs| && fs[k].kind == Kzstr && fs[k].arg.Str? ==> |fs[k].arg.s| < 2147483648
  {
    if AllShort(fs) {
      assert forall k :: 0 <= k < |fs| ==> Short(fs[k]);
    }
  }
}
