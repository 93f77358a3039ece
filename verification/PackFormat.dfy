/** Format strings of `string.pack`: options, sizes and alignment. */
module PackFormat {
  import opened Bytes
  import opened Division
  import opened PackInts
  import opened Powers

  const MAXSIZE: int := 0x7fff_ffff
  const MAXALIGN: nat := 8

  datatype Kind = Kint | Kuint | Kfloat | Kchar | Kstring | Kzstr | Kpadding | Kpaddalign | Knop

  datatype Header = Header(islittle: bool, maxalign: nat)

  /** An option, where the format goes on after it, and the header from there on. */
  datatype Option = Option(kind: Kind, size: nat, next: nat, head: Header)

  datatype Details = Details(kind: Kind, size: nat, ntoalign: nat, next: nat, head: Header)

  /** Formats are C strings: they end with a zero. */
  function Char(fmt: seq<byte>, i: nat): byte {
    if i < |fmt| then fmt[i] else 0
  }

  // ---------- numbers in formats ----------

  /** The numeral that goes on at `i` when its first digits are worth `a`; reading stops before it could
      leave the range of `int`. */
  function NumFrom(fmt: seq<byte>, i: nat, a: nat): (r: (nat, nat))
    ensures r.1 >= i && (i <= |fmt| ==> r.1 <= |fmt|) && (a <= MAXSIZE ==> r.0 <= MAXSIZE)
    decreases |fmt| - i
  {
    if IsDigit(Char(fmt, i)) && a <= (MAXSIZE - 9) / 10 then NumFrom(fmt, i + 1, a * 10 + (fmt[i] - '0' as int)) else (a, i)
  }

  function NumAt(fmt: seq<byte>, i: nat, df: int): (r: (int, nat))
    ensures r.1 >= i && (i <= |fmt| ==> r.1 <= |fmt|)
  {
    if IsDigit(Char(fmt, i)) then NumFrom(fmt, i, 0) else (df, i)
  }

  function LimitAt(fmt: seq<byte>, i: nat, df: int): (r: Result<(nat, nat)>)
    ensures r.Ok? ==> 0 < r.value.0 <= MAXINTSIZE && r.value.1 >= i && (i <= |fmt| ==> r.value.1 <= |fmt|)
  {
    var n := NumAt(fmt, i, df);
    if n.0 > MAXINTSIZE || n.0 <= 0 then Err("integral size out of limits [1,16]") else Ok(n)
  }

  // ---------- options ----------

  /** The kinds of option that neither read a size nor change the header, and their sizes. */
  function Plain(c: byte): (r: Result<(Kind, nat)>) {
    if c == 'b' as int then Ok((Kint, 1))
    else if c == 'B' as int then Ok((Kuint, 1))
    else if c == 'h' as int then Ok((Kint, 2))
    else if c == 'H' as int then Ok((Kuint, 2))
    else if c == 'l' as int then Ok((Kint, 8))
    else if c == 'L' as int then Ok((Kuint, 8))
    else if c == 'j' as int then Ok((Kint, 8))
    else if c == 'J' as int then Ok((Kuint, 8))
    else if c == 'T' as int then Ok((Kuint, 8))
    else if c == 'f' as int then Ok((Kfloat, 4))
    else if c == 'd' as int then Ok((Kfloat, 8))
    else if c == 'n' as int then Ok((Kfloat, 8))
    else if c == 'z' as int then Ok((Kzstr, 0))
    else if c == 'x' as int then Ok((Kpadding, 1))
    else if c == 'X' as int then Ok((Kpaddalign, 0))
    else if c == ' ' as int then Ok((Knop, 0))
    else Err("invalid format option")
  }

  /** The sizes that options of a kind can have. */
  predicate SizeOk(k: Kind, size: nat) {
    match k
    case Kint => 0 < size <= MAXINTSIZE
    case Kuint => 0 < size <= MAXINTSIZE
    case Kstring => 0 < size <= MAXINTSIZE
    case Kfloat => size == 4 || size == 8
    case Kchar => size <= MAXSIZE
    case Kpadding => size == 1
    case _ => size == 0
  }

  /** `getoption`, on a machine of the byte order `native`. */
  function OptionAt(h: Header, fmt: seq<byte>, i: nat, native: bool): (r: Result<Option>)
    requires i < |fmt|
    ensures r.Ok? ==> i < r.value.next <= |fmt| && SizeOk(r.value.kind, r.value.size)
  {
    var c := fmt[i];
    if c == 'i' as int then
      var n :- LimitAt(fmt, i + 1, 4); Ok(Option(Kint, n.0, n.1, h))
    else if c == 'I' as int then
      var n :- LimitAt(fmt, i + 1, 4); Ok(Option(Kuint, n.0, n.1, h))
    else if c == 's' as int then
      var n :- LimitAt(fmt, i + 1, 8); Ok(Option(Kstring, n.0, n.1, h))
    else if c == 'c' as int then
      var n := NumAt(fmt, i + 1, -1);
      if n.0 < 0 then Err("missing size for format option 'c'") else Ok(Option(Kchar, n.0, n.1, h))
    else if c == '<' as int then Ok(Option(Knop, 0, i + 1, h.(islittle := true)))
    else if c == '>' as int then Ok(Option(Knop, 0, i + 1, h.(islittle := false)))
    else if c == '=' as int then Ok(Option(Knop, 0, i + 1, h.(islittle := native)))
    else if c == '!' as int then
      var n :- LimitAt(fmt, i + 1, MAXALIGN); Ok(Option(Knop, 0, n.1, h.(maxalign := n.0)))
    else
      var k :- Plain(c); Ok(Option(k.0, k.1, i + 1, h))
  }

  // ---------- alignment ----------

  predicate IsPower(a: nat) {
    a == 1 || a == 2 || a == 4 || a == 8 || a == 16
  }

  /** The bytes to skip to a multiple of `align`. */
  function Gap(total: nat, align: nat): nat
    requires align > 0
  {
    (align - total % align) % align
  }

  /** The gap leads to a multiple, and no smaller one does. */
  lemma GapLeast(total: nat, align: nat, g: nat)
    requires align > 0
    ensures Gap(total, align) < align && (total + Gap(total, align)) % align == 0
    ensures g < Gap(total, align) ==> (total + g) % align != 0
  {
    var q, r := total / align, total % align;
    assert total == align * q + r;
    GapValue(r, align);
    if r == 0 {
      DivUnique(total, align, q, 0);
    } else {
      assert align * (q + 1) == align * q + align;
      DivUnique(total + (align - r), align, q + 1, 0);
      if g < align - r {
        DivUnique(total + g, align, q, r + g);
      }
    }
  }

  lemma GapValue(r: nat, align: nat)
    requires r < align
    ensures (align - r) % align == if r == 0 then 0 else align - r
  {
    DivUnique(align - r, align, if r == 0 then 1 else 0, if r == 0 then 0 else align - r);
  }

  /** `getdetails`: the next option, and the gap before it in a result that has `total` bytes so far. */
  function DetailsAt(h: Header, total: nat, fmt: seq<byte>, i: nat, native: bool): (r: Result<Details>)
    requires i < |fmt|
    ensures r.Ok? ==> i < r.value.next <= |fmt| && r.value.ntoalign < MAXINTSIZE && SizeOk(r.value.kind, r.value.size)
  {
    var o :- OptionAt(h, fmt, i, native);
    if o.kind == Kpaddalign then
      if Char(fmt, o.next) == 0 then Err("invalid next option for option 'X'")
      else
        var p :- OptionAt(o.head, fmt, o.next, native);
        if p.kind == Kchar || p.size == 0 then Err("invalid next option for option 'X'")
        else WithGap(o.(next := p.next, head := p.head), total, p.size)
    else WithGap(o, total, o.size)
  }

  function WithGap(o: Option, total: nat, size: nat): (r: Result<Details>)
    ensures r.Ok? ==> r.value.next == o.next && r.value.ntoalign < MAXINTSIZE && r.value.kind == o.kind && r.value.size == o.size && r.value.head == o.head
  {
    if size <= 1 || o.kind == Kchar then Ok(Details(o.kind, o.size, 0, o.next, o.head))
    else
      var align := if size > o.head.maxalign then o.head.maxalign else size;
      if !IsPower(align) then Err("format asks for alignment not power of 2")
      else Ok(Details(o.kind, o.size, Gap(total, align), o.next, o.head))
  }

  // ---------- bits ----------

  /** `a & b`. */
  function And(a: nat, b: nat): nat {
    if a == 0 || b == 0 then 0 else 2 * And(a / 2, b / 2) + if a % 2 == 1 && b % 2 == 1 then 1 else 0
  }

  lemma {:induction false} AndSelf(c: nat)
    ensures And(c, c) == c
  {
    if c > 0 {
      AndSelf(c / 2);
    }
  }

  lemma AndStep(t: nat, m: nat)
    requires t > 0 && m > 0
    ensures And(t, 2 * m - 1) == 2 * And(t / 2, m - 1) + t % 2
  {
    assert (2 * m - 1) / 2 == m - 1 && (2 * m - 1) % 2 == 1;
  }

  lemma AndZero(a: nat, b: nat)
    requires a == 0 || b == 0
    ensures And(a, b) == 0
  {
  }

  lemma ZeroMod(p: nat)
    requires p > 0
    ensures 0 % p == 0
  {
    DivUnique(0, p, 0, 0);
  }

  lemma {:induction false} AndLow(t: nat, k: nat)
    ensures And(t, Pow2(k) - 1) == t % Pow2(k)
  {
    hide And;
    if k == 0 || t == 0 {
      AndZero(t, Pow2(k) - 1);
      ZeroMod(Pow2(k));
    } else {
      var m := Pow2(k - 1);
      assert Pow2(k) == 2 * m;
      hide Pow2;
      AndStep(t, m);
      AndLow(t / 2, k - 1);
      ModSplit(t, 2, m);
    }
  }

  lemma AndDouble(c: nat)
    requires c > 0
    ensures And(2 * c, 2 * c - 1) == 2 * And(c, c - 1) && And(2 * c + 1, 2 * c) == 2 * And(c, c)
  {
    assert (2 * c - 1) / 2 == c - 1 && (2 * c) % 2 == 0;
  }

  /** The test for powers of two. */
  lemma {:induction false} PowerBits(a: nat)
    requires 0 < a <= MAXINTSIZE
    ensures And(a, a - 1) == 0 <==> IsPower(a)
  {
    if a > 1 {
      var c := a / 2;
      AndDouble(c);
      AndSelf(c);
      hide And;
      PowerBits(c);
    }
  }

  /** The computation of the gap. */
  lemma GapBits(total: nat, align: nat)
    requires IsPower(align)
    ensures And(total, align - 1) <= align && And(align - And(total, align - 1), align - 1) == Gap(total, align)
  {
    var k := if align == 1 then 0 else if align == 2 then 1 else if align == 4 then 2 else if align == 8 then 3 else 4;
    assert Pow2(k) == align by {
      assert Pow2(0) == 1 && Pow2(1) == 2 && Pow2(2) == 4 && Pow2(3) == 8 && Pow2(4) == 16;
    }
    hide And, Pow2;
    AndLow(total, k);
    AndLow(align - total % align, k);
  }

  // ---------- reading the format ----------

  /** The header and the place in the format. */
  class Reader {
    const fmt: seq<byte>
    const native: bool
    var p: nat
    var islittle: bool
    var maxalign: nat

    ghost function Head(): Header
      reads this
    {
      Header(islittle, maxalign)
    }

    /** `initheader`. */
    constructor (fmt: seq<byte>, native: bool)
      ensures this.fmt == fmt && this.native == native && p == 0 && Head() == Header(native, 1)
    {
      this.fmt, this.native := fmt, native;
      p, islittle, maxalign := 0, native, 1;
    }

    method GetNum(df: int) returns (a: int)
      requires p <= |fmt|
      modifies `p
      ensures (a, p) == NumAt(fmt, old(p), df)
    {
      if !IsDigit(Char(fmt, p)) {
        return df;
      }
      a := fmt[p] - '0' as int;
      p := p + 1;
      while IsDigit(Char(fmt, p)) && a <= (MAXSIZE - 9) / 10
        invariant old(p) < p <= |fmt| && a >= 0 && NumFrom(fmt, p, a) == NumFrom(fmt, old(p), 0)
        decreases |fmt| - p
      {
        a := a * 10 + (fmt[p] - '0' as int);
        p := p + 1;
      }
    }

    method GetNumLimit(df: int) returns (r: Result<nat>)
      requires p <= |fmt|
      modifies `p
      ensures var s := LimitAt(fmt, old(p), df); if s.Ok? then r == Ok(s.value.0) && p == s.value.1 else r == Err(s.error)
    {
      var sz := GetNum(df);
      if sz > MAXINTSIZE || sz <= 0 {
        return Err("integral size out of limits [1,16]");
      }
      r := Ok(sz);
    }

    method GetOption() returns (r: Result<(Kind, nat)>)
      requires p < |fmt|
      modifies this
      ensures var s := OptionAt(old(Head()), fmt, old(p), native);
        if s.Ok? then r == Ok((s.value.kind, s.value.size)) && p == s.value.next && Head() == s.value.head else r == Err(s.error)
    {
      var opt := fmt[p];
      p := p + 1;
      if opt == 'i' as int {
        var n :- GetNumLimit(4);
        return Ok((Kint, n));
      } else if opt == 'I' as int {
        var n :- GetNumLimit(4);
        return Ok((Kuint, n));
      } else if opt == 's' as int {
        var n :- GetNumLimit(8);
        return Ok((Kstring, n));
      } else if opt == 'c' as int {
        var n := GetNum(-1);
        if n == -1 {
          return Err("missing size for format option 'c'");
        }
        return Ok((Kchar, n));
      } else if opt == '<' as int {
        islittle := true;
      } else if opt == '>' as int {
        islittle := false;
      } else if opt == '=' as int {
        islittle := native;
      } else if opt == '!' as int {
        var n :- GetNumLimit(MAXALIGN);
        maxalign := n;
      } else {
        return Plain(opt);
      }
      r := Ok((Knop, 0));
    }

    method GetDetails(totalsize: nat) returns (r: Result<(Kind, nat, nat)>)
      requires p < |fmt| && 0 < maxalign <= MAXINTSIZE
      modifies this
      ensures var s := DetailsAt(old(Head()), totalsize, fmt, old(p), native);
        if s.Ok? then r == Ok((s.value.kind, s.value.size, s.value.ntoalign)) && p == s.value.next && Head() == s.value.head && 0 < maxalign <= MAXINTSIZE
        else r == Err(s.error)
    {
      hide OptionAt, Gap, And, WithGap;
      HeadKept(Head(), fmt, p, native);
      var opt :- GetOption();
      var align := opt.1;
      if opt.0 == Kpaddalign {
        if Char(fmt, p) == 0 {
          return Err("invalid next option for option 'X'");
        }
        HeadKept(Head(), fmt, p, native);
        var next :- GetOption();
        if next.0 == Kchar || next.1 == 0 {
          return Err("invalid next option for option 'X'");
        }
        align := next.1;
      }
      var ntoalign :- GapTo(opt.0, align, totalsize);
      r := Ok((opt.0, opt.1, ntoalign));
    }

    /** The end of `getdetails`: the gap before an option with this alignment. */
    method GapTo(opt: Kind, align0: nat, totalsize: nat) returns (r: Result<nat>)
      requires 0 < maxalign <= MAXINTSIZE
      ensures forall o: Option :: o.kind == opt && o.head.maxalign == maxalign ==>
        var s := WithGap(o, totalsize, align0);
        r == if s.Ok? then Ok(s.value.ntoalign) else Err(s.error)
    {
      hide Gap, And, IsPower;
      var align, ntoalign := align0, 0;
      if align > 1 && opt != Kchar {
        if align > maxalign {
          align := maxalign;
        }
        PowerBits(align);
        if And(align, align - 1) != 0 {
          return Err("format asks for alignment not power of 2");
        }
        GapBits(totalsize, align);
        ntoalign := And(align - And(totalsize, align - 1), align - 1);
      }
      r := Ok(ntoalign);
    }
  }

  lemma HeadKept(h: Header, fmt: seq<byte>, i: nat, native: bool)
    requires i < |fmt| && 0 < h.maxalign <= MAXINTSIZE
    ensures var r := OptionAt(h, fmt, i, native); r.Ok? ==> 0 < r.value.head.maxalign <= MAXINTSIZE
  {
  }
}
