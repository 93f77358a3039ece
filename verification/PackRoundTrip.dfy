/** `string.unpack` undoes `string.pack`, and `string.packsize` tells the length. */
module PackRoundTrip {
  import opened Bytes
  import opened PackInts
  import opened PackFormat
  import opened PackFields

  /** What an argument comes back as: strings of a fixed size are cut or filled up, and floats rounded. */
  function Kept(pl: Platform, f: Field): Val {
    if f.kind == Kfloat && f.size == 4 && f.arg.Num? then Num(pl.widen(pl.narrow(f.arg.bits)))
    else if f.kind == Kchar && f.arg.Str? then Str(Fixed(f.arg.s, f.size))
    else f.arg
  }

  function KeptOne(pl: Platform, f: Field): seq<Val> {
    if Takes(f.kind) then [Kept(pl, f)] else []
  }

  function KeptAll(pl: Platform, fs: seq<Field>): seq<Val> {
    if fs == [] then [] else KeptOne(pl, fs[0]) + KeptAll(pl, fs[1..])
  }

  /** `unpack` measures strings that end with a zero with an `int`. */
  predicate Short(f: Field) {
    f.kind == Kzstr && f.arg.Str? ==> |f.arg.s| < TWO31
  }

  predicate AllShort(fs: seq<Field>) {
    forall k :: 0 <= k < |fs| ==> Short(fs[k])
  }

  // ---------- one option ----------

  lemma IntBack(pl: Platform, f: Field, data: seq<byte>, p: nat)
    requires (f.kind == Kint || f.kind == Kuint) && f.size > 0 && p + f.size <= |data| < MAXSTRING
    requires Body(pl, f) == Ok(data[p..p + f.size])
    ensures Extracted(pl, f.kind, f.size, f.islittle, data, p) == Ok(([f.arg], p + f.size))
  {
    hide Body, IntOf, Order, Counted, Terminated, Unsigned, Extracted;
    IntText(pl, f, data[p..p + f.size]);
    if f.kind == Kint {
      ExtractInt(pl, f.size, f.islittle, data, p, f.arg.n);
    } else {
      ExtractUint(pl, f.size, f.islittle, data, p, f.arg.n);
    }
  }

  lemma ExtractInt(pl: Platform, size: nat, islittle: bool, data: seq<byte>, p: nat, n: Integer)
    requires p + size <= |data| < MAXSTRING && IntOf(Order(data[p..p + size], islittle), true) == Ok(n)
    ensures Extracted(pl, Kint, size, islittle, data, p) == Ok(([Int(n)], p + size))
  {
    hide IntOf, Order;
  }

  lemma ExtractUint(pl: Platform, size: nat, islittle: bool, data: seq<byte>, p: nat, n: Integer)
    requires p + size <= |data| < MAXSTRING && IntOf(Order(data[p..p + size], islittle), false) == Ok(n)
    ensures Extracted(pl, Kuint, size, islittle, data, p) == Ok(([Int(n)], p + size))
  {
    hide IntOf, Order;
  }

  lemma ExtractCounted(pl: Platform, size: nat, islittle: bool, data: seq<byte>, p: nat, n: Integer)
    requires p + size <= |data| < MAXSTRING && IntOf(Order(data[p..p + size], islittle), false) == Ok(n)
    ensures Extracted(pl, Kstring, size, islittle, data, p) == Counted(data, p, size, Unsigned(n))
  {
    hide IntOf, Order, Counted, Unsigned;
  }

  lemma IntText(pl: Platform, f: Field, s: seq<byte>)
    requires (f.kind == Kint || f.kind == Kuint) && f.size > 0 && Body(pl, f) == Ok(s)
    ensures f.arg.Int? && IntOf(Order(s, f.islittle), f.kind == Kint) == Ok(f.arg.n)
  {
    hide Low, IntOf, Order, FitsSigned, FitsUnsigned, Unsigned;
    var n := f.arg.n;
    if f.kind == Kint {
      OrderBack(Low(n, f.size), f.islittle);
      SignedBack(n, f.size);
    } else {
      OrderBack(Low(Unsigned(n), f.size), f.islittle);
      UnsignedBack(n, f.size);
    }
  }

  lemma NumBack(pl: Platform, f: Field, data: seq<byte>, p: nat)
    requires f.kind == Kfloat && (f.size == 4 || f.size == 8) && p + f.size <= |data| < MAXSTRING
    requires Body(pl, f) == Ok(data[p..p + f.size])
    ensures Extracted(pl, f.kind, f.size, f.islittle, data, p) == Ok(([Kept(pl, f)], p + f.size))
  {
    hide Order;
    OrderBack(f.arg.bits, f.islittle == pl.little);
    OrderBack(pl.narrow(f.arg.bits), f.islittle == pl.little);
  }

  lemma CountedBack(pl: Platform, f: Field, data: seq<byte>, p: nat)
    requires f.kind == Kstring && 0 < f.size && f.arg.Str? && p + f.size + |f.arg.s| <= |data| < MAXSTRING
    requires Body(pl, f) == Ok(data[p..p + f.size + |f.arg.s|])
    ensures Extracted(pl, f.kind, f.size, f.islittle, data, p) == Ok(([f.arg], p + f.size + |f.arg.s|))
  {
    hide Body, Counted, Extracted, Low, Order, Pow256;
    CountedText(pl, f);
    CountedRead(pl, f.size, f.islittle, f.arg.s, data, p);
  }

  lemma CountedText(pl: Platform, f: Field)
    requires f.kind == Kstring && f.arg.Str? && Body(pl, f).Ok?
    ensures Body(pl, f).value == Order(Low(|f.arg.s|, f.size), f.islittle) + f.arg.s && (f.size >= SZINT || |f.arg.s| < Pow256(f.size))
  {
    hide Low, Order, Pow256;
  }

  lemma CountedRead(pl: Platform, size: nat, islittle: bool, s: seq<byte>, data: seq<byte>, p: nat)
    requires 0 < size && p + size + |s| <= |data| < MAXSTRING && (size >= SZINT || |s| < Pow256(size))
    requires data[p..p + size + |s|] == Order(Low(|s|, size), islittle) + s
    ensures Extracted(pl, Kstring, size, islittle, data, p) == Ok(([Str(s)], p + size + |s|))
  {
    hide Low, Order, Number, Pow256, Counted, IntOf, Unsigned, Extracted;
    var n := |s|;
    Halves(data, p, Order(Low(n, size), islittle), s);
    OrderBack(Low(n, size), islittle);
    CountBack(n, size);
    CountValue(n, size);
    ExtractCounted(pl, size, islittle, data, p, n);
    CountedIs(data, p, size, n);
  }

  lemma Halves(data: seq<byte>, p: nat, a: seq<byte>, b: seq<byte>)
    requires p + |a| + |b| <= |data| && data[p..p + |a| + |b|] == a + b
    ensures data[p..p + |a|] == a && data[p + |a|..p + |a| + |b|] == b
  {
    var d := data[p..p + |a| + |b|];
    assert data[p..p + |a|] == d[..|a|] && data[p + |a|..p + |a| + |b|] == d[|a|..];
  }

  lemma CountedIs(data: seq<byte>, p: nat, size: nat, n: nat)
    requires p + size + n <= |data| < MAXSTRING
    ensures Counted(data, p, size, n) == Ok(([Str(data[p + size..p + size + n])], p + n + size))
  {
    CountInside(data, p, size, n);
  }

  /** A count comes back as an unsigned integer. */
  lemma CountValue(n: nat, size: nat)
    requires n < MAXSTRING && Number(Low(n, size)) == n
    ensures IntOf(Low(n, size), false) == Ok(n) && Unsigned(n) == n
  {
    hide Low, Number;
  }

  lemma {:induction false} StrlenIs(data: seq<byte>, p: nat, n: nat)
    requires p + n < |data| && data[p + n] == 0 && forall i :: p <= i < p + n ==> data[i] != 0
    ensures Strlen(data, p) == n
    decreases n
  {
    if n > 0 {
      StrlenIs(data, p + 1, n - 1);
    }
  }

  lemma ZeroTermBack(pl: Platform, f: Field, data: seq<byte>, p: nat)
    requires f.kind == Kzstr && f.size == 0 && f.arg.Str? && p + |f.arg.s| + 1 <= |data| < MAXSTRING
    requires Body(pl, f) == Ok(data[p..p + |f.arg.s| + 1])
    ensures Short(f) ==> Extracted(pl, f.kind, f.size, f.islittle, data, p) == Ok(([f.arg], p + |f.arg.s| + 1))
    ensures !Short(f) ==> var r := Extracted(pl, f.kind, f.size, f.islittle, data, p); r.Ok? ==> |r.value.0| == 1 && r.value.0 != [f.arg]
  {
    var s, d := f.arg.s, data[p..p + |f.arg.s| + 1];
    assert d == s + [0];
    forall i | p <= i < p + |s|
      ensures data[i] != 0
    {
      assert data[i] == d[i - p] == s[i - p];
    }
    assert data[p + |s|] == d[|s|];
    StrlenIs(data, p, |s|);
    assert data[p..p + |s|] == d[..|s|] == s;
    ThroughIntIs(|s|);
  }

  lemma ThroughIntIs(n: nat)
    requires n < MAXSTRING
    ensures if n < TWO31 then ThroughInt(n) == n else ThroughInt(n) != n
  {
  }

  /** One option read back, unless it is a zero-terminated string of more than an `int` can count. */
  lemma FieldBack(pl: Platform, f: Field, data: seq<byte>, p: nat)
    requires SizeOk(f.kind, f.size) && Body(pl, f).Ok? && |data| < MAXSTRING
    requires var b := Body(pl, f).value; p + |b| <= |data| && data[p..p + |b|] == b
    ensures p + f.size <= |data| && f.size <= |Body(pl, f).value|
    ensures Short(f) ==> Extracted(pl, f.kind, f.size, f.islittle, data, p) == Ok((KeptOne(pl, f), p + |Body(pl, f).value|))
    ensures !Short(f) ==> var r := Extracted(pl, f.kind, f.size, f.islittle, data, p);
      r.Ok? ==> |r.value.0| == |KeptOne(pl, f)| == 1 && r.value.0 != KeptOne(pl, f)
  {
    hide Low, Order, Number, IntOf, FitsSigned, FitsUnsigned, Unsigned, Strlen, ThroughInt, Pow256;
    if f.kind == Kint || f.kind == Kuint {
      IntBack(pl, f, data, p);
    } else if f.kind == Kfloat {
      NumBack(pl, f, data, p);
    } else if f.kind == Kstring {
      CountedBack(pl, f, data, p);
    } else if f.kind == Kzstr {
      ZeroTermBack(pl, f, data, p);
    }
  }

  // ---------- whole formats ----------

  lemma TextAfter(pl: Platform, f: Field, fs: seq<Field>, data: seq<byte>, p: nat)
    requires Body(pl, f).Ok?
    requires var t := Text(pl, [f] + fs); p + |t| <= |data| && data[p..p + |t|] == t
    ensures var b := Body(pl, f).value; var q := p + f.ntoalign;
      && q + |b| + |Text(pl, fs)| == p + |Text(pl, [f] + fs)|
      && data[q..q + |b|] == b && data[q + |b|..q + |b| + |Text(pl, fs)|] == Text(pl, fs)
  {
    hide Body, Text;
    var b := Body(pl, f).value;
    TextFirst(pl, f, fs);
    Pieces(data, p, Zeros(f.ntoalign), b, Text(pl, fs));
  }

  lemma TextFirst(pl: Platform, f: Field, fs: seq<Field>)
    requires Body(pl, f).Ok?
    ensures Text(pl, [f] + fs) == Zeros(f.ntoalign) + Body(pl, f).value + Text(pl, fs)
  {
    hide Body;
    assert ([f] + fs)[1..] == fs;
  }

  lemma Pieces(data: seq<byte>, p: nat, a: seq<byte>, b: seq<byte>, c: seq<byte>)
    requires var t := a + b + c; p + |t| <= |data| && data[p..p + |t|] == t
    ensures var q := p + |a|; data[q..q + |b|] == b && data[q + |b|..q + |b| + |c|] == c
  {
    var q, t := p + |a|, a + b + c;
    var d := data[p..p + |t|];
    forall k | 0 <= k < |b|
      ensures data[q + k] == b[k]
    {
      assert data[q + k] == d[|a| + k] == t[|a| + k];
    }
    forall k | 0 <= k < |c|
      ensures data[q + |b| + k] == c[k]
    {
      assert data[q + |b| + k] == d[|a| + |b| + k] == t[|a| + |b| + k];
    }
  }

  /** The packed text, anywhere in a string as long as it is where its alignment was computed for, is unpacked
      into what was packed if and only if `unpack` can measure its zero-terminated strings. */
  lemma {:induction false} RoundTripFrom(pl: Platform, h: Header, fmt: seq<byte>, i: nat, total: nat, args: seq<Val>, data: seq<byte>)
    requires Fields(pl, h, fmt, i, total, args).Ok? && |data| < MAXSTRING
    requires var t := Text(pl, Fields(pl, h, fmt, i, total, args).value); total + |t| <= |data| && data[total..total + |t|] == t
    ensures var fs := Fields(pl, h, fmt, i, total, args).value;
      UnpackFrom(pl, h, fmt, i, data, total) == Ok((KeptAll(pl, fs), total + |Text(pl, fs)|)) <==> AllShort(fs)
    decreases |fmt| - i
  {
    hide Fields, UnpackFrom, DetailsAt, Text, Body, FieldOf, Left, Extracted, Short, KeptOne, KeptAll, AllShort, First;
    if Char(fmt, i) == 0 {
      RoundTripEnd(pl, h, fmt, i, total, args, data);
    } else {
      FirstOk(pl, h, fmt, i, total, args);
      var (d, f, b) := First(pl, h, fmt, i, total, args).value;
      FieldsUnfold(pl, h, fmt, i, total, args, d, f, b);
      var next := total + d.ntoalign + |b|;
      var rest := Fields(pl, d.head, fmt, d.next, next, Left(d.kind, args)).value;
      TextAfter(pl, f, rest, data, total);
      FieldBack(pl, f, data, total + d.ntoalign);
      RoundTripFrom(pl, d.head, fmt, d.next, next, Left(d.kind, args), data);
      Combine(pl, h, fmt, i, total, data, d, f, rest, next);
    }
  }

  lemma FirstOk(pl: Platform, h: Header, fmt: seq<byte>, i: nat, total: nat, args: seq<Val>)
    requires Fields(pl, h, fmt, i, total, args).Ok? && Char(fmt, i) != 0
    ensures First(pl, h, fmt, i, total, args).Ok?
  {
    hide First, Left;
  }

  lemma FieldsUnfold(pl: Platform, h: Header, fmt: seq<byte>, i: nat, total: nat, args: seq<Val>, d: Details, f: Field, b: seq<byte>)
    requires Fields(pl, h, fmt, i, total, args).Ok? && i < |fmt| && Char(fmt, i) != 0 && (Takes(d.kind) ==> args != [])
    requires First(pl, h, fmt, i, total, args) == Ok((d, f, b))
    ensures var rest := Fields(pl, d.head, fmt, d.next, total + d.ntoalign + |b|, Left(d.kind, args));
      rest.Ok? && Fields(pl, h, fmt, i, total, args).value == [f] + rest.value
  {
    hide First, Left, DetailsAt, Body;
  }

  lemma RoundTripEnd(pl: Platform, h: Header, fmt: seq<byte>, i: nat, total: nat, args: seq<Val>, data: seq<byte>)
    requires Char(fmt, i) == 0 && |data| < MAXSTRING
    ensures Fields(pl, h, fmt, i, total, args) == Ok([]) && Text(pl, []) == [] && KeptAll(pl, []) == [] && AllShort([])
    ensures UnpackFrom(pl, h, fmt, i, data, total) == Ok(([], total))
  {
  }

  lemma Combine(pl: Platform, h: Header, fmt: seq<byte>, i: nat, total: nat, data: seq<byte>, d: Details, f: Field, rest: seq<Field>, next: nat)
    requires Char(fmt, i) != 0 && |data| < MAXSTRING && DetailsAt(h, total, fmt, i, pl.little) == Ok(d)
    requires d.kind == f.kind && d.size == f.size && total + d.ntoalign + d.size <= |data| && SizeOk(d.kind, d.size)
    requires var r := Extracted(pl, d.kind, d.size, d.head.islittle, data, total + d.ntoalign);
      && (Short(f) ==> r == Ok((KeptOne(pl, f), next)))
      && (!Short(f) && r.Ok? ==> |r.value.0| == |KeptOne(pl, f)| == 1 && r.value.0 != KeptOne(pl, f))
    requires next + |Text(pl, rest)| == total + |Text(pl, [f] + rest)|
    requires UnpackFrom(pl, d.head, fmt, d.next, data, next) == Ok((KeptAll(pl, rest), next + |Text(pl, rest)|)) <==> AllShort(rest)
    ensures UnpackFrom(pl, h, fmt, i, data, total) == Ok((KeptAll(pl, [f] + rest), total + |Text(pl, [f] + rest)|)) <==> AllShort([f] + rest)
  {
    hide Text, Extracted, Short, KeptOne, DetailsAt;
    var fs := [f] + rest;
    assert fs[1..] == rest && KeptAll(pl, fs) == KeptOne(pl, f) + KeptAll(pl, rest);
    assert AllShort(fs) <==> Short(f) && AllShort(rest) by {
      assert forall k :: 0 <= k < |rest| ==> fs[k + 1] == rest[k];
      assert forall k :: 1 <= k < |fs| ==> fs[k] == rest[k - 1];
    }
    var r := Extracted(pl, d.kind, d.size, d.head.islittle, data, total + d.ntoalign);
    var u := UnpackFrom(pl, h, fmt, i, data, total);
    if r.Ok? {
      var v := UnpackFrom(pl, d.head, fmt, d.next, data, r.value.1);
      if v.Ok? {
        assert u == Ok((r.value.0 + v.value.0, v.value.1));
        SamePrefix(r.value.0, KeptOne(pl, f), v.value.0, KeptAll(pl, rest));
      }
    }
  }

  lemma SamePrefix<A>(a: seq<A>, b: seq<A>, c: seq<A>, d: seq<A>)
    requires |a| == |b|
    ensures a + c == b + d <==> a == b && c == d
  {
    if a + c == b + d {
      assert a == (a + c)[..|a|] && c == (a + c)[|a|..];
      assert b == (b + d)[..|b|] && d == (b + d)[|b|..];
    }
  }

  // ---------- sizes ----------

  /** `packsize`: the length that the format from `i` on leads to. */
  function SizeFrom(h: Header, fmt: seq<byte>, i: nat, total: nat, native: bool): Result<nat>
    decreases |fmt| - i
  {
    if Char(fmt, i) == 0 then Ok(total)
    else
      var d :- DetailsAt(h, total, fmt, i, native);
      if total > MAXSIZE - (d.size + d.ntoalign) then Err("format result too large")
      else if d.kind == Kstring || d.kind == Kzstr then Err("variable-length format")
      else SizeFrom(d.head, fmt, d.next, total + (d.size + d.ntoalign), native)
  }

  predicate FixedSize(f: Field) {
    f.kind != Kstring && f.kind != Kzstr
  }

  predicate AllFixed(fs: seq<Field>) {
    forall k :: 0 <= k < |fs| ==> FixedSize(fs[k])
  }

  lemma BodySize(pl: Platform, f: Field)
    requires SizeOk(f.kind, f.size) && Body(pl, f).Ok? && FixedSize(f)
    ensures |Body(pl, f).value| == f.size
  {
  }

  /** When packing succeeds, `packsize` gives the length of the result, for formats without strings of variable
      length and results up to the limit, and fails for all others. */
  lemma {:induction false} SizeExact(pl: Platform, h: Header, fmt: seq<byte>, i: nat, total: nat, args: seq<Val>)
    requires Fields(pl, h, fmt, i, total, args).Ok? && total <= MAXSIZE
    ensures var fs := Fields(pl, h, fmt, i, total, args).value; var n := total + |Text(pl, fs)|;
      var r := SizeFrom(h, fmt, i, total, pl.little);
      (r.Ok? <==> AllFixed(fs) && n <= MAXSIZE) && (r.Ok? ==> r.value == n)
    decreases |fmt| - i
  {
    hide Fields, DetailsAt, Text, Body, FieldOf, Left, First, AllFixed, SizeFrom;
    if Char(fmt, i) == 0 {
      SizeEnd(pl, h, fmt, i, total, args);
    } else {
      FirstOk(pl, h, fmt, i, total, args);
      var (d, f, b) := First(pl, h, fmt, i, total, args).value;
      FieldsUnfold(pl, h, fmt, i, total, args, d, f, b);
      var next := total + d.ntoalign + |b|;
      var rest := Fields(pl, d.head, fmt, d.next, next, Left(d.kind, args)).value;
      TextFirst(pl, f, rest);
      FixedFirst(f, rest);
      SizeStep(h, fmt, i, total, pl.little, d);
      if FixedSize(f) {
        BodySize(pl, f);
        if next <= MAXSIZE {
          SizeExact(pl, d.head, fmt, d.next, next, Left(d.kind, args));
        }
      }
    }
  }

  lemma SizeEnd(pl: Platform, h: Header, fmt: seq<byte>, i: nat, total: nat, args: seq<Val>)
    requires Char(fmt, i) == 0 && total <= MAXSIZE
    ensures Fields(pl, h, fmt, i, total, args) == Ok([]) && Text(pl, []) == [] && AllFixed([])
    ensures SizeFrom(h, fmt, i, total, pl.little) == Ok(total)
  {
  }

  lemma SizeStep(h: Header, fmt: seq<byte>, i: nat, total: nat, native: bool, d: Details)
    requires Char(fmt, i) != 0 && DetailsAt(h, total, fmt, i, native) == Ok(d)
    ensures var r := SizeFrom(h, fmt, i, total, native); var next := total + (d.size + d.ntoalign);
      if next <= MAXSIZE && d.kind != Kstring && d.kind != Kzstr then r == SizeFrom(d.head, fmt, d.next, next, native) else r.Err?
  {
    hide DetailsAt;
  }

  lemma FixedFirst(f: Field, rest: seq<Field>)
    ensures AllFixed([f] + rest) <==> FixedSize(f) && AllFixed(rest)
  {
    hide FixedSize;
    var fs := [f] + rest;
    assert fs[0] == f;
    assert forall k :: 0 <= k < |rest| ==> fs[k + 1] == rest[k];
    assert forall k :: 1 <= k < |fs| ==> fs[k] == rest[k - 1];
  }
}
