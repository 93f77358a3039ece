/** `string.pack`, `string.packsize` and `string.unpack`. */
module PackStrings {
  import opened Bytes
  import opened Sequences
  import opened PackInts
  import opened PackBuffer
  import opened PackFormat
  import opened PackFields
  import opened PackRoundTrip

  const START: nat := 1

  /** What `string.pack` returns. */
  function Packed(pl: Platform, fmt: seq<byte>, args: seq<Val>): Result<seq<byte>> {
    var fs :- Fields(pl, Header(pl.little, 1), fmt, 0, 0, args); Ok(Text(pl, fs))
  }

  /** What `string.unpack` returns: the values, and the position after what was read. */
  function Unpacked(pl: Platform, fmt: seq<byte>, data: seq<byte>, init: int): Result<(seq<Val>, nat)>
    requires |data| < MAXSTRING
  {
    var q := Posrelat(init, |data|);
    if q == 0 || q - 1 > |data| then Err("initial position out of string")
    else var u :- UnpackFrom(pl, Header(pl.little, 1), fmt, 0, data, q - 1); Ok((u.0, u.1 + 1))
  }

  // ---------- the checks on integers ----------

  lemma SignedLimit(n: Integer, size: nat)
    requires 0 < size
    ensures var lim: int := SignBit(size); FitsSigned(n, size) <==> size >= SZINT || -lim <= n < lim
  {
    assert Pow256(size) == 2 * SignBit(size);
    hide Pow256, SignBit;
  }

  lemma UnsignedLimit(n: Integer, size: nat)
    ensures FitsUnsigned(n, size) <==> size >= SZINT || Unsigned(n) < Pow256(size)
  {
    hide Pow256;
    if size < SZINT {
      PowEight();
      PowGrows(size, SZINT);
    }
  }

  // ---------- packing ----------

  /** No string is longer than strings can be. */
  predicate IsVal(v: Val) {
    v.Str? ==> |v.s| < MAXSTRING
  }

  /** Zeros for alignment and to fill up strings. */
  method Fill(b: Buffer, n: nat)
    modifies b
    ensures b.text == old(b.text) + Zeros(n)
  {
    var k := n;
    while k > 0
      invariant 0 <= k <= n && b.text == old(b.text) + Zeros(n - k)
    {
      b.AddChar(0);
      k := k - 1;
    }
  }

  /** The cases of `str_pack`. */
  method PackItem(pl: Platform, b: Buffer, f: Field) returns (r: Result<()>)
    requires SizeOk(f.kind, f.size) && IsVal(f.arg)
    modifies b
    ensures var t := Body(pl, f); if t.Ok? then r == Ok(()) && b.text == old(b.text) + t.value else r == Err(t.error)
  {
    hide Low, Order, FitsSigned, FitsUnsigned, Unsigned, Pow256, SignBit;
    var size, islittle := f.size, f.islittle;
    if f.kind == Kint {
      r := PackSigned(b, f);
    } else if f.kind == Kuint {
      r := PackUnsigned(b, f);
    } else if f.kind == Kfloat {
      if !f.arg.Num? {
        return Err("number expected");
      }
      var buff := new byte[size];
      if size == 4 {
        CopyWithEndian(buff, pl.narrow(f.arg.bits), islittle, pl.little);
      } else {
        CopyWithEndian(buff, f.arg.bits, islittle, pl.little);
      }
      b.AddString(buff[..]);
      r := Ok(());
    } else if f.kind == Kchar {
      if !f.arg.Str? {
        return Err("string expected");
      }
      if size <= |f.arg.s| {
        b.AddString(f.arg.s[..size]);
      } else {
        b.AddString(f.arg.s);
        Fill(b, size - |f.arg.s|);
      }
      r := Ok(());
    } else if f.kind == Kstring {
      r := PackCounted(b, f);
    } else if f.kind == Kzstr {
      if !f.arg.Str? {
        return Err("string expected");
      }
      if 0 in f.arg.s {
        return Err("string contains zeros");
      }
      b.AddString(f.arg.s);
      b.AddChar(0);
      r := Ok(());
    } else {
      if f.kind == Kpadding {
        b.AddChar(0);
      }
      r := Ok(());
    }
  }

  method PackSigned(b: Buffer, f: Field) returns (r: Result<()>)
    requires f.kind == Kint && 0 < f.size
    modifies b
    ensures r == if !f.arg.Int? then Err("number expected") else if !FitsSigned(f.arg.n, f.size) then Err("integer overflow") else Ok(())
    ensures r.Ok? ==> b.text == old(b.text) + Order(Low(f.arg.n, f.size), f.islittle)
  {
    hide Low, Order, FitsSigned, Pow256, SignBit;
    if !f.arg.Int? {
      return Err("number expected");
    }
    var n := f.arg.n;
    SignedLimit(n, f.size);
    if f.size < SZINT {
      var lim: int := SignBit(f.size);
      if !(-lim <= n < lim) {
        return Err("integer overflow");
      }
    }
    b.PackInt(Unsigned(n), f.islittle, f.size, n < 0);
    r := Ok(());
  }

  method PackUnsigned(b: Buffer, f: Field) returns (r: Result<()>)
    requires f.kind == Kuint && 0 < f.size
    modifies b
    ensures r == if !f.arg.Int? then Err("number expected") else if !FitsUnsigned(f.arg.n, f.size) then Err("unsigned overflow") else Ok(())
    ensures r.Ok? ==> b.text == old(b.text) + Order(Low(Unsigned(f.arg.n), f.size), f.islittle)
  {
    hide Low, Order, FitsUnsigned, Pow256;
    if !f.arg.Int? {
      return Err("number expected");
    }
    var n := f.arg.n;
    UnsignedLimit(n, f.size);
    if f.size < SZINT && Unsigned(n) >= Pow256(f.size) {
      return Err("unsigned overflow");
    }
    b.PackInt(Unsigned(n), f.islittle, f.size, false);
    r := Ok(());
  }

  method PackCounted(b: Buffer, f: Field) returns (r: Result<()>)
    requires f.kind == Kstring && 0 < f.size && IsVal(f.arg)
    modifies b
    ensures r == if !f.arg.Str? then Err("string expected")
      else if f.size < SZINT && |f.arg.s| >= Pow256(f.size) then Err("string length does not fit in given size") else Ok(())
    ensures r.Ok? ==> b.text == old(b.text) + (Order(Low(|f.arg.s|, f.size), f.islittle) + f.arg.s)
  {
    hide Low, Order, Pow256;
    if !f.arg.Str? {
      return Err("string expected");
    }
    var len := |f.arg.s|;
    if f.size < SZINT && len >= Pow256(f.size) {
      return Err("string length does not fit in given size");
    }
    b.PackInt(len, f.islittle, f.size, false);
    b.AddString(f.arg.s);
    r := Ok(());
  }

  /** A result after the fields that came before it. */
  ghost function Join(done: seq<Field>, r: Result<seq<Field>>): Result<seq<Field>> {
    if r.Ok? then Ok(done + r.value) else r
  }

  lemma {:induction false} TextSnoc(pl: Platform, fs: seq<Field>, f: Field)
    ensures Text(pl, fs + [f]) == Text(pl, fs) + FieldText(pl, f)
  {
    hide FieldText;
    if fs == [] {
      assert fs + [f] == [f] && [f][1..] == [];
      assert Text(pl, [f]) == FieldText(pl, f) + Text(pl, []);
    } else {
      TextSnoc(pl, fs[1..], f);
      assert (fs + [f])[1..] == fs[1..] + [f] && (fs + [f])[0] == fs[0];
    }
  }

  /** One turn of the loop of `str_pack`, when it succeeds. */
  lemma FieldsNext(pl: Platform, h: Header, fmt: seq<byte>, i: nat, total: nat, args: seq<Val>, done: seq<Field>)
    requires Char(fmt, i) != 0 && First(pl, h, fmt, i, total, args).Ok?
    ensures var (d, f, b) := First(pl, h, fmt, i, total, args).value;
      && Join(done, Fields(pl, h, fmt, i, total, args)) == Join(done + [f], Fields(pl, d.head, fmt, d.next, total + d.ntoalign + |b|, Left(d.kind, args)))
      && Text(pl, done + [f]) == Text(pl, done) + (Zeros(d.ntoalign) + b)
  {
    hide First, Fields, Left, Body, Text, Zeros;
    var (d, f, b) := First(pl, h, fmt, i, total, args).value;
    FieldsCases(pl, h, fmt, i, total, args);
    TextSnoc(pl, done, f);
    FieldTextIs(pl, f, b);
    var rest := Fields(pl, d.head, fmt, d.next, total + d.ntoalign + |b|, Left(d.kind, args));
    if rest.Ok? {
      assert done + ([f] + rest.value) == done + [f] + rest.value;
    }
  }

  lemma FieldsCases(pl: Platform, h: Header, fmt: seq<byte>, i: nat, total: nat, args: seq<Val>)
    requires Char(fmt, i) != 0 && First(pl, h, fmt, i, total, args).Ok?
    ensures var (d, f, b) := First(pl, h, fmt, i, total, args).value; var r := Fields(pl, h, fmt, i, total, args);
      var rest := Fields(pl, d.head, fmt, d.next, total + d.ntoalign + |b|, Left(d.kind, args));
      if rest.Ok? then r == Ok([f] + rest.value) else r == rest
  {
    hide First, Left, DetailsAt, Body;
  }

  lemma FieldTextIs(pl: Platform, f: Field, b: seq<byte>)
    requires Body(pl, f) == Ok(b)
    ensures FieldText(pl, f) == Zeros(f.ntoalign) + b
  {
    hide Body;
  }

  /** The loop ends in an error when one turn does. */
  lemma FieldsFail(pl: Platform, h: Header, fmt: seq<byte>, i: nat, total: nat, args: seq<Val>, done: seq<Field>)
    requires Char(fmt, i) != 0 && First(pl, h, fmt, i, total, args).Err?
    ensures Join(done, Fields(pl, h, fmt, i, total, args)) == Err(First(pl, h, fmt, i, total, args).error)
  {
    hide First;
  }

  /** The options and arguments left before and after one turn. */
  lemma PackTurn(pl: Platform, h: Header, fmt: seq<byte>, i: nat, total: nat, args: seq<Val>, arg: nat, done: seq<Field>)
    requires Char(fmt, i) != 0 && arg <= |args|
    ensures var x := First(pl, h, fmt, i, total, args[arg..]); var all := Join(done, Fields(pl, h, fmt, i, total, args[arg..]));
      if x.Err? then all == Err(x.error)
      else var (d, f, b) := x.value; var next := if Takes(d.kind) then arg + 1 else arg;
        && next <= |args| && i < d.next <= |fmt|
        && all == Join(done + [f], Fields(pl, d.head, fmt, d.next, total + d.ntoalign + |b|, args[next..]))
        && Text(pl, done + [f]) == Text(pl, done) + (Zeros(d.ntoalign) + b)
  {
    hide First, Fields, Text, Join, Zeros;
    if First(pl, h, fmt, i, total, args[arg..]).Ok? {
      FieldsNext(pl, h, fmt, i, total, args[arg..], done);
    } else {
      FieldsFail(pl, h, fmt, i, total, args[arg..], done);
    }
  }

  lemma PackStart(pl: Platform, all: Result<seq<Field>>)
    ensures Text(pl, []) == [] && Join([], all) == all
  {
    if all.Ok? {
      assert [] + all.value == all.value;
    }
  }

  lemma PackEnd(pl: Platform, h: Header, fmt: seq<byte>, i: nat, total: nat, args: seq<Val>, done: seq<Field>)
    requires Char(fmt, i) == 0
    ensures Join(done, Fields(pl, h, fmt, i, total, args)) == Ok(done)
  {
    assert done + [] == done;
  }

  lemma FirstCases(pl: Platform, h: Header, fmt: seq<byte>, i: nat, total: nat, args: seq<Val>)
    requires Char(fmt, i) != 0
    ensures var d := DetailsAt(h, total, fmt, i, pl.little); var r := First(pl, h, fmt, i, total, args);
      if d.Err? then r == Err(d.error) else if Takes(d.value.kind) && args == [] then r == Err("no value")
      else var f := FieldOf(d.value, args); var b := Body(pl, f);
        if b.Err? then r == Err(b.error) else r == Ok((d.value, f, b.value))
  {
    hide Body;
  }

  /** What an option adds to the total size, not counting the gap. */
  function Taken(f: Field): nat {
    f.size + if f.kind == Kstring && f.arg.Str? then |f.arg.s| else if f.kind == Kzstr && f.arg.Str? then |f.arg.s| + 1 else 0
  }

  lemma TakenIs(pl: Platform, f: Field)
    requires SizeOk(f.kind, f.size) && Body(pl, f).Ok?
    ensures |Body(pl, f).value| == Taken(f)
  {
  }

  /** One turn of the loop of `str_pack`: an option, and its argument if it takes one. */
  method PackOption(pl: Platform, rd: Reader, b: Buffer, totalsize: nat, args: seq<Val>, arg: nat) returns (r: Result<(Kind, nat)>)
    requires rd.native == pl.little && rd.p < |rd.fmt| && Char(rd.fmt, rd.p) != 0 && 0 < rd.maxalign <= MAXINTSIZE && arg <= |args|
    requires forall k :: 0 <= k < |args| ==> IsVal(args[k])
    modifies rd, b
    ensures 0 < rd.maxalign <= MAXINTSIZE || r.Err?
    ensures var x := First(pl, old(rd.Head()), rd.fmt, old(rd.p), totalsize, args[arg..]);
      if x.Err? then r == Err(x.error)
      else var (d, f, t) := x.value;
        && r == Ok((d.kind, totalsize + d.ntoalign + |t|)) && rd.Head() == d.head && rd.p == d.next
        && b.text == old(b.text) + (Zeros(d.ntoalign) + t)
  {
    hide DetailsAt, Body, First, Zeros;
    FirstCases(pl, rd.Head(), rd.fmt, rd.p, totalsize, args[arg..]);
    var det :- rd.GetDetails(totalsize);
    var (opt, size, ntoalign) := det;
    Fill(b, ntoalign);
    if Takes(opt) && arg == |args| {
      return Err("no value");
    }
    var f := Field(ntoalign, opt, size, rd.islittle, if Takes(opt) then args[arg] else Str([]));
    var _ :- PackItem(pl, b, f);
    TakenIs(pl, f);
    return Ok((opt, totalsize + ntoalign + Taken(f)));
  }

  /** `str_pack`, on a machine of which `pl` tells the byte order and the floats. */
  method StrPack(pl: Platform, fmt: seq<byte>, args: seq<Val>) returns (r: Result<seq<byte>>)
    requires forall k :: 0 <= k < |args| ==> IsVal(args[k])
    ensures r == Packed(pl, fmt, args)
  {
    hide Fields, DetailsAt, Text, Body, First, Join, Zeros;
    var rd := new Reader(fmt, pl.little);
    var b := new Buffer();
    var arg, totalsize := 0, 0;
    ghost var all := Fields(pl, Header(pl.little, 1), fmt, 0, 0, args);
    ghost var done := [];
    assert args[0..] == args;
    PackStart(pl, all);
    while Char(fmt, rd.p) != 0
      invariant rd.p <= |fmt| && 0 < rd.maxalign <= MAXINTSIZE && arg <= |args|
      invariant b.text == Text(pl, done)
      invariant all == Join(done, Fields(pl, rd.Head(), fmt, rd.p, totalsize, args[arg..]))
      decreases |fmt| - rd.p
    {
      ghost var x := First(pl, rd.Head(), fmt, rd.p, totalsize, args[arg..]);
      PackTurn(pl, rd.Head(), fmt, rd.p, totalsize, args, arg, done);
      var one :- PackOption(pl, rd, b, totalsize, args, arg);
      totalsize := one.1;
      if Takes(one.0) {
        arg := arg + 1;
      }
      done := done + [x.value.1];
    }
    PackEnd(pl, rd.Head(), fmt, rd.p, totalsize, args[arg..], done);
    r := Ok(b.text);
  }

  /** `str_packsize`. */
  method StrPackSize(pl: Platform, fmt: seq<byte>) returns (r: Result<nat>)
    ensures r == SizeFrom(Header(pl.little, 1), fmt, 0, 0, pl.little)
  {
    hide DetailsAt, SizeFrom;
    var rd := new Reader(fmt, pl.little);
    var totalsize := 0;
    while Char(fmt, rd.p) != 0
      invariant rd.p <= |fmt| && 0 < rd.maxalign <= MAXINTSIZE
      invariant SizeFrom(Header(pl.little, 1), fmt, 0, 0, pl.little) == SizeFrom(rd.Head(), fmt, rd.p, totalsize, pl.little)
      decreases |fmt| - rd.p
    {
      SizeCases(rd.Head(), fmt, rd.p, totalsize, pl.little);
      var det :- rd.GetDetails(totalsize);
      var (opt, size, ntoalign) := det;
      size := size + ntoalign;
      if totalsize > MAXSIZE - size {
        return Err("format result too large");
      }
      totalsize := totalsize + size;
      if opt == Kstring || opt == Kzstr {
        return Err("variable-length format");
      }
    }
    SizeDone(rd.Head(), fmt, rd.p, totalsize, pl.little);
    r := Ok(totalsize);
  }

  lemma SizeCases(h: Header, fmt: seq<byte>, i: nat, total: nat, native: bool)
    requires Char(fmt, i) != 0
    ensures var r := SizeFrom(h, fmt, i, total, native); var d := DetailsAt(h, total, fmt, i, native);
      if d.Err? then r == Err(d.error)
      else var size := d.value.size + d.value.ntoalign;
        r == if total > MAXSIZE - size then Err("format result too large")
          else if d.value.kind == Kstring || d.value.kind == Kzstr then Err("variable-length format")
          else SizeFrom(d.value.head, fmt, d.value.next, total + size, native)
  {
    hide DetailsAt;
  }

  lemma SizeDone(h: Header, fmt: seq<byte>, i: nat, total: nat, native: bool)
    requires Char(fmt, i) == 0
    ensures SizeFrom(h, fmt, i, total, native) == Ok(total)
  {
  }

  // ---------- unpacking ----------

  /** `strlen(data + p)`. */
  method Measure(data: seq<byte>, p: nat) returns (n: nat)
    requires p <= |data|
    ensures n == Strlen(data, p)
  {
    n := 0;
    while p + n < |data| && data[p + n] != 0
      invariant p + n <= |data| && Strlen(data, p) == n + Strlen(data, p + n)
      decreases |data| - n
    {
      n := n + 1;
    }
  }

  /** The cases of `str_unpack`. */
  method UnpackItem(pl: Platform, k: Kind, size: nat, islittle: bool, data: seq<byte>, pos: nat) returns (r: Result<(seq<Val>, nat)>)
    requires SizeOk(k, size) && pos + size <= |data| < MAXSTRING
    ensures r == Extracted(pl, k, size, islittle, data, pos)
  {
    hide IntOf, Order, Unsigned, ThroughInt, Strlen;
    if k == Kint || k == Kuint {
      var n :- UnpackInt(data, pos, islittle, size, k == Kint);
      return Ok(([Int(n)], pos + size));
    } else if k == Kfloat {
      var u := new byte[size];
      CopyWithEndian(u, data[pos..pos + size], islittle, pl.little);
      return Ok(([Num(if size == 4 then pl.widen(u[..]) else u[..])], pos + size));
    } else if k == Kchar {
      return Ok(([Str(data[pos..pos + size])], pos + size));
    } else if k == Kstring {
      var n :- UnpackInt(data, pos, islittle, size, false);
      r := TakeCounted(data, pos, size, Unsigned(n));
    } else if k == Kzstr {
      var n := Measure(data, pos);
      var len := ThroughInt(n);
      var s :- PushString(data, pos, len);
      return Ok(([Str(s)], pos + len + 1 + size));
    } else {
      r := Ok(([], pos + size));
    }
  }

  /** `lua_pushlstring(data + p, len)`. */
  method PushString(data: seq<byte>, p: nat, len: nat) returns (r: Result<seq<byte>>)
    requires len < MAXSTRING ==> p + len <= |data|
    ensures r == if len >= MAXSTRING then Err("block too big") else Ok(data[p..p + len])
  {
    if len >= MAXSTRING {
      return Err("block too big");
    }
    r := Ok(data[p..p + len]);
  }

  method TakeCounted(data: seq<byte>, pos: nat, size: nat, len: nat) returns (r: Result<(seq<Val>, nat)>)
    requires pos + size <= |data| < MAXSTRING && len < TWO64
    ensures r == Counted(data, pos, size, len)
  {
    if (pos + len + size) % TWO64 > |data| {
      return Err("data string too short");
    }
    if len < MAXSTRING {
      CountInside(data, pos, size, len);
    }
    var s :- PushString(data, pos + size, len);
    r := Ok(([Str(s)], pos + len + size));
  }

  /** A result after the values that came before it. */
  ghost function After(vs: seq<Val>, r: Result<(seq<Val>, nat)>): Result<(seq<Val>, nat)> {
    if r.Ok? then Ok((vs + r.value.0, r.value.1)) else r
  }

  lemma UnpackCases(pl: Platform, h: Header, fmt: seq<byte>, i: nat, data: seq<byte>, pos: nat, vs: seq<Val>)
    requires Char(fmt, i) != 0 && |data| < MAXSTRING
    ensures var d := DetailsAt(h, pos, fmt, i, pl.little); var r := After(vs, UnpackFrom(pl, h, fmt, i, data, pos));
      if d.Err? then r == Err(d.error)
      else if d.value.ntoalign + d.value.size > TWO64 - 1 - pos || pos + d.value.ntoalign + d.value.size > |data| then r == Err("data string too short")
      else var u := Extracted(pl, d.value.kind, d.value.size, d.value.head.islittle, data, pos + d.value.ntoalign);
        if u.Err? then r == Err(u.error) else r == After(vs + u.value.0, UnpackFrom(pl, d.value.head, fmt, d.value.next, data, u.value.1))
  {
    hide DetailsAt, Extracted;
    var d := DetailsAt(h, pos, fmt, i, pl.little);
    if d.Ok? && d.value.ntoalign + d.value.size <= TWO64 - 1 - pos && pos + d.value.ntoalign + d.value.size <= |data| {
      var u := Extracted(pl, d.value.kind, d.value.size, d.value.head.islittle, data, pos + d.value.ntoalign);
      if u.Ok? {
        var rest := UnpackFrom(pl, d.value.head, fmt, d.value.next, data, u.value.1);
        if rest.Ok? {
          assert vs + (u.value.0 + rest.value.0) == vs + u.value.0 + rest.value.0;
        }
      }
    }
  }

  lemma UnpackEnd(pl: Platform, h: Header, fmt: seq<byte>, i: nat, data: seq<byte>, pos: nat, vs: seq<Val>)
    requires Char(fmt, i) == 0 && |data| < MAXSTRING
    ensures After(vs, UnpackFrom(pl, h, fmt, i, data, pos)) == Ok((vs, pos))
  {
    assert vs + [] == vs;
  }

  lemma UnpackStart(r: Result<(seq<Val>, nat)>)
    ensures After([], r) == r
  {
    if r.Ok? {
      assert [] + r.value.0 == r.value.0;
    }
  }

  /** `str_unpack`. */
  method StrUnpack(pl: Platform, fmt: seq<byte>, data: seq<byte>, init: int) returns (r: Result<(seq<Val>, nat)>)
    requires |data| < MAXSTRING
    ensures r == Unpacked(pl, fmt, data, init)
  {
    hide DetailsAt, Extracted, UnpackFrom, After;
    var q := Posrelat(init, |data|);
    if q == 0 || q - 1 > |data| {
      return Err("initial position out of string");
    }
    var pos: nat := q - 1;
    var rd := new Reader(fmt, pl.little);
    var results := [];
    ghost var all := UnpackFrom(pl, Header(pl.little, 1), fmt, 0, data, pos);
    UnpackStart(all);
    while Char(fmt, rd.p) != 0
      invariant rd.p <= |fmt| && 0 < rd.maxalign <= MAXINTSIZE
      invariant all == After(results, UnpackFrom(pl, rd.Head(), fmt, rd.p, data, pos))
      decreases |fmt| - rd.p
    {
      UnpackCases(pl, rd.Head(), fmt, rd.p, data, pos, results);
      var det :- rd.GetDetails(pos);
      var (opt, size, ntoalign) := det;
      if ntoalign + size > TWO64 - 1 - pos || pos + ntoalign + size > |data| {
        return Err("data string too short");
      }
      pos := pos + ntoalign;
      var u :- UnpackItem(pl, opt, size, rd.islittle, data, pos);
      results, pos := results + u.0, u.1;
    }
    UnpackEnd(pl, rd.Head(), fmt, rd.p, data, pos, results);
    r := Ok((results, pos + 1));
  }

  // ---------- there and back ----------

  /** What is packed is unpacked again, with the position after the whole text, if and only if no
      zero-terminated string is longer than an `int` can count. */
  lemma RoundTrip(pl: Platform, fmt: seq<byte>, args: seq<Val>)
    requires Packed(pl, fmt, args).Ok? && |Packed(pl, fmt, args).value| < MAXSTRING
    ensures var fs := Fields(pl, Header(pl.little, 1), fmt, 0, 0, args).value; var t := Packed(pl, fmt, args).value;
      Unpacked(pl, fmt, t, START) == Ok((KeptAll(pl, fs), |t| + 1)) <==> AllShort(fs)
  {
    hide Fields, Text, UnpackFrom, KeptAll, AllShort;
    var t := Packed(pl, fmt, args).value;
    assert t[0..0 + |t|] == t;
    RoundTripFrom(pl, Header(pl.little, 1), fmt, 0, 0, args, t);
  }

  /** The length that `packsize` gives. */
  lemma SizeOfPacked(pl: Platform, fmt: seq<byte>, args: seq<Val>)
    requires Packed(pl, fmt, args).Ok?
    ensures var fs := Fields(pl, Header(pl.little, 1), fmt, 0, 0, args).value; var t := Packed(pl, fmt, args).value;
      var r := SizeFrom(Header(pl.little, 1), fmt, 0, 0, pl.little);
      (r.Ok? <==> AllFixed(fs) && |t| <= 2147483647) && (r.Ok? ==> r.value == |t|)
  {
    hide Fields, Text, SizeFrom, AllFixed;
    SizeExact(pl, Header(pl.little, 1), fmt, 0, 0, args);
  }

  /** Arguments that come back as they were: all but strings of another length than the fixed one, and numbers
      that are no floats but packed as such. */
  predicate Exact(pl: Platform, f: Field) {
    Takes(f.kind) ==> Kept(pl, f) == f.arg
  }

  /** Then the values are the arguments, in order. */
  lemma {:induction false} ArgumentsBack(pl: Platform, h: Header, fmt: seq<byte>, i: nat, total: nat, args: seq<Val>)
    requires Fields(pl, h, fmt, i, total, args).Ok?
    requires forall k :: 0 <= k < |Fields(pl, h, fmt, i, total, args).value| ==> Exact(pl, Fields(pl, h, fmt, i, total, args).value[k])
    ensures KeptAll(pl, Fields(pl, h, fmt, i, total, args).value) <= args
    decreases |fmt| - i
  {
    hide Fields, First, Exact, KeptAll, Left;
    if Char(fmt, i) == 0 {
      KeptNone(pl, h, fmt, i, total, args);
    } else {
      FirstOk(pl, h, fmt, i, total, args);
      var (d, f, b) := First(pl, h, fmt, i, total, args).value;
      FieldsUnfold(pl, h, fmt, i, total, args, d, f, b);
      var next := total + d.ntoalign + |b|;
      var all := Fields(pl, h, fmt, i, total, args).value;
      var rest := Fields(pl, d.head, fmt, d.next, next, Left(d.kind, args)).value;
      assert Exact(pl, all[0]);
      assert forall k :: 0 <= k < |rest| ==> rest[k] == all[k + 1];
      ArgumentsBack(pl, d.head, fmt, d.next, next, Left(d.kind, args));
      FirstArg(pl, h, fmt, i, total, args);
      KeptFirst(pl, f, rest, args);
    }
  }

  lemma KeptNone(pl: Platform, h: Header, fmt: seq<byte>, i: nat, total: nat, args: seq<Val>)
    requires Char(fmt, i) == 0
    ensures Fields(pl, h, fmt, i, total, args) == Ok([]) && KeptAll(pl, []) == []
  {
  }

  lemma KeptFirst(pl: Platform, f: Field, rest: seq<Field>, args: seq<Val>)
    requires Exact(pl, f) && (Takes(f.kind) ==> args != [] && f.arg == args[0]) && KeptAll(pl, rest) <= Left(f.kind, args)
    ensures KeptAll(pl, [f] + rest) <= args
  {
    hide Kept;
    assert ([f] + rest)[1..] == rest;
  }

  lemma FirstArg(pl: Platform, h: Header, fmt: seq<byte>, i: nat, total: nat, args: seq<Val>)
    requires i < |fmt| && First(pl, h, fmt, i, total, args).Ok?
    ensures var (d, f, b) := First(pl, h, fmt, i, total, args).value; Takes(d.kind) ==> f.arg == args[0]
  {
    hide DetailsAt, Body;
  }
}
