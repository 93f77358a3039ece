/** What `string.pack` writes, what `string.unpack` reads, and that the second undoes the first. */
module PackFields {
  import opened Bytes
  import opened PackInts
  import opened PackFormat

  /** The longest string there can be, plus one. */
  const MAXSTRING: int := TWO63 - 1 - 24
  const TWO31: int := 0x8000_0000
  const TWO32: int := 0x1_0000_0000

  /** The bytes of a number in memory, as a float and as a double. */
  type Single = s: seq<byte> | |s| == 4 witness [0, 0, 0, 0]
  type Double = s: seq<byte> | |s| == 8 witness [0, 0, 0, 0, 0, 0, 0, 0]

  /** The machine: its byte order, and its conversions between floats and doubles. */
  datatype Platform = Platform(little: bool, narrow: Double -> Single, widen: Single -> Double)

  datatype Val = Int(n: Integer) | Str(s: seq<byte>) | Num(bits: Double)

  /** One option of a format, with the argument that it packs. */
  datatype Field = Field(ntoalign: nat, kind: Kind, size: nat, islittle: bool, arg: Val)

  function Zeros(n: nat): (s: seq<byte>)
    ensures |s| == n && forall i :: 0 <= i < n ==> s[i] == 0
  {
    seq(n, _ => 0)
  }

  /** `s` cut or filled up with zeros to `size` bytes. */
  function Fixed(s: seq<byte>, size: nat): (r: seq<byte>)
    ensures |r| == size && (|s| == size ==> r == s)
  {
    if size <= |s| then s[..size] else s + Zeros(size - |s|)
  }

  /** Whether an option takes an argument. */
  predicate Takes(k: Kind) {
    k != Kpadding && k != Kpaddalign && k != Knop
  }

  // ---------- packing ----------

  function NumBody(pl: Platform, bits: Double, size: nat, islittle: bool): seq<byte> {
    if size == 4 then Order(pl.narrow(bits), islittle == pl.little) else Order(bits, islittle == pl.little)
  }

  function Body(pl: Platform, f: Field): Result<seq<byte>> {
    match f.kind
    case Kint =>
      if !f.arg.Int? then Err("number expected")
      else if !FitsSigned(f.arg.n, f.size) then Err("integer overflow")
      else Ok(Order(Low(f.arg.n, f.size), f.islittle))
    case Kuint =>
      if !f.arg.Int? then Err("number expected")
      else if !FitsUnsigned(f.arg.n, f.size) then Err("unsigned overflow")
      else Ok(Order(Low(Unsigned(f.arg.n), f.size), f.islittle))
    case Kfloat =>
      if !f.arg.Num? then Err("number expected") else Ok(NumBody(pl, f.arg.bits, f.size, f.islittle))
    case Kchar =>
      if !f.arg.Str? then Err("string expected") else Ok(Fixed(f.arg.s, f.size))
    case Kstring =>
      if !f.arg.Str? then Err("string expected")
      else if f.size < SZINT && |f.arg.s| >= Pow256(f.size) then Err("string length does not fit in given size")
      else Ok(Order(Low(|f.arg.s|, f.size), f.islittle) + f.arg.s)
    case Kzstr =>
      if !f.arg.Str? then Err("string expected")
      else if 0 in f.arg.s then Err("string contains zeros")
      else Ok(f.arg.s + [0])
    case Kpadding => Ok([0])
    case _ => Ok([])
  }

  function FieldOf(d: Details, args: seq<Val>): Field
    requires Takes(d.kind) ==> args != []
  {
    Field(d.ntoalign, d.kind, d.size, d.head.islittle, if Takes(d.kind) then args[0] else Str([]))
  }

  function Left(k: Kind, args: seq<Val>): seq<Val>
    requires Takes(k) ==> args != []
  {
    if Takes(k) then args[1..] else args
  }

  /** The option at `i` with its argument, and what it packs. */
  function First(pl: Platform, h: Header, fmt: seq<byte>, i: nat, total: nat, args: seq<Val>): (r: Result<(Details, Field, seq<byte>)>)
    requires i < |fmt|
    ensures r.Ok? ==> var (d, f, b) := r.value;
      && DetailsAt(h, total, fmt, i, pl.little) == Ok(d) && i < d.next <= |fmt| && SizeOk(d.kind, d.size) && (Takes(d.kind) ==> args != [])
      && f.kind == d.kind && f.size == d.size && f.ntoalign == d.ntoalign && f.islittle == d.head.islittle && Body(pl, f) == Ok(b)
  {
    var d :- DetailsAt(h, total, fmt, i, pl.little);
    if Takes(d.kind) && args == [] then Err("no value")
    else
      var f := FieldOf(d, args);
      var b :- Body(pl, f);
      Ok((d, f, b))
  }

  /** The options of the format from `i` on with their arguments, or the first error. */
  function Fields(pl: Platform, h: Header, fmt: seq<byte>, i: nat, total: nat, args: seq<Val>): Result<seq<Field>>
    decreases |fmt| - i
  {
    if Char(fmt, i) == 0 then Ok([])
    else
      var x :- First(pl, h, fmt, i, total, args);
      var rest :- Fields(pl, x.0.head, fmt, x.0.next, total + x.0.ntoalign + |x.2|, Left(x.0.kind, args));
      Ok([x.1] + rest)
  }

  function FieldText(pl: Platform, f: Field): seq<byte> {
    Zeros(f.ntoalign) + if Body(pl, f).Ok? then Body(pl, f).value else []
  }

  function Text(pl: Platform, fs: seq<Field>): seq<byte> {
    if fs == [] then [] else FieldText(pl, fs[0]) + Text(pl, fs[1..])
  }

  // ---------- unpacking ----------

  /** `strlen`: strings end with a zero that does not belong to them. */
  function Strlen(data: seq<byte>, p: nat): (n: nat)
    requires p <= |data|
    ensures p + n <= |data|
    decreases |data| - p
  {
    if p == |data| || data[p] == 0 then 0 else 1 + Strlen(data, p + 1)
  }

  /** `(size_t)(int)n`. */
  function ThroughInt(n: nat): (r: nat)
    ensures r < MAXSTRING ==> r <= n
  {
    var w := n % TWO32;
    if w >= TWO31 then w - TWO32 + TWO64 else w
  }

  /** The string of `len` bytes after its count. The sum is one of `size_t`; a length for which it wraps around
      is longer than any string. */
  function Counted(data: seq<byte>, p: nat, size: nat, len: nat): Result<(seq<Val>, nat)>
    requires p + size <= |data| < MAXSTRING && len < TWO64
  {
    if (p + len + size) % TWO64 > |data| then Err("data string too short")
    else if len >= MAXSTRING then Err("block too big")
    else
      CountInside(data, p, size, len);
      Ok(([Str(data[p + size..p + size + len])], p + len + size))
  }

  /** No byte beyond the data is read. */
  lemma CountInside(data: seq<byte>, p: nat, size: nat, len: nat)
    requires p + size <= |data| < MAXSTRING && len < MAXSTRING
    ensures (p + len + size) % TWO64 == p + len + size
  {
  }

  /** The string up to the next zero, or to the end of the data. */
  function Terminated(data: seq<byte>, p: nat, size: nat): Result<(seq<Val>, nat)>
    requires p <= |data|
  {
    var len := ThroughInt(Strlen(data, p));
    if len >= MAXSTRING then Err("block too big")
    else Ok(([Str(data[p..p + len])], p + len + 1 + size))
  }

  /** What an option finds at `p`, and the position after it. */
  function Extracted(pl: Platform, k: Kind, size: nat, islittle: bool, data: seq<byte>, p: nat): (r: Result<(seq<Val>, nat)>)
    requires p + size <= |data| < MAXSTRING && (k == Kfloat ==> size == 4 || size == 8)
  {
    var s := data[p..p + size];
    match k
    case Kint =>
      var n :- IntOf(Order(s, islittle), true); Ok(([Int(n)], p + size))
    case Kuint =>
      var n :- IntOf(Order(s, islittle), false); Ok(([Int(n)], p + size))
    case Kfloat =>
      var t := Order(s, islittle == pl.little);
      Ok(([Num(if size == 4 then pl.widen(t) else t)], p + size))
    case Kchar => Ok(([Str(s)], p + size))
    case Kstring =>
      var n :- IntOf(Order(s, islittle), false);
      Counted(data, p, size, Unsigned(n))
    case Kzstr => Terminated(data, p, size)
    case _ => Ok(([], p + size))
  }

  /** The values that the format from `i` on finds in `data` at `pos`, and the position after them. */
  function UnpackFrom(pl: Platform, h: Header, fmt: seq<byte>, i: nat, data: seq<byte>, pos: nat): Result<(seq<Val>, nat)>
    requires |data| < MAXSTRING
    decreases |fmt| - i
  {
    if Char(fmt, i) == 0 then Ok(([], pos))
    else
      var d :- DetailsAt(h, pos, fmt, i, pl.little);
      if d.ntoalign + d.size > TWO64 - 1 - pos || pos + d.ntoalign + d.size > |data| then Err("data string too short")
      else
        var u :- Extracted(pl, d.kind, d.size, d.head.islittle, data, pos + d.ntoalign);
        var rest :- UnpackFrom(pl, d.head, fmt, d.next, data, u.1);
        Ok((u.0 + rest.0, rest.1))
  }
}
