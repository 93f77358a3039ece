/** Integers of 1 to 16 bytes, in either byte order. */
module PackInts {
  import opened Bytes
  import opened Division

  const TWO63: int := 0x8000_0000_0000_0000
  const TWO64: int := 0x1_0000_0000_0000_0000
  const SZINT: nat := 8
  const MAXINTSIZE: nat := 16
  const MC: byte := 255

  /** `lua_Integer`. */
  type Integer = i: int | -TWO63 <= i < TWO63

  datatype Result<+T> = Ok(value: T) | Err(error: string) {
    predicate IsFailure() {
      Err?
    }
    function PropagateFailure<U>(): Result<U>
      requires Err?
    {
      Err(error)
    }
    function Extract(): T
      requires Ok?
    {
      value
    }
  }

  // ---------- byte strings and numbers ----------

  function Pow256(k: nat): (p: int)
    ensures p > 0
  {
    if k == 0 then 1 else 256 * Pow256(k - 1)
  }

  /** The lowest `size` bytes of the two's complement of `n`, the lowest first. */
  function Low(n: int, size: nat): (s: seq<byte>)
    ensures |s| == size
    decreases size
  {
    if size == 0 then [] else [n % 256] + Low(n / 256, size - 1)
  }

  /** The number with these bytes, the lowest first. */
  function Number(s: seq<byte>): (n: nat)
    ensures n < Pow256(|s|)
  {
    if s == [] then 0 else s[0] + 256 * Number(s[1..])
  }

  /** The two's complement reading of `v` in `size` bytes. */
  function Signed(v: int, size: nat): int {
    if 2 * v >= Pow256(size) then v - Pow256(size) else v
  }

  /** The cast to `lua_Integer`. */
  function Wrap(v: nat): Integer
    requires v < TWO64
  {
    if v >= TWO63 then v - TWO64 else v
  }

  /** The cast to `lua_Unsigned`. */
  function Unsigned(n: Integer): (v: nat)
    ensures v < TWO64 && Wrap(v) == n
  {
    if n < 0 then n + TWO64 else n
  }

  /** The bytes written stand for `n` modulo a power of 256. */
  lemma {:induction false} NumberLow(n: int, size: nat)
    ensures Number(Low(n, size)) == n % Pow256(size)
    decreases size
  {
    if size > 0 {
      NumberLow(n / 256, size - 1);
      assert Low(n, size)[1..] == Low(n / 256, size - 1);
      ModSplit(n, 256, Pow256(size - 1));
    }
  }

  lemma {:induction false} PowAdd(a: nat, b: nat)
    ensures Pow256(a + b) == Pow256(a) * Pow256(b)
  {
    if a > 0 {
      PowAdd(a - 1, b);
    }
  }

  lemma PowEight()
    ensures Pow256(8) == TWO64
  {
    assert Pow256(2) == 0x1_0000;
    PowAdd(2, 2);
    PowAdd(4, 4);
  }

  lemma {:induction false} PowGrows(a: nat, b: nat)
    requires a <= b
    ensures Pow256(a) <= Pow256(b) && (a < b ==> 256 * Pow256(a) <= Pow256(b))
  {
    if a < b {
      PowGrows(a, b - 1);
    }
  }

  // ---------- what integer options accept and yield ----------

  /** The integers that `size` bytes can hold. */
  predicate FitsSigned(n: Integer, size: nat) {
    size >= SZINT || -Pow256(size) <= 2 * n < Pow256(size)
  }

  predicate FitsUnsigned(n: Integer, size: nat) {
    size >= SZINT || 0 <= n < Pow256(size)
  }

  /** The integer that `s` holds, unless it is no `lua_Integer`. */
  function IntOf(s: seq<byte>, signed: bool): Result<Integer> {
    var v := Number(s);
    if signed then
      if -TWO63 <= Signed(v, |s|) < TWO63 then Ok(Signed(v, |s|)) else Err("integer does not fit into Lua Integer")
    else if v < TWO64 then Ok(Wrap(v)) else Err("integer does not fit into Lua Integer")
  }

  lemma ModRange(n: int, p: int)
    requires p > 0 && -p <= 2 * n < p
    ensures n == if 2 * (n % p) >= p then n % p - p else n % p
  {
    DivUnique(n, p, if n < 0 then -1 else 0, if n < 0 then n + p else n);
  }

  /** A signed integer that fits comes back. */
  lemma SignedBack(n: Integer, size: nat)
    requires size > 0 && FitsSigned(n, size)
    ensures IntOf(Low(n, size), true) == Ok(n)
  {
    hide Pow256, Low, Number;
    PowEight();
    if size >= SZINT {
      PowGrows(8, size);
    }
    var s, p := Low(n, size), Pow256(size);
    assert -p <= 2 * n < p;
    ModRange(n, p);
    assert Number(s) == n % p by {
      NumberLow(n, size);
    }
  }

  lemma UnsignedBack(n: Integer, size: nat)
    requires size > 0 && FitsUnsigned(n, size)
    ensures IntOf(Low(Unsigned(n), size), false) == Ok(n)
  {
    NumberLow(Unsigned(n), size);
    PowEight();
    if size >= SZINT {
      PowGrows(8, size);
    }
    DivUnique(Unsigned(n), Pow256(size), 0, Unsigned(n));
  }

  /** A count that fits comes back, and no other number has the same bytes. */
  lemma CountBack(n: nat, size: nat)
    requires n < TWO64 && (size >= SZINT || n < Pow256(size))
    ensures Number(Low(n, size)) == n
  {
    NumberLow(n, size);
    PowEight();
    if size >= SZINT {
      PowGrows(8, size);
    }
    DivUnique(n, Pow256(size), 0, n);
  }

  /** An integer that does not fit would not come back: the checks refuse no more than they must. */
  lemma OnlyFitting(n: Integer, size: nat)
    ensures size > 0 && IntOf(Low(n, size), true) == Ok(n) ==> FitsSigned(n, size)
    ensures size > 0 && IntOf(Low(Unsigned(n), size), false) == Ok(n) && size < SZINT ==> FitsUnsigned(n, size)
  {
    var p := Pow256(size);
    assert 0 <= Number(Low(n, size)) < p;
    if size > 0 && size < SZINT {
      PowGrows(size, 8);
      PowEight();
      assert 0 <= Number(Low(Unsigned(n), size)) < p;
    }
  }

  // ---------- byte order ----------

  function Reverse(s: seq<byte>): (r: seq<byte>)
    ensures |r| == |s| && forall i :: 0 <= i < |s| ==> r[i] == s[|s| - 1 - i]
  {
    seq(|s|, i requires 0 <= i < |s| => s[|s| - 1 - i])
  }

  function Order(s: seq<byte>, little: bool): (r: seq<byte>)
    ensures |r| == |s| && forall i :: 0 <= i < |s| ==> r[if little then i else |s| - 1 - i] == s[i]
  {
    if little then s else Reverse(s)
  }

  lemma OrderBack(s: seq<byte>, little: bool)
    ensures Order(Order(s, little), little) == s
  {
    var t := Order(s, little);
    assert forall i :: 0 <= i < |s| ==> Order(t, little)[i] == s[i];
  }
}
