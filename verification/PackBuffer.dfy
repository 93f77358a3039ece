/** Writing and reading integers and raw values byte by byte. */
module PackBuffer {
  import opened Bytes
  import opened PackInts

  // ---------- digits ----------

  /** `n` shifted right by `k` bytes. */
  function Shift(n: int, k: nat): int
    decreases k
  {
    if k == 0 then n else Shift(n / 256, k - 1)
  }

  lemma ShiftNone(n: int)
    ensures Shift(n, 0) == n
  {
  }

  lemma {:induction false} ShiftStep(n: int, k: nat)
    ensures Shift(n, k + 1) == Shift(n, k) / 256
    decreases k
  {
    if k > 0 {
      ShiftStep(n / 256, k - 1);
    }
  }

  lemma {:induction false} LowAt(n: int, size: nat, k: nat)
    requires k < size
    ensures Low(n, size)[k] == Shift(n, k) % 256
    decreases k
  {
    if k > 0 {
      LowAt(n / 256, size - 1, k - 1);
    }
  }

  lemma {:induction false} ShiftMinus(n: int, k: nat, j: nat)
    ensures Shift(n - Pow256(k + j), k) == Shift(n, k) - Pow256(j)
    decreases k
  {
    if k > 0 {
      var p := Pow256(k - 1 + j);
      assert Pow256(k + j) == 256 * p;
      assert (n - 256 * p) / 256 == n / 256 - p;
      ShiftMinus(n / 256, k - 1, j);
    }
  }

  lemma {:induction false} ShiftSmall(n: nat, k: nat)
    requires n < Pow256(k)
    ensures Shift(n, k) == 0
    decreases k
  {
    if k > 0 {
      ShiftSmall(n / 256, k - 1);
    }
  }

  lemma {:induction false} ShiftOnes(k: nat)
    ensures Shift(-1, k) == -1
    decreases k
  {
    if k > 0 {
      ShiftOnes(k - 1);
    }
  }

  lemma {:induction false} ShiftTwice(n: int, a: nat, b: nat)
    ensures Shift(n, a + b) == Shift(Shift(n, a), b)
    decreases a
  {
    if a > 0 {
      ShiftTwice(n / 256, a - 1, b);
    }
  }

  /** A negative number differs from its unsigned cast in the bytes beyond the eighth, which are all ones. */
  lemma SignBytes(n: nat, size: nat, k: nat)
    requires n < TWO64 && k < size
    ensures k < SZINT ==> Low(n - TWO64, size)[k] == Low(n, size)[k]
    ensures k >= SZINT ==> Low(n - TWO64, size)[k] == MC
  {
    hide Low, Shift;
    LowAt(n - TWO64, size, k);
    LowAt(n, size, k);
    if k < SZINT {
      SameByte(n, k);
    } else {
      OnesByte(n, k);
    }
  }

  lemma SameByte(n: nat, k: nat)
    requires k < SZINT
    ensures Shift(n - TWO64, k) % 256 == Shift(n, k) % 256
  {
    hide Shift;
    PowEight();
    ShiftMinus(n, k, SZINT - k);
    var p := Pow256(SZINT - k - 1);
    assert Pow256(SZINT - k) == 256 * p;
    hide Pow256;
  }

  lemma OnesByte(n: nat, k: nat)
    requires n < TWO64 && k >= SZINT
    ensures Shift(n - TWO64, k) == -1
  {
    hide Shift;
    PowEight();
    ShiftMinus(n, SZINT, 0);
    ShiftSmall(n, SZINT);
    ShiftTwice(n - TWO64, SZINT, k - SZINT);
    ShiftOnes(k - SZINT);
  }

  /** Where byte `k`, counted from the lowest, goes in a buffer. */
  function Place(k: nat, size: nat, little: bool): (p: nat)
    requires k < size
    ensures p < size
  {
    if little then k else size - 1 - k
  }

  lemma Placed(buff: seq<byte>, s: seq<byte>, little: bool)
    requires |buff| == |s| && forall k :: 0 <= k < |s| ==> buff[Place(k, |s|, little)] == s[k]
    ensures buff == Order(s, little)
  {
    forall p | 0 <= p < |s|
      ensures buff[p] == Order(s, little)[p]
    {
      var k := Place(p, |s|, little);
      assert Place(k, |s|, little) == p;
      assert buff[Place(k, |s|, little)] == s[k];
    }
  }

  // ---------- reading ----------

  lemma {:induction false} NumberSplit(s: seq<byte>, k: nat)
    requires k <= |s|
    ensures Number(s) == Number(s[..k]) + Pow256(k) * Number(s[k..])
    decreases k
  {
    if k == 0 {
      assert s[0..] == s;
    } else {
      NumberSplit(s[1..], k - 1);
      assert s[1..][..k - 1] == s[..k][1..] && s[1..][k - 1..] == s[k..];
      var p, hi := Pow256(k - 1), Number(s[k..]);
      assert Number(s[..k]) == s[0] + 256 * Number(s[..k][1..]);
      assert Number(s) == s[0] + 256 * (Number(s[..k][1..]) + p * hi);
      assert Pow256(k) == 256 * p;
      hide Number, Pow256;
      Regroup(s[0], Number(s[..k][1..]), p, hi);
    }
  }

  lemma Regroup(a: int, b: int, p: int, c: int)
    ensures a + 256 * (b + p * c) == a + 256 * b + (256 * p) * c
  {
    assert 256 * (p * c) == (256 * p) * c;
  }

  lemma {:induction false} AllZero(s: seq<byte>)
    ensures Number(s) == 0 <==> forall k :: 0 <= k < |s| ==> s[k] == 0
  {
    if s != [] {
      AllZero(s[1..]);
      assert forall k :: 1 <= k < |s| ==> s[k] == s[1..][k - 1];
      assert forall k :: 0 <= k < |s| - 1 ==> s[1..][k] == s[k + 1];
    }
  }

  lemma {:induction false} AllOnes(s: seq<byte>)
    ensures Number(s) == Pow256(|s|) - 1 <==> forall k :: 0 <= k < |s| ==> s[k] == MC
  {
    if s != [] {
      AllOnes(s[1..]);
      assert forall k :: 1 <= k < |s| ==> s[k] == s[1..][k - 1];
      assert forall k :: 0 <= k < |s| - 1 ==> s[1..][k] == s[k + 1];
    }
  }

  /** The value that the bytes beyond the eighth must have. */
  function Mask(lo: nat, signed: bool): byte
    requires lo < TWO64
  {
    if !signed || Wrap(lo) >= 0 then 0 else MC
  }

  /** All bytes beyond the eighth are `mask`. */
  predicate AllAbove(s: seq<byte>, mask: byte) {
    forall k :: SZINT <= k < |s| ==> s[k] == mask
  }

  lemma LongInt(s: seq<byte>, signed: bool)
    requires |s| > SZINT
    ensures Number(s[..SZINT]) < TWO64
    ensures var lo := Number(s[..SZINT]);
      IntOf(s, signed) == if AllAbove(s, Mask(lo, signed)) then Ok(Wrap(lo)) else Err("integer does not fit into Lua Integer")
  {
    hide Number, Pow256, Wrap, Mask, Signed, AllAbove;
    var lo, hi, p := Number(s[..SZINT]), Number(s[SZINT..]), Pow256(|s| - SZINT);
    PowEight();
    NumberSplit(s, SZINT);
    PowAdd(SZINT, |s| - SZINT);
    PowOne();
    PowGrows(1, |s| - SZINT);
    UpperBytes(s);
    LongCases(lo, hi, p, |s|, signed);
  }

  lemma PowOne()
    ensures Pow256(1) == 256
  {
  }

  lemma UpperBytes(s: seq<byte>)
    requires |s| > SZINT
    ensures AllAbove(s, 0) <==> Number(s[SZINT..]) == 0
    ensures AllAbove(s, MC) <==> Number(s[SZINT..]) == Pow256(|s| - SZINT) - 1
  {
    hide Number, Pow256;
    var u := s[SZINT..];
    AllZero(u);
    AllOnes(u);
    assert forall k :: SZINT <= k < |s| ==> s[k] == u[k - SZINT];
    assert forall k :: 0 <= k < |u| ==> u[k] == s[k + SZINT];
  }

  lemma LongCases(lo: nat, hi: nat, p: nat, size: nat, signed: bool)
    requires lo < TWO64 && hi < p && p >= 256 && Pow256(size) == TWO64 * p
    ensures var v := lo + TWO64 * hi; var mask := Mask(lo, signed);
      && (mask == 0 || mask == MC)
      && (!signed ==> mask == 0 && (v < TWO64 <==> hi == 0))
      && (signed ==> (-TWO63 <= Signed(v, size) < TWO63 <==> if mask == 0 then hi == 0 else hi == p - 1))
      && (signed && -TWO63 <= Signed(v, size) < TWO63 ==> Signed(v, size) == Wrap(lo))
  {
    hide Pow256;
  }

  /** `1 << (size * NB - 1)`. */
  function SignBit(size: nat): (mask: nat)
    requires 0 < size
  {
    128 * Pow256(size - 1)
  }

  /** Exclusive or of `v` with the bit `mask`, when `v` has no higher bits. */
  function Flip(v: nat, mask: nat): nat {
    if v >= mask then v - mask else v + mask
  }

  /** Unsigned subtraction. */
  function Sub(a: nat, b: nat): (r: nat)
    requires a < TWO64 && b < TWO64
    ensures r < TWO64
  {
    if a >= b then a - b else a - b + TWO64
  }

  /** Flipping the sign bit and taking it away extends the sign. */
  lemma SignExtend(v: nat, mask: nat)
    requires v < 2 * mask && 256 * mask <= TWO64
    ensures Flip(v, mask) < TWO64 && Wrap(Sub(Flip(v, mask), mask)) == if v >= mask then v - 2 * mask else v
  {
  }

  /** In fewer than eight bytes. */
  lemma ShortInt(s: seq<byte>)
    requires 0 < |s| < SZINT
    ensures var v, mask := Number(s), SignBit(|s|);
      && v < 2 * mask < TWO64 && IntOf(s, false) == Ok(Wrap(v))
      && Flip(v, mask) < TWO64 && IntOf(s, true) == Ok(Wrap(Sub(Flip(v, mask), mask)))
  {
    var v: int, mask: int := Number(s), SignBit(|s|);
    assert Pow256(|s|) == 2 * mask;
    hide Number, Pow256, Flip, Sub, Wrap, SignBit;
    PowEight();
    PowGrows(|s|, SZINT);
    SignExtend(v, mask);
    assert Signed(v, |s|) == if v >= mask then v - 2 * mask else v;
  }

  lemma EightInt(s: seq<byte>, signed: bool)
    requires |s| == SZINT
    ensures Number(s) < TWO64 && IntOf(s, signed) == Ok(Wrap(Number(s)))
  {
    hide Number, Pow256;
    PowEight();
  }

  // ---------- the buffer ----------

  class Buffer {
    var text: seq<byte>

    constructor ()
      ensures text == []
    {
      text := [];
    }

    method AddChar(c: byte)
      modifies this
      ensures text == old(text) + [c]
    {
      text := text + [c];
    }

    method AddString(s: seq<byte>)
      modifies this
      ensures text == old(text) + s
    {
      text := text + s;
    }

    /** `packint`: `n` is the unsigned cast of the integer, `neg` tells whether that was negative. */
    method PackInt(n: nat, islittle: bool, size: nat, neg: bool)
      requires n < TWO64 && size > 0
      modifies this
      ensures text == old(text) + Order(Low(if neg then n - TWO64 else n, size), islittle)
    {
      hide Low, Shift, Pow256;
      var buff := new byte[size];
      ghost var s := Low(n, size);
      var m := n;
      LowAt(n, size, 0);
      ShiftNone(n);
      buff[if islittle then 0 else size - 1] := m % 256;
      var i := 1;
      while i < size
        invariant 1 <= i <= size && m >= 0 && m == Shift(n, i - 1)
        invariant forall k :: 0 <= k < i ==> buff[Place(k, size, islittle)] == s[k]
        invariant text == old(text)
      {
        ShiftStep(n, i - 1);
        LowAt(n, size, i);
        m := m / 256;
        buff[if islittle then i else size - 1 - i] := m % 256;
        i := i + 1;
      }
      ghost var t := Low(if neg then n - TWO64 else n, size);
      forall k | 0 <= k < size
        ensures if neg && k >= SZINT then t[k] == MC else t[k] == s[k]
      {
        SignBytes(n, size, k);
      }
      if neg && size > SZINT {
        i := SZINT;
        while i < size
          invariant SZINT <= i <= size && text == old(text)
          invariant forall k :: 0 <= k < i ==> buff[Place(k, size, islittle)] == t[k]
          invariant forall k :: i <= k < size ==> buff[Place(k, size, islittle)] == s[k]
        {
          buff[if islittle then i else size - 1 - i] := MC;
          i := i + 1;
        }
      }
      Placed(buff[..], t, islittle);
      text := text + buff[..];
    }
  }

  /** `res <<= NB; res |= c`. */
  function ShiftIn(res: nat, c: byte): nat {
    (res * 256) % TWO64 + c
  }

  lemma ShiftedIn(res: nat, c: byte)
    requires 256 * res < TWO64
    ensures ShiftIn(res, c) == c + 256 * res
  {
  }

  /** The loop of `unpackint`: the value of the lowest `limit` bytes. */
  method ReadLow(data: seq<byte>, pos: nat, islittle: bool, size: nat, limit: nat) returns (res: nat)
    requires 0 < limit <= size && limit <= SZINT && pos + size <= |data|
    ensures res == Number(Order(data[pos..pos + size], islittle)[..limit]) < TWO64
  {
    hide Number, Pow256, Place, ShiftIn, Order;
    ghost var s := Order(data[pos..pos + size], islittle);
    res := 0;
    var i := limit - 1;
    NumberEnds(s, limit);
    while i >= 0
      invariant -1 <= i < limit && res == Number(s[i + 1..limit]) < TWO64
    {
      NumberStep(s, i, limit);
      ByteAt(data, pos, islittle, size, i);
      ShiftedIn(Number(s[i + 1..limit]), s[i]);
      res := ShiftIn(res, data[pos + if islittle then i else size - 1 - i]);
      i := i - 1;
    }
  }

  lemma ByteAt(data: seq<byte>, pos: nat, islittle: bool, size: nat, k: nat)
    requires k < size && pos + size <= |data|
    ensures data[pos + if islittle then k else size - 1 - k] == Order(data[pos..pos + size], islittle)[k]
  {
    assert data[pos..pos + size][Place(k, size, islittle)] == data[pos + Place(k, size, islittle)];
  }

  /** `unpackint`. */
  method UnpackInt(data: seq<byte>, pos: nat, islittle: bool, size: nat, issigned: bool) returns (r: Result<Integer>)
    requires size > 0 && pos + size <= |data|
    ensures r == IntOf(Order(data[pos..pos + size], islittle), issigned)
  {
    hide Number, Pow256, IntOf, AllAbove, Flip, Sub, SignBit, Wrap;
    ghost var s := Order(data[pos..pos + size], islittle);
    var res := ReadLow(data, pos, islittle, size, if size <= SZINT then size else SZINT);
    assert s[..size] == s;
    if size < SZINT {
      ShortInt(s);
      if issigned {
        var mask := SignBit(size);
        res := Sub(Flip(res, mask), mask);
      }
    } else if size == SZINT {
      EightInt(s, issigned);
    } else {
      LongInt(s, issigned);
      var ok := CheckUnread(data, pos, islittle, size, if !issigned || Wrap(res) >= 0 then 0 else MC);
      if !ok {
        return Err("integer does not fit into Lua Integer");
      }
    }
    r := Ok(Wrap(res));
  }

  /** Whether the bytes beyond the eighth are all `mask`. */
  method CheckUnread(data: seq<byte>, pos: nat, islittle: bool, size: nat, mask: byte) returns (ok: bool)
    requires size >= SZINT && pos + size <= |data|
    ensures ok <==> AllAbove(Order(data[pos..pos + size], islittle), mask)
  {
    ghost var s := Order(data[pos..pos + size], islittle);
    var i := SZINT;
    while i < size
      invariant SZINT <= i <= size && forall k :: SZINT <= k < i ==> s[k] == mask
    {
      ByteAt(data, pos, islittle, size, i);
      if data[pos + if islittle then i else size - 1 - i] != mask {
        assert s[i] != mask;
        return false;
      }
      i := i + 1;
    }
    ok := true;
  }

  lemma NumberEnds(s: seq<byte>, limit: nat)
    requires limit <= |s|
    ensures Number(s[limit..limit]) == 0 && Number(s[0..limit]) == Number(s[..limit])
  {
    assert s[limit..limit] == [] && s[0..limit] == s[..limit];
  }

  lemma NumberStep(s: seq<byte>, i: nat, limit: nat)
    requires i < limit <= |s| && limit <= SZINT
    ensures Number(s[i..limit]) == s[i] + 256 * Number(s[i + 1..limit]) < TWO64
    ensures 256 * Number(s[i + 1..limit]) < TWO64
  {
    var t := s[i..limit];
    assert t[1..] == s[i + 1..limit];
    PowGrows(limit - i, SZINT);
    PowEight();
  }

  /** `copywithendian`: a copy, reversed if the wanted order is not the native one. */
  method CopyWithEndian(dest: array<byte>, src: seq<byte>, islittle: bool, nativeLittle: bool)
    requires dest.Length == |src|
    modifies dest
    ensures dest[..] == Order(src, islittle == nativeLittle)
  {
    var size, k := |src|, 0;
    if islittle == nativeLittle {
      while k < size
        invariant 0 <= k <= size && forall j :: 0 <= j < k ==> dest[Place(j, size, true)] == src[j]
      {
        dest[k] := src[k];
        k := k + 1;
      }
    } else {
      var d := size - 1;
      while k < size
        invariant 0 <= k <= size && d == size - 1 - k && forall j :: 0 <= j < k ==> dest[Place(j, size, false)] == src[j]
      {
        dest[d] := src[k];
        d, k := d - 1, k + 1;
      }
    }
    Placed(dest[..], src, islittle == nativeLittle);
  }
}
