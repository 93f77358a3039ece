/** Choosing the size of the array part: powers of two, slices, and `computesizes`. */
module TableSizes {
  import opened Powers
  import opened Sequences

  // ---------- ceil(log2(x)) ----------

  /** `l` is the ceiling of the base-2 logarithm of `x`. */
  ghost predicate IsCeilLog2(x: nat, l: nat) {
    x <= Pow2(l) && (l > 0 ==> Pow2(l - 1) < x)
  }

  lemma CeilLog2Unique(x: nat, l: nat, m: nat)
    requires IsCeilLog2(x, l) && IsCeilLog2(x, m)
    ensures l == m
  {
    if l < m {
      Pow2Monotone(l, m - 1);
    } else if m < l {
      Pow2Monotone(m, l - 1);
    }
  }

  /** The table `log_2` of the source: entry `i` is the ceiling of the logarithm of `i + 1`. */
  const LOG_2: seq<nat> := [0] + Times(1, 1) + Times(2, 2) + Times(4, 3) + Times(8, 4) + Times(16, 5) + Times(32, 6) + Times(64, 7) + Times(128, 8)

  lemma Log2Entry(i: nat)
    requires i < 256
    ensures |LOG_2| == 256 && IsCeilLog2(i + 1, LOG_2[i])
  {
    assert Pow2(0) == 1 && Pow2(1) == 2 && Pow2(2) == 4 && Pow2(3) == 8 && Pow2(4) == 16;
    assert Pow2(5) == 32 && Pow2(6) == 64 && Pow2(7) == 128 && Pow2(8) == 256;
  }

  lemma Log2Shift(y: nat, l: nat)
    requires y >= 256 && IsCeilLog2(y / 256 + 1, l)
    ensures IsCeilLog2(y + 1, l + 8)
  {
    assert Pow2(8) == 256;
    Pow2Add(8, l);
    if l > 0 {
      Pow2Add(8, l - 1);
    }
  }

  /** The logarithm of `x` is the one of `y + 1` plus `l`. */
  ghost predicate Scaled(x: nat, y: nat, l: nat) {
    forall r: nat :: LogOf(y, r) ==> IsCeilLog2(x, l + r)
  }

  ghost predicate LogOf(y: nat, r: nat) {
    IsCeilLog2(y + 1, r)
  }

  lemma ScaledStep(x: nat, y: nat, l: nat)
    requires Scaled(x, y, l) && y >= 256
    ensures Scaled(x, y / 256, l + 8)
  {
    forall r: nat | LogOf(y / 256, r)
      ensures IsCeilLog2(x, l + 8 + r)
    {
      Log2Shift(y, r);
      assert LogOf(y, r + 8);
    }
  }

  method CeilLog2(x: nat) returns (l: nat)
    requires x > 0
    ensures IsCeilLog2(x, l)
  {
    l := 0;
    var y: nat := x - 1;
    while y >= 256
      invariant Scaled(x, y, l)
    {
      ScaledStep(x, y, l);
      l := l + 8;
      y := y / 256;
    }
    Log2Entry(y);
    assert LogOf(y, LOG_2[y]);
    l := l + LOG_2[y];
  }

  // ---------- computesizes ----------

  const MAXABITS: nat := 31
  const TWO_TO_32 := 0x1_0000_0000

  /** The number of candidate keys in the first `n` slices. */
  function Sum(nums: seq<nat>, n: nat): nat
    requires n <= |nums|
  {
    if n == 0 then 0 else Sum(nums, n - 1) + nums[n - 1]
  }

  lemma SumMonotone(nums: seq<nat>, m: nat, n: nat)
    requires m <= n <= |nums|
    ensures Sum(nums, m) <= Sum(nums, n)
  {
    if m < n {
      SumMonotone(nums, m, n - 1);
    }
  }

  /** Slice `i` holds the keys `k` with `2^(i-1) < k <= 2^i`. */
  function SliceSize(i: nat): nat {
    if i == 0 then 1 else Pow2(i - 1)
  }

  ghost predicate WithinSlices(nums: seq<nat>) {
    |nums| == MAXABITS + 1 && forall i :: 0 <= i < |nums| ==> nums[i] <= SliceSize(i)
  }

  lemma SumBound(nums: seq<nat>, n: nat)
    requires WithinSlices(nums) && n < |nums|
    ensures Sum(nums, n + 1) <= Pow2(n)
    ensures n > 0 ==> Sum(nums, n) <= Pow2(n) / 2
  {
    if n > 0 {
      SumBound(nums, n - 1);
    }
  }

  /** More than half of the slots of an array of `2^l` elements would be in use. */
  predicate Good(nums: seq<nat>, l: nat)
    requires l < |nums|
  {
    Sum(nums, l + 1) > Pow2(l) / 2
  }

  /** `size` is the largest good size, or 0 when there is none, and `na` the number of keys it holds. */
  ghost predicate Optimal(nums: seq<nat>, size: nat, na: nat, below: nat)
    requires below <= |nums|
  {
    if size == 0 then na == 0 && forall l :: 0 <= l < below ==> !Good(nums, l)
    else exists m: nat :: m < below && OptimalAt(nums, size, na, below, m)
  }

  ghost predicate OptimalAt(nums: seq<nat>, size: nat, na: nat, below: nat, m: nat)
    requires m < below <= |nums|
  {
    size == Pow2(m) && Good(nums, m) && na == Sum(nums, m + 1) && forall l :: m < l < below ==> !Good(nums, l)
  }

  /** An empty slice never makes a new good size. */
  lemma EmptySlice(nums: seq<nat>, l: nat)
    requires WithinSlices(nums) && l < |nums| && nums[l] == 0
    ensures !Good(nums, l)
  {
    if l > 0 {
      SumBound(nums, l);
    } else {
      assert Sum(nums, 0) == 0;
    }
  }

  /** Once the keys cannot fill half of a size, they cannot fill half of a larger one. */
  lemma TooLarge(nums: seq<nat>, pna: nat, i: nat, l: nat)
    requires |nums| == MAXABITS + 1 && pna == Sum(nums, |nums|) && i <= l < |nums| && pna <= Pow2(i) / 2
    ensures !Good(nums, l)
  {
    SumMonotone(nums, l + 1, |nums|);
    Pow2Monotone(i, l);
  }

  datatype Sizes = Sizes(asize: nat, na: nat) | Overrun

  /** `computesizes`. The doubling of `twotoi` wraps around at 32 bits; if that happens the loop goes
      on to read past the end of `nums`, which the result `Overrun` stands for. */
  method ComputeSizes(nums: seq<nat>, pna: nat) returns (r: Sizes)
    requires WithinSlices(nums) && pna == Sum(nums, |nums|)
    ensures r.Overrun? <==> pna > Pow2(30)
    ensures r.Sizes? ==> Optimal(nums, r.asize, r.na, |nums|)
  {
    hide Optimal, Sum, Pow2;
    PowersOfTwo();
    OptimalStart(nums);
    var i, twotoi := 0, 1;
    var a: nat, na: nat, optimal: nat := 0, 0, 0;
    while pna > twotoi / 2
      invariant 0 <= i <= 32
      invariant twotoi == if i < 32 then Pow2(i) else 0
      invariant a == Sum(nums, i)
      invariant Optimal(nums, optimal, na, i)
      invariant i > 0 ==> pna > Pow2(i - 1) / 2
      decreases 33 - i
    {
      if i == |nums| {
        return Overrun;
      }
      OptimalTurn(nums, optimal, na, i);
      if nums[i] > 0 {
        a := a + nums[i];
        if a > twotoi / 2 {
          optimal := twotoi;
          na := a;
        }
      }
      Wrap(i);
      i, twotoi := i + 1, twotoi * 2 % TWO_TO_32;
    }
    Pow2Monotone(i, 31);
    OptimalEnd(nums, optimal, na, i, pna);
    return Sizes(optimal, na);
  }

  lemma OptimalStart(nums: seq<nat>)
    ensures Optimal(nums, 0, 0, 0) && Sum(nums, 0) == 0 && Pow2(0) == 1
  {
  }

  /** One turn of the loop. */
  lemma OptimalTurn(nums: seq<nat>, size: nat, na: nat, i: nat)
    requires WithinSlices(nums) && i < |nums| && Optimal(nums, size, na, i)
    ensures Sum(nums, i + 1) == Sum(nums, i) + nums[i]
    ensures if nums[i] > 0 && Sum(nums, i + 1) > Pow2(i) / 2 then Optimal(nums, Pow2(i), Sum(nums, i + 1), i + 1)
      else Optimal(nums, size, na, i + 1)
  {
    hide WithinSlices, Optimal;
    if nums[i] == 0 {
      EmptySlice(nums, i);
      OptimalNext(nums, size, na, i);
    } else if Good(nums, i) {
      OptimalHere(nums, i);
    } else {
      OptimalNext(nums, size, na, i);
    }
  }

  lemma OptimalHere(nums: seq<nat>, i: nat)
    requires i < |nums| && Good(nums, i) && Pow2(i) > 0
    ensures Optimal(nums, Pow2(i), Sum(nums, i + 1), i + 1)
  {
    assert OptimalAt(nums, Pow2(i), Sum(nums, i + 1), i + 1, i);
  }

  lemma PowersOfTwo()
    ensures Pow2(30) == 0x4000_0000 && Pow2(31) == 0x8000_0000
  {
    assert Pow2(8) == 0x100;
    Pow2Add(8, 8);
    assert Pow2(16) == 0x1_0000;
    Pow2Add(16, 8);
    assert Pow2(24) == 0x100_0000;
    Pow2Add(24, 6);
    assert Pow2(6) == 64;
  }

  lemma Wrap(i: nat)
    requires i <= 31
    ensures Pow2(i) * 2 % TWO_TO_32 == if i < 31 then Pow2(i + 1) else 0
  {
    PowersOfTwo();
    if i < 31 {
      Pow2Monotone(i + 1, 31);
    }
  }

  lemma OptimalNext(nums: seq<nat>, size: nat, na: nat, i: nat)
    requires i < |nums| && Optimal(nums, size, na, i) && !Good(nums, i)
    ensures Optimal(nums, size, na, i + 1)
  {
    if size != 0 {
      var m: nat :| m < i && OptimalAt(nums, size, na, i, m);
      assert OptimalAt(nums, size, na, i + 1, m);
    }
  }

  /** The loop may stop once the slices to come would need more keys than there are. */
  lemma OptimalEnd(nums: seq<nat>, size: nat, na: nat, i: nat, pna: nat)
    requires i <= |nums| == MAXABITS + 1 && Optimal(nums, size, na, i) && pna == Sum(nums, |nums|) && pna <= Pow2(i) / 2
    ensures Optimal(nums, size, na, |nums|)
    decreases |nums| - i
  {
    hide Optimal;
    if i < |nums| {
      TooLarge(nums, pna, i, i);
      OptimalNext(nums, size, na, i);
      Pow2Monotone(i, i + 1);
      OptimalEnd(nums, size, na, i + 1, pna);
    }
  }
}
