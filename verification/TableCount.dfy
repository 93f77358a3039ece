/** Counting keys for a rehash, and what the chosen sizes mean. */
module TableCount {
  import opened Powers
  import opened TableNodes
  import opened TableSizes
  import opened TableMap

  /** `nums` and `na` count the keys of `K` that could go to an array part. */
  ghost predicate Tally(nums: seq<nat>, na: nat, K: set<Key>) {
    Counted(nums, Candidates(K)) && na == |Candidates(K)|
  }

  lemma CandidatesAdd(K: set<Key>, k: Key)
    requires k !in K
    ensures if k.Int? && 1 <= k.i <= MAXASIZE then k.i !in Candidates(K) && Candidates(K + {k}) == Candidates(K) + {k.i}
            else Candidates(K + {k}) == Candidates(K)
  {
  }

  /** `countint`. */
  method CountInt(k: Key, nums: array<nat>, ghost na: nat, ghost K: set<Key>) returns (r: nat)
    requires Tally(nums[..], na, K) && k !in K
    modifies nums
    ensures Tally(nums[..], na + r, K + {k})
  {
    CandidatesAdd(K, k);
    if k.Int? && 1 <= k.i <= MAXASIZE {
      var l := CeilLog2(k.i);
      CountOne(nums[..], Candidates(K), k.i, l);
      hide Counted, Candidates;
      ghost var before := nums[..];
      nums[l] := nums[l] + 1;
      assert nums[..] == before[l := before[l] + 1];
      return 1;
    }
    return 0;
  }

  /** The indices below `n` that have a value. */
  ghost function Used(arr: seq<Val>, n: nat): set<nat> {
    set i: nat | i < |arr| && i < n && i < MAXASIZE && arr[i] != Nil :: i + 1
  }

  lemma UsedAdd(arr: seq<Val>, i: nat)
    requires 1 <= i <= |arr| <= MAXASIZE
    ensures i !in Used(arr, i - 1)
    ensures Used(arr, i) == if arr[i - 1] != Nil then Used(arr, i - 1) + {i} else Used(arr, i - 1)
  {
  }

  lemma UsedAll(arr: seq<Val>)
    requires |arr| <= MAXASIZE
    ensures Candidates(ArrayKeys(arr)) == Used(arr, |arr|) && |ArrayKeys(arr)| == |Used(arr, |arr|)|
  {
    var U := Used(arr, |arr|);
    forall n | n in U
      ensures Int(n) in ArrayKeys(arr)
    {
      var i := n - 1;
      assert Int(i + 1) in ArrayKeys(arr);
    }
    forall n
      ensures n in U <==> exists k :: k in ArrayKeys(arr) && k.i == n
    {
      if n in U {
        assert Int(n) in ArrayKeys(arr);
      }
    }
    IntsSize(ArrayKeys(arr), U);
  }

  lemma UseOne(nums: seq<nat>, arr: seq<Val>, lg: nat, lc: nat, i: nat)
    requires 1 <= i <= |arr| <= MAXASIZE && lg < |nums| && Counted(nums[lg := nums[lg] + lc], Used(arr, i - 1))
    requires IsCeilLog2(i, lg) && arr[i - 1] != Nil
    ensures Counted(nums[lg := nums[lg] + (lc + 1)], Used(arr, i))
  {
    hide Counted, Used;
    UsedAdd(arr, i);
    CountOne(nums[lg := nums[lg] + lc], Used(arr, i - 1), i, lg);
    assert nums[lg := nums[lg] + lc][lg := nums[lg] + lc + 1] == nums[lg := nums[lg] + (lc + 1)];
  }

  /** The slice of the first index to be counted. */
  ghost predicate AtSlice(i: nat, lg: nat, size: nat) {
    i == 1 + if lg == 0 then 0 else if Pow2(lg - 1) < size then Pow2(lg - 1) else size
  }

  lemma SliceOf(i: nat, lg: nat)
    requires 1 <= i <= Pow2(lg) && (lg == 0 || Pow2(lg - 1) < i)
    ensures IsCeilLog2(i, lg)
  {
  }

  /** The inner loop of `numusearray`: the elements of slice `lg`. */
  method UseSlice(arr: seq<Val>, ghost counts: seq<nat>, lg: nat, start: nat, lim: nat, ghost ause: nat) returns (lc: nat)
    requires lg < |counts| && |arr| <= MAXASIZE && lim <= |arr| && lim <= Pow2(lg) && 1 <= start <= lim + 1
    requires lg == 0 || Pow2(lg - 1) < start
    requires Counted(counts, Used(arr, start - 1)) && ause == |Used(arr, start - 1)|
    ensures Counted(counts[lg := counts[lg] + lc], Used(arr, lim)) && ause + lc == |Used(arr, lim)|
  {
    hide Counted, Used;
    lc := 0;
    var i := start;
    assert counts[lg := counts[lg]] == counts;
    while i <= lim
      invariant start <= i <= lim + 1
      invariant Counted(counts[lg := counts[lg] + lc], Used(arr, i - 1)) && ause + lc == |Used(arr, i - 1)|
    {
      SliceOf(i, lg);
      UsedAdd(arr, i);
      if arr[i - 1] != Nil {
        UseOne(counts, arr, lg, lc, i);
        lc := lc + 1;
      }
      i := i + 1;
    }
  }

  /** `numusearray`. */
  method NumUseArray(arr: seq<Val>, nums: array<nat>) returns (ause: nat)
    requires |arr| <= MAXASIZE && nums.Length == MAXABITS + 1 && forall l :: 0 <= l < nums.Length ==> nums[l] == 0
    modifies nums
    ensures Tally(nums[..], ause, ArrayKeys(arr)) && ause == |ArrayKeys(arr)|
  {
    hide Counted, Candidates, ArrayKeys, Used, Tally;
    ause := 0;
    var lg: nat, ttlg: nat, i: nat := 0, 1, 1;
    UsedNone(arr, nums[..]);
    PowersOfTwo();
    while lg <= MAXABITS
      invariant 0 <= lg <= MAXABITS + 1 && (lg <= MAXABITS ==> ttlg == Pow2(lg))
      invariant AtSlice(i, lg, |arr|)
      invariant Counted(nums[..], Used(arr, i - 1)) && ause == |Used(arr, i - 1)|
    {
      var lim: nat := ttlg;
      if lim > |arr| {
        lim := |arr|;
        if i > lim {
          break;
        }
      }
      ghost var counts := nums[..];
      NextSlice(i, lg, |arr|);
      var lc := UseSlice(arr, counts, lg, i, lim, ause);
      nums[lg] := nums[lg] + lc;
      assert nums[..] == counts[lg := counts[lg] + lc];
      ause := ause + lc;
      i := lim + 1;
      Wrap(lg);
      lg, ttlg := lg + 1, ttlg * 2 % TWO_TO_32;
    }
    assert i == |arr| + 1;
    UsedTally(nums[..], arr);
  }

  lemma UsedNone(arr: seq<Val>, nums: seq<nat>)
    requires |nums| == MAXABITS + 1 && forall l :: 0 <= l < |nums| ==> nums[l] == 0
    ensures Counted(nums, Used(arr, 0)) && |Used(arr, 0)| == 0
  {
    assert Used(arr, 0) == {};
    CountedNone(nums);
  }

  lemma UsedTally(nums: seq<nat>, arr: seq<Val>)
    requires |arr| <= MAXASIZE && Counted(nums, Used(arr, |arr|))
    ensures Tally(nums, |Used(arr, |arr|)|, ArrayKeys(arr)) && |Used(arr, |arr|)| == |ArrayKeys(arr)|
  {
    hide Used, ArrayKeys;
    UsedAll(arr);
  }

  lemma NextSlice(i: nat, lg: nat, size: nat)
    requires AtSlice(i, lg, size)
    ensures i <= Pow2(lg) + 1 && i <= size + 1 && (i <= size ==> lg == 0 || Pow2(lg - 1) < i)
    ensures Pow2(lg) <= size ==> AtSlice(Pow2(lg) + 1, lg + 1, size)
    ensures Pow2(lg) > size ==> AtSlice(size + 1, lg + 1, size)
  {
    if lg > 0 {
      Pow2Monotone(lg - 1, lg);
    }
  }

  lemma NodeLiveAdd(ns: seq<Node>, i: nat)
    requires i < |ns| && Distinct(ns)
    ensures ns[i].val != Nil && ns[i].key.Live? ==>
      ns[i].key.k !in NodeLive(ns, i + 1) && NodeLive(ns, i) == NodeLive(ns, i + 1) + {ns[i].key.k}
    ensures !(ns[i].val != Nil && ns[i].key.Live?) ==> NodeLive(ns, i) == NodeLive(ns, i + 1)
  {
    forall j | 0 <= j < |ns| && j != i && ns[i].key.Live? && ns[j].key.Live?
      ensures ns[j].key.k != ns[i].key.k
    {
      assert ns[if i < j then i else j].key != ns[if i < j then j else i].key;
    }
  }

  /** `numusehash`. */
  method NumUseHash(ghost t: T, node: seq<Node>, nums: array<nat>, ghost na: nat) returns (totaluse: nat, ause: nat)
    requires TableValid(t) && node == t.node && Tally(nums[..], na, ArrayKeys(t.arr))
    modifies nums
    ensures Tally(nums[..], na + ause, LiveKeys(t)) && |ArrayKeys(t.arr)| + totaluse == |LiveKeys(t)|
  {
    hide Tally, NodeLive, ArrayKeys, TableValid;
    totaluse, ause := 0, 0;
    var i := |node|;
    ghost var A := ArrayKeys(t.arr);
    NoneLeft(A, node);
    while i > 0
      invariant 0 <= i <= |node|
      invariant Tally(nums[..], na + ause, A + NodeLive(node, i)) && |A| + totaluse == |A + NodeLive(node, i)|
    {
      i := i - 1;
      HashStep(t, i);
      if node[i].val != Nil {
        var r := CountInt(node[i].key.k, nums, na + ause, A + NodeLive(node, i + 1));
        ause := ause + r;
        totaluse := totaluse + 1;
      }
    }
  }

  lemma NoneLeft(A: set<Key>, ns: seq<Node>)
    ensures A + NodeLive(ns, |ns|) == A
  {
    assert NodeLive(ns, |ns|) == {};
  }

  lemma HashStep(t: T, i: nat)
    requires TableValid(t) && i < |t.node|
    ensures t.node[i].val == Nil ==> NodeLive(t.node, i) == NodeLive(t.node, i + 1)
    ensures t.node[i].val != Nil ==>
      && t.node[i].key.Live? && t.node[i].key.k !in ArrayKeys(t.arr) + NodeLive(t.node, i + 1)
      && ArrayKeys(t.arr) + NodeLive(t.node, i) == ArrayKeys(t.arr) + NodeLive(t.node, i + 1) + {t.node[i].key.k}
  {
    hide NodeLive, ArrayKeys, LiveFirst, Threaded, Homed;
    NodeLiveAdd(t.node, i);
    if t.node[i].val != Nil {
      NotInArray(t, i);
    }
  }

  lemma NotInArray(t: T, i: nat)
    requires TableValid(t) && i < |t.node| && t.node[i].val != Nil
    ensures t.node[i].key.Live? && t.node[i].key.k !in ArrayKeys(t.arr)
  {
    hide Valid, LiveFirst;
  }

  // ---------- the meaning of the sizes ----------

  /** `n` is the best size for an array part holding keys of `K`: 0 or a power of two more than half
      of whose slots would be in use, and no larger power of two would be filled that much. */
  ghost predicate BestArray(K: set<Key>, n: nat) {
    && (n == 0 || (SizeOk(n) && n <= MAXASIZE && |UpTo(Candidates(K), n)| > n / 2))
    && forall l: nat :: l <= MAXABITS && n < Pow2(l) ==> |UpTo(Candidates(K), Pow2(l))| <= Pow2(l) / 2
  }

  /** Of the slots 1 to `n` of the best size, more than half would be in use; of any larger power of two, at most half. */
  lemma MoreThanHalf(K: set<Key>, n: nat, l: nat)
    requires BestArray(K, n)
    ensures n > 0 ==> 2 * |set i: nat | i <= n && i in Candidates(K)| > n
    ensures l <= 31 && n < Pow2(l) ==> 2 * |set i: nat | i <= Pow2(l) && i in Candidates(K)| <= Pow2(l)
    ensures forall i: nat :: i in Candidates(K) <==> exists k :: k in K && k.Int? && k.i == i && 1 <= i <= MAXASIZE
  {
    assert (set i: nat | i <= n && i in Candidates(K)) == UpTo(Candidates(K), n);
    if l <= 31 && n < Pow2(l) {
      assert (set i: nat | i <= Pow2(l) && i in Candidates(K)) == UpTo(Candidates(K), Pow2(l));
    }
  }

  lemma BestIs(nums: seq<nat>, pna: nat, K: set<Key>, asize: nat, na: nat)
    requires Tally(nums, pna, K) && Optimal(nums, asize, na, |nums|)
    ensures BestArray(K, asize) && na == |UpTo(Candidates(K), asize)|
  {
    var C := Candidates(K);
    if asize == 0 {
      assert UpTo(C, 0) == {};
      forall l: nat | l <= MAXABITS
        ensures |UpTo(C, Pow2(l))| <= Pow2(l) / 2
      {
        CountedSum(nums, C, l);
        assert !Good(nums, l);
      }
    } else {
      var m: nat :| m < |nums| && OptimalAt(nums, asize, na, |nums|, m);
      CountedSum(nums, C, m);
      PowersOfTwo();
      Pow2Monotone(m, 31);
      forall l: nat | l <= MAXABITS && asize < Pow2(l)
        ensures |UpTo(C, Pow2(l))| <= Pow2(l) / 2
      {
        CountedSum(nums, C, l);
        if l <= m {
          Pow2Monotone(l, m);
        }
        assert !Good(nums, l);
      }
    }
    hide Counted, Candidates, UpTo, Good;
  }
}
