/** A table as a finite map: its array part, its hash part, and how many keys go where. */
module TableMap {
  import opened Powers
  import opened TableNodes
  import opened TableSizes

  /** `dummy` says that the hash part is the shared dummy node. */
  datatype T = T(arr: seq<Val>, node: seq<Node>, lastfree: nat, dummy: bool)

  const MAXASIZE: nat := 0x8000_0000

  /** 2 to the power `MAXHBITS`. */
  const MAXNODES: nat := 0x4000_0000

  predicate InArray(t: T, k: Key) {
    k.Int? && 1 <= k.i <= |t.arr|
  }

  /** The map that a table stands for. */
  ghost function Get(t: T, k: Key): Val {
    if InArray(t, k) then t.arr[k.i - 1] else HashGet(t.node, k)
  }

  ghost predicate SizeOk(n: nat) {
    exists l: nat :: n == Pow2(l)
  }

  ghost predicate FreeBelow(ns: seq<Node>, lastfree: nat) {
    lastfree <= |ns| && forall i :: lastfree <= i < |ns| ==> ns[i].key != NoKey
  }

  ghost predicate TableValid(t: T) {
    && Valid(t.node) && LiveFirst(t.node) && SizeOk(|t.node|) && |t.node| <= MAXNODES && |t.arr| <= MAXASIZE
    && (t.dummy ==> t.node == [EMPTY] && t.lastfree == 0)
    && (!t.dummy ==> FreeBelow(t.node, t.lastfree))
    && (forall i :: 0 <= i < |t.node| && t.node[i].val != Nil ==> t.node[i].key.Live?)
    && (forall i :: 0 <= i < |t.node| && t.node[i].key.Live? ==> !InArray(t, t.node[i].key.k))
  }

  /** The keys of the array part that have a value. */
  ghost function ArrayKeys(arr: seq<Val>): set<Key> {
    set i | 0 <= i < |arr| && i < MAXASIZE && arr[i] != Nil :: Int(i + 1)
  }

  /** The keys that have a value in the nodes from `from` on. */
  ghost function NodeLive(ns: seq<Node>, from: nat): set<Key> {
    set i | from <= i < |ns| && ns[i].val != Nil && ns[i].key.Live? :: ns[i].key.k
  }

  /** The keys that have a value. */
  ghost function LiveKeys(t: T): set<Key> {
    ArrayKeys(t.arr) + NodeLive(t.node, 0)
  }

  lemma LiveKeysAre(t: T, k: Key)
    requires TableValid(t)
    ensures k in LiveKeys(t) <==> Get(t, k) != Nil
  {
    if InArray(t, k) {
      assert k == Int(k.i - 1 + 1);
      forall j | 0 <= j < |t.node| && t.node[j].key.Live?
        ensures t.node[j].key.k != k
      {
      }
    } else if HasKey(t.node, k) {
      var i :| 0 <= i < |t.node| && t.node[i].key == Live(k);
      HashGetAt(t.node, i, k);
      if k in LiveKeys(t) {
        var j :| 0 <= j < |t.node| && t.node[j].val != Nil && t.node[j].key.Live? && t.node[j].key.k == k;
        HashGetAt(t.node, j, k);
      }
    } else {
      forall j | 0 <= j < |t.node| && t.node[j].key.Live?
        ensures t.node[j].key.k != k
      {
        assert t.node[j].key == Live(t.node[j].key.k);
      }
    }
  }

  ghost predicate SameMap(a: T, b: T) {
    forall k :: Get(a, k) == Get(b, k)
  }

  // ---------- sets of candidate integers ----------

  ghost function Interval(a: nat, b: nat): (r: set<nat>)
    ensures forall i: nat :: i in r <==> a < i <= b
  {
    if a >= b then {} else Interval(a, b - 1) + {b}
  }

  lemma IntervalSize(a: nat, b: nat)
    requires a <= b
    ensures |Interval(a, b)| == b - a
  {
    if a < b {
      IntervalSize(a, b - 1);
    }
  }

  lemma SubsetSize<X>(a: set<X>, b: set<X>)
    requires a <= b
    ensures |a| <= |b|
    ensures a < b ==> |a| < |b|
  {
    assert b == a + (b - a);
    if a < b {
      assert b - a != {};
    }
  }

  ghost function Slice(C: set<nat>, l: nat): set<nat> {
    set i | i in C && IsCeilLog2(i, l)
  }

  ghost function UpTo(C: set<nat>, n: nat): set<nat> {
    set i | i in C && i <= n
  }

  /** `nums` counts the candidates `C`, slice by slice. */
  ghost predicate Counted(nums: seq<nat>, C: set<nat>) {
    && |nums| == MAXABITS + 1
    && (forall i :: i in C ==> 1 <= i <= MAXASIZE)
    && (forall l :: 0 <= l < |nums| ==> nums[l] == |Slice(C, l)|)
  }

  lemma CountedNone(nums: seq<nat>)
    requires |nums| == MAXABITS + 1 && forall l :: 0 <= l < |nums| ==> nums[l] == 0
    ensures Counted(nums, {})
  {
    forall l | 0 <= l < |nums|
      ensures |Slice({}, l)| == 0
    {
      assert Slice({}, l) == {};
    }
  }

  lemma SliceAdd(C: set<nat>, k: nat, l: nat, m: nat)
    requires k !in C && IsCeilLog2(k, l)
    ensures |Slice(C + {k}, m)| == |Slice(C, m)| + if m == l then 1 else 0
  {
    if m == l {
      assert Slice(C + {k}, m) == Slice(C, m) + {k};
    } else {
      assert !IsCeilLog2(k, m) by {
        if IsCeilLog2(k, m) {
          CeilLog2Unique(k, l, m);
        }
      }
      assert Slice(C + {k}, m) == Slice(C, m);
    }
  }

  lemma LogInRange(k: nat, l: nat)
    requires 1 <= k <= MAXASIZE && IsCeilLog2(k, l)
    ensures l <= MAXABITS
  {
    PowersOfTwo();
    if l > MAXABITS {
      Pow2Monotone(MAXABITS, l - 1);
    }
  }

  lemma CountOne(nums: seq<nat>, C: set<nat>, k: nat, l: nat)
    requires Counted(nums, C) && 1 <= k <= MAXASIZE && k !in C && IsCeilLog2(k, l)
    ensures l < |nums| && Counted(nums[l := nums[l] + 1], C + {k})
  {
    LogInRange(k, l);
    forall m | 0 <= m < |nums|
      ensures nums[l := nums[l] + 1][m] == |Slice(C + {k}, m)|
    {
      SliceAdd(C, k, l, m);
    }
  }

  /** The counts say how many candidates there are up to each power of two. */
  lemma CountedSum(nums: seq<nat>, C: set<nat>, n: nat)
    requires Counted(nums, C) && n < |nums|
    ensures Sum(nums, n + 1) == |UpTo(C, Pow2(n))|
  {
    if n == 0 {
      assert Sum(nums, 0) == 0;
      assert UpTo(C, 1) == Slice(C, 0);
    } else {
      CountedSum(nums, C, n - 1);
      Pow2Monotone(n - 1, n);
      var a, b := UpTo(C, Pow2(n - 1)), Slice(C, n);
      assert UpTo(C, Pow2(n)) == a + b;
      assert a !! b;
    }
  }

  lemma CountedAll(nums: seq<nat>, C: set<nat>)
    requires Counted(nums, C)
    ensures Sum(nums, |nums|) == |C| && WithinSlices(nums)
  {
    CountedSum(nums, C, MAXABITS);
    PowersOfTwo();
    assert UpTo(C, MAXASIZE) == C;
    forall l | 0 <= l < |nums|
      ensures nums[l] <= SliceSize(l)
    {
      var lo := if l == 0 then 0 else Pow2(l - 1);
      Pow2Monotone(if l == 0 then 0 else l - 1, l);
      IntervalSize(lo, Pow2(l));
      SubsetSize(Slice(C, l), Interval(lo, Pow2(l)));
    }
  }

  // ---------- where keys go ----------

  ghost function Candidates(K: set<Key>): set<nat> {
    set k | k in K && k.Int? && 1 <= k.i <= MAXASIZE :: k.i
  }

  /** The keys that stay in the hash part of a table whose array part has `asize` slots. */
  ghost function HashBound(K: set<Key>, asize: nat): set<Key> {
    set k | k in K && !(k.Int? && 1 <= k.i <= asize)
  }

  lemma Split(K: set<Key>, asize: nat)
    requires asize <= MAXASIZE
    ensures |K| == |UpTo(Candidates(K), asize)| + |HashBound(K, asize)|
  {
    var A := set k | k in K && k.Int? && 1 <= k.i <= asize;
    assert K == A + HashBound(K, asize);
    assert A !! HashBound(K, asize);
    var U := UpTo(Candidates(K), asize);
    forall n
      ensures n in U <==> exists k :: k in A && k.i == n
    {
    }
    IntsSize(A, U);
  }

  lemma IntsSize(A: set<Key>, U: set<nat>)
    requires forall k :: k in A ==> k.Int? && k.i >= 0
    requires forall n :: n in U <==> exists k :: k in A && k.i == n
    ensures |A| == |U|
    decreases A
  {
    if A == {} {
      assert U == {};
    } else {
      var k :| k in A;
      var A', U' := A - {k}, U - {k.i as nat};
      forall n
        ensures n in U' <==> exists q :: q in A' && q.i == n
      {
        if n in U' {
          var q :| q in A && q.i == n;
          assert q in A';
        }
        if exists q :: q in A' && q.i == n {
          var q :| q in A' && q.i == n;
          assert q != k;
        }
      }
      IntsSize(A', U');
    }
  }

  /** The keys of the live nodes. */
  ghost function NodeKeys(ns: seq<Node>): set<Key> {
    set i | 0 <= i < |ns| && ns[i].key.Live? :: ns[i].key.k
  }

  ghost predicate NoDead(ns: seq<Node>) {
    forall i :: 0 <= i < |ns| ==> !ns[i].key.Dead?
  }

  ghost predicate HasFree(t: T) {
    !t.dummy && exists i :: 0 <= i < |t.node| && t.node[i].key == NoKey
  }

  lemma AllKeyed(ns: seq<Node>, n: nat)
    requires n <= |ns| && Distinct(ns) && forall i :: 0 <= i < |ns| ==> ns[i].key.Live?
    ensures |set i | 0 <= i < n :: ns[i].key.k| == n
  {
    var S := set i | 0 <= i < n :: ns[i].key.k;
    if n == 0 {
      assert S == {};
    } else {
      var S' := set i | 0 <= i < n - 1 :: ns[i].key.k;
      AllKeyed(ns, n - 1);
      assert S == S' + {ns[n - 1].key.k};
      assert ns[n - 1].key.k !in S';
    }
  }

  /** A vector of more nodes than there are keys to keep has a free node. */
  lemma Room(ns: seq<Node>, B: set<Key>)
    requires Distinct(ns) && NoDead(ns) && NodeKeys(ns) <= B && |B| < |ns|
    ensures exists i :: 0 <= i < |ns| && ns[i].key == NoKey
  {
    if forall i :: 0 <= i < |ns| ==> ns[i].key != NoKey {
      AllKeyed(ns, |ns|);
      assert NodeKeys(ns) == set i | 0 <= i < |ns| :: ns[i].key.k;
      SubsetSize(NodeKeys(ns), B);
      assert false;
    }
  }
}
