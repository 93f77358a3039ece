/** `table.sort`: quicksort in place, under any comparison function. */
module Quicksort {
  import opened Powers
  import opened SortOrder

  const RANLIMIT: nat := 100

  datatype Outcome = Done | InvalidOrder

  /** `choosePivot`: an element in the middle half. */
  function ChoosePivot(lo: nat, up: nat, rnd: nat): (p: nat)
    requires up - lo >= RANLIMIT
    ensures lo + (up - lo) / 4 <= p <= up - (up - lo) / 4
  {
    var r4 := (up - lo) / 4;
    rnd % (r4 * 2) + (lo + r4)
  }

  /** The elements are `a[lo]` to `a[up]`; the table of the source counts from 1. `ghost lt` is an order that
      the comparison function may follow; `randoms` are the numbers drawn from the clock. */
  class Sorter<T(!new)> {
    const a: array<T>
    const ask: Ask<T>
    const random: nat -> nat
    ghost const lt: (T, T) -> bool
    var calls: nat
    var draws: nat

    constructor (a: array<T>, ask: Ask<T>, random: nat -> nat, ghost lt: (T, T) -> bool)
      ensures this.a == a && this.ask == ask && this.lt == lt
    {
      this.a, this.ask, this.random, this.lt := a, ask, random, lt;
      calls, draws := 0, 0;
    }

    ghost predicate Orderly() {
      StrictWeak(lt) && Follows(ask, lt)
    }

    /** `sort_comp`. */
    method Less(x: T, y: T) returns (b: bool)
      modifies `calls
      ensures Orderly() ==> b == lt(x, y)
    {
      b := ask(calls, x, y);
      calls := calls + 1;
    }

    /** `set2` on two elements just read: they change places. */
    method Swap(i: nat, j: nat, ghost lo: int, ghost up: int)
      requires 0 <= lo <= i <= up < a.Length && lo <= j <= up
      modifies a
      ensures a[..] == Swapped(old(a[..]), i, j) && Permuted(old(a[..]), a[..], lo, up)
    {
      SwappedPermuted(a[..], i, j, lo, up);
      a[i], a[j] := a[j], a[i];
    }

    /** The first inner loop of `partition`: repeats `++i` while `a[i] < P`. */
    method ScanUp(i0: nat, lo: nat, up: nat, P: T) returns (r: Outcome, i: nat)
      requires lo <= i0 < up - 1 && up < a.Length && a[up - 1] == P
      requires Orderly() ==> Below(a[..], lo, i0, P, lt)
      modifies `calls
      ensures r.Done? ==> i0 < i <= up - 1
      ensures Orderly() ==> r.Done? && Below(a[..], lo, i - 1, P, lt) && !lt(a[i], P)
    {
      i := i0 + 1;
      var b := Less(a[i], P);
      while b
        invariant i0 < i <= up - 1 && (Orderly() ==> b == lt(a[i], P) && Below(a[..], lo, i - 1, P, lt))
        decreases up - i
      {
        if Orderly() {
          Asymmetric(lt, a[i], P);
        }
        if i == up - 1 {
          return InvalidOrder, i;
        }
        i := i + 1;
        b := Less(a[i], P);
      }
      r := Done;
    }

    /** The second inner loop: repeats `--j` while `P < a[j]`. */
    method ScanDown(j0: nat, i: nat, lo: nat, up: nat, P: T) returns (r: Outcome, j: nat)
      requires lo < i <= up - 1 && lo < j0 <= up - 1 && up < a.Length
      requires Orderly() ==> Above(a[..], j0, up, P, lt) && Below(a[..], lo, i - 1, P, lt)
      modifies `calls
      ensures r.Done? ==> lo <= j < j0
      ensures Orderly() ==> r.Done? && Above(a[..], j + 1, up, P, lt) && !lt(P, a[j])
    {
      j := j0 - 1;
      var b := Less(P, a[j]);
      while b
        invariant lo <= j < j0 && (Orderly() ==> b == lt(P, a[j]) && Above(a[..], j + 1, up, P, lt))
        decreases j
      {
        if Orderly() {
          Asymmetric(lt, P, a[j]);
        }
        if j < i {
          return InvalidOrder, j;
        }
        j := j - 1;
        b := Less(P, a[j]);
      }
      r := Done;
    }

    /** The last exchange of `partition`: the pivot comes to its place. */
    method BringPivot(lo: nat, i: nat, ghost j: int, up: nat, P: T)
      requires lo < i <= up - 1 < up < a.Length && -1 <= j < i && a[up - 1] == P
      requires Orderly() ==> Below(a[..], lo, i - 1, P, lt) && Above(a[..], j + 1, up, P, lt) && !lt(a[i], P)
      modifies a
      ensures Permuted(old(a[..]), a[..], lo, up) && (Orderly() ==> Split(a[..], lo, i, up, lt))
    {
      hide Orderly, Permuted, Below, Above, Split, Swapped;
      if Orderly() {
        PivotPlaced(a[..], lo, i, j, up, P, lt);
      }
      Swap(up - 1, i, lo, up);
    }

    /** The exchange of two elements on the wrong sides. */
    method Exchange(lo: nat, i: nat, j: nat, up: nat, P: T)
      requires lo < i <= j < up - 1 < up < a.Length && a[up - 1] == P
      requires Orderly() ==> Below(a[..], lo, i - 1, P, lt) && Above(a[..], j + 1, up, P, lt) && !lt(a[i], P) && !lt(P, a[j])
      modifies a
      ensures Permuted(old(a[..]), a[..], lo, up) && a[up - 1] == P
      ensures Orderly() ==> Below(a[..], lo, i, P, lt) && Above(a[..], j, up, P, lt)
    {
      hide Orderly, Permuted, Below, Above, Swapped;
      if Orderly() {
        ExchangeKeeps(a[..], lo, i, j, up, P, lt);
      }
      SwappedAt(a[..], i, j, up - 1);
      Swap(i, j, lo, up);
      assert a[up - 1] == a[..][up - 1];
    }

    /** `partition`: the pivot is `a[up - 1]`. */
    method Partition(lo: nat, up: nat) returns (r: Outcome, p: nat)
      requires lo + 2 < up < a.Length
      requires Orderly() ==> !lt(a[up - 1], a[lo]) && !lt(a[up], a[up - 1])
      modifies `calls, a
      ensures Permuted(old(a[..]), a[..], lo, up)
      ensures r.Done? ==> lo < p < up
      ensures Orderly() ==> r.Done? && Split(a[..], lo, p, up, lt)
    {
      var i, j, P := lo, up - 1, a[up - 1];
      ghost var a0 := a[..];
      PermutedRefl(a0, lo, up);
      p := lo;
      if Orderly() {
        Asymmetric(lt, P, P);
      }
      assert Orderly() ==> Below(a[..], lo, i, P, lt) && Above(a[..], j, up, P, lt);
      hide Orderly, Permuted, Below, Above, Split, Swapped;
      while true
        invariant lo <= i <= j <= up - 1 && lo < j && (i == lo || j < up - 1) && a[up - 1] == P
        invariant Permuted(a0, a[..], lo, up)
        invariant Orderly() ==> Below(a[..], lo, i, P, lt) && Above(a[..], j, up, P, lt)
        decreases up - i
      {
        ghost var s := a[..];
        r, i := ScanUp(i, lo, up, P);
        if r.InvalidOrder? {
          return;
        }
        r, j := ScanDown(j, i, lo, up, P);
        if r.InvalidOrder? {
          return;
        }
        if j < i {
          BringPivot(lo, i, j, up, P);
          PermutedTrans(a0, s, a[..], lo, up);
          return Done, i;
        }
        Exchange(lo, i, j, up, P);
        PermutedTrans(a0, s, a[..], lo, up);
      }
    }

    /** The elements `lo`, `p` and `up` are put in order. */
    method MedianOfThree(lo: nat, p: nat, up: nat)
      requires lo < p < up < a.Length
      requires Orderly() ==> !lt(a[up], a[lo])
      modifies `calls, a
      ensures Permuted(old(a[..]), a[..], lo, up)
      ensures Orderly() ==> !lt(a[p], a[lo]) && !lt(a[up], a[p]) && !lt(a[up], a[lo])
    {
      PermutedRefl(a[..], lo, up);
      var b := Less(a[p], a[lo]);
      if b {
        Swap(p, lo, lo, up);
      } else {
        b := Less(a[up], a[p]);
        if b {
          Swap(p, up, lo, up);
        }
      }
    }

    /** The first and the last element are put in order. */
    method OrderEnds(lo: nat, up: nat)
      requires lo < up < a.Length
      modifies `calls, a
      ensures Permuted(old(a[..]), a[..], lo, up) && (Orderly() ==> !lt(a[up], a[lo]))
    {
      hide Orderly, Permuted, Swapped;
      PermutedRefl(a[..], lo, up);
      var b := Less(a[up], a[lo]);
      if b {
        if Orderly() {
          OrderlyAsymmetric(a[up], a[lo]);
        }
        SwappedEnds(a[..], lo, up);
        Swap(lo, up, lo, up);
        assert a[lo] == a[..][lo] && a[up] == a[..][up];
      }
    }

    /** The pivot, at `p`, goes before the last element, and the segment is partitioned about it. */
    method PartitionAbout(lo: nat, p: nat, up: nat) returns (r: Outcome, q: nat)
      requires lo < p < up < a.Length && lo + 2 < up
      requires Orderly() ==> !lt(a[p], a[lo]) && !lt(a[up], a[p])
      modifies `calls, a
      ensures Permuted(old(a[..]), a[..], lo, up)
      ensures r.Done? ==> lo < q < up
      ensures Orderly() ==> r.Done? && Split(a[..], lo, q, up, lt)
    {
      hide Orderly, Permuted, Split, Swapped;
      ghost var s := a[..];
      if Orderly() {
        MedianMoved(s, lo, p, up, lt);
      }
      Swap(p, up - 1, lo, up);
      ghost var t := a[..];
      assert a[lo] == t[lo] && a[up - 1] == t[up - 1] && a[up] == t[up];
      r, q := Partition(lo, up);
      PermutedTrans(s, t, a[..], lo, up);
    }

    /** One turn of the loop of `auxsort`, up to the partition: the pivot has come to its place `p`. Small
        segments are sorted at once. */
    method PlacePivot(lo: nat, up: nat, rnd: nat) returns (r: Outcome, sorted: bool, p: nat)
      requires lo < up < a.Length
      modifies `calls, a
      ensures Permuted(old(a[..]), a[..], lo, up)
      ensures r.Done? && !sorted ==> lo < p < up
      ensures Orderly() ==> r.Done? && if sorted then Sorted(a[..], lo, up, lt) else Split(a[..], lo, p, up, lt)
    {
      hide Orderly, Permuted, Split, Sorted, Settled, Swapped;
      ghost var s := a[..];
      p := lo;
      OrderEnds(lo, up);
      if up - lo == 1 {
        if Orderly() {
          AllInside(a[..], lo, up, lt);
          TwoLeft(a[..], lo, up, lo, up, lt);
        }
        return Done, true, lo;
      }
      if up - lo < RANLIMIT || rnd == 0 {
        p := (lo + up) / 2;
      } else {
        p := ChoosePivot(lo, up, rnd);
      }
      ghost var s1 := a[..];
      MedianOfThree(lo, p, up);
      PermutedTrans(s, s1, a[..], lo, up);
      if up - lo == 2 {
        if Orderly() {
          AllInside(a[..], lo, up, lt);
          ThreeLeft(a[..], lo, up, lo, up, lt);
        }
        return Done, true, lo;
      }
      ghost var s2 := a[..];
      r, p := PartitionAbout(lo, p, up);
      PermutedTrans(s, s2, a[..], lo, up);
      sorted := false;
    }

    lemma OrderlyAsymmetric(x: T, y: T)
      ensures Orderly() && lt(x, y) ==> !lt(y, x)
    {
    }

    /** `auxsort`. `depth` is the number of calls nested in each other, this one included. */
    method AuxSort(lo0: nat, up0: int, rnd0: nat) returns (r: Outcome, ghost depth: nat)
      requires -1 <= up0 < a.Length && lo0 <= up0 + 1
      modifies `calls, `draws, a
      ensures Permuted(old(a[..]), a[..], lo0, up0)
      ensures Orderly() ==> r.Done? && Sorted(a[..], lo0, up0, lt)
      ensures depth > 0 && Pow2(depth - 1) <= up0 - lo0 + 2
      decreases up0 - lo0 + 1
    {
      hide Orderly, Permuted, Sorting, Split, Sorted, StrictWeak;
      var lo: nat, up, rnd := lo0, up0, rnd0;
      ghost var a0, orderly := a[..], Orderly();
      depth := 1;
      SortingStart(a0, lo0, up0);
      r := Done;
      while lo < up
        invariant lo0 <= lo <= up + 1 && up <= up0 && r.Done?
        invariant Sorting(a0, a[..], lo0, up0, lo, up, orderly, lt)
        invariant depth > 0 && Pow2(depth - 1) <= up0 - lo0 + 2
        decreases up - lo + 1
      {
        ghost var s := a[..];
        var sorted, p;
        r, sorted, p := PlacePivot(lo, up, rnd);
        ghost var t := a[..];
        SortingPivot(a0, s, t, lo0, up0, lo, up, orderly, lt);
        if r.InvalidOrder? {
          SortingKept(a0, t, lo0, up0, lo, up, orderly);
          return;
        }
        if sorted {
          SortingEnd(a0, t, lo0, up0, lo, up, orderly, lt);
          return;
        }
        var n;
        ghost var d;
        OrderlyStrict();
        if p - lo < up - p {
          r, d := AuxSort(lo, p - 1, rnd);
          SortingBelow(a0, t, a[..], lo0, up0, lo, p, up, orderly, lt);
          n, lo := p - lo, p + 1;
        } else {
          r, d := AuxSort(p + 1, up, rnd);
          SortingAbove(a0, t, a[..], lo0, up0, lo, p, up, orderly, lt);
          n, up := up - p, p - 1;
        }
        if r.InvalidOrder? {
          SortingKept(a0, a[..], lo0, up0, lo, up, orderly);
          return;
        }
        depth := if d + 1 > depth then d + 1 else depth;
        if (up - lo) / 128 > n {
          rnd := random(draws);
          draws := draws + 1;
        }
      }
      SortingEnd(a0, a[..], lo0, up0, lo, up, orderly, lt);
    }

    lemma SortingStart(s: seq<T>, lo: int, up: int)
      requires 0 <= lo <= up + 1 <= |s|
      ensures Sorting(s, s, lo, up, lo, up, Orderly(), lt)
    {
    }

    lemma SortingKept(a0: seq<T>, s: seq<T>, lo0: int, up0: int, lo: int, up: int, orderly: bool)
      requires Sorting(a0, s, lo0, up0, lo, up, orderly, lt)
      ensures Permuted(a0, s, lo0, up0)
    {
    }

    lemma OrderlyStrict()
      ensures Orderly() ==> StrictWeak(lt)
    {
    }
  }

  /** `sort`, on all the elements of an array: it ends under any comparison function and keeps the elements;
      under a strict weak order it sorts them and reports no error. */
  method Sort<T(!new)>(a: array<T>, ask: Ask<T>, random: nat -> nat, ghost lt: (T, T) -> bool) returns (r: Outcome, ghost depth: nat)
    modifies a
    ensures multiset(a[..]) == multiset(old(a[..]))
    ensures StrictWeak(lt) && Follows(ask, lt) ==> r.Done? && forall i, j :: 0 <= i < j < a.Length ==> !lt(a[j], a[i])
    ensures depth > 0 ==> Pow2(depth - 1) <= a.Length + 1
  {
    depth := 0;
    r := Done;
    ghost var s := a[..];
    if a.Length > 1 {
      var sorter := new Sorter(a, ask, random, lt);
      r, depth := sorter.AuxSort(0, a.Length - 1, 0);
      assert s[0..a.Length - 1 + 1] == s && a[..][0..a.Length - 1 + 1] == a[..];
    }
  }

  lemma SwappedEnds<T>(s: seq<T>, i: nat, j: nat)
    requires i < |s| && j < |s|
    ensures |Swapped(s, i, j)| == |s| && Swapped(s, i, j)[i] == s[j] && Swapped(s, i, j)[j] == s[i]
  {
  }

  lemma SwappedAt<T>(s: seq<T>, i: nat, j: nat, x: nat)
    requires i < |s| && j < |s| && x < |s| && x != i && x != j
    ensures Swapped(s, i, j)[x] == s[x]
  {
  }
}
