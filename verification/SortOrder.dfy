/** Orders, sorted segments and permutations of segments. */
module SortOrder {

  /** A comparison function of the program: its answer may depend on how often it was called. */
  type Ask<!T(!new)> = (nat, T, T) -> bool

  /** A strict weak order: irreflexive, transitive, and so is being unordered. */
  ghost predicate StrictWeak<T(!new)>(lt: (T, T) -> bool) {
    && (forall x :: !lt(x, x))
    && (forall x, y, z :: lt(x, y) && lt(y, z) ==> lt(x, z))
    && (forall x, y, z :: !lt(x, y) && !lt(y, z) ==> !lt(x, z))
  }

  /** The comparison function always answers as the order `lt` says. */
  ghost predicate Follows<T(!new)>(ask: Ask<T>, lt: (T, T) -> bool) {
    forall n: nat, x: T, y: T :: ask(n, x, y) == lt(x, y)
  }

  /** What `table.sort` asks of the comparison function. A strict order by a key is one. */
  lemma StrictWeakIs<T(!new)>(lt: (T, T) -> bool, key: T -> int)
    ensures (forall x, y :: lt(x, y) ==> !lt(y, x)) && (forall x, y, z :: !lt(x, y) && !lt(y, z) ==> !lt(x, z)) ==> StrictWeak(lt)
    ensures (forall x, y :: lt(x, y) <==> key(x) < key(y)) ==> StrictWeak(lt)
  {
  }

  lemma FollowsIs<T(!new)>(ask: Ask<T>, lt: (T, T) -> bool)
    ensures (forall n: nat, x: T, y: T :: ask(n, x, y) <==> lt(x, y)) ==> Follows(ask, lt)
  {
  }

  ghost predicate Sorted<T>(s: seq<T>, lo: int, up: int, lt: (T, T) -> bool) {
    forall i, j :: 0 <= lo <= i < j <= up < |s| ==> !lt(s[j], s[i])
  }

  /** `t` is `s` with the elements from `lo` to `up` permuted. */
  ghost predicate Permuted<T>(s: seq<T>, t: seq<T>, lo: int, up: int) {
    && |t| == |s| && 0 <= lo <= up + 1 <= |s|
    && s[..lo] == t[..lo] && s[up + 1..] == t[up + 1..]
    && multiset(s[lo..up + 1]) == multiset(t[lo..up + 1])
  }

  lemma PermutedRefl<T>(s: seq<T>, lo: int, up: int)
    requires 0 <= lo <= up + 1 <= |s|
    ensures Permuted(s, s, lo, up)
  {
  }

  lemma PermutedTrans<T>(s: seq<T>, t: seq<T>, u: seq<T>, lo: int, up: int)
    requires Permuted(s, t, lo, up) && Permuted(t, u, lo, up)
    ensures Permuted(s, u, lo, up)
  {
  }

  /** A permutation of a part is one of the whole. */
  lemma PermutedWider<T>(s: seq<T>, t: seq<T>, lo: int, up: int, lo': int, up': int)
    requires Permuted(s, t, lo, up) && 0 <= lo' <= lo && up <= up' < |s|
    ensures Permuted(s, t, lo', up')
  {
    assert s[lo'..up' + 1] == s[lo'..lo] + s[lo..up + 1] + s[up + 1..up' + 1];
    assert t[lo'..up' + 1] == t[lo'..lo] + t[lo..up + 1] + t[up + 1..up' + 1];
    assert s[lo'..lo] == s[..lo][lo'..] && t[lo'..lo] == t[..lo][lo'..];
    assert s[up + 1..up' + 1] == s[up + 1..][..up' - up] && t[up + 1..up' + 1] == t[up + 1..][..up' - up];
    assert s[..lo'] == s[..lo][..lo'] && t[..lo'] == t[..lo][..lo'];
    assert s[up' + 1..] == s[up + 1..][up' - up..] && t[up' + 1..] == t[up + 1..][up' - up..];
  }

  function Swapped<T>(s: seq<T>, i: nat, j: nat): seq<T>
    requires i < |s| && j < |s|
  {
    s[i := s[j]][j := s[i]]
  }

  lemma SwappedPermuted<T>(s: seq<T>, i: nat, j: nat, lo: int, up: int)
    requires 0 <= lo <= i <= up < |s| && lo <= j <= up
    ensures Permuted(s, Swapped(s, i, j), lo, up)
  {
    var t := Swapped(s, i, j);
    assert t[..lo] == s[..lo] && t[up + 1..] == s[up + 1..];
    var a, b := s[lo..up + 1], t[lo..up + 1];
    assert b == a[i - lo := a[j - lo]][j - lo := a[i - lo]];
  }

  /** Every element of the permuted segment was there before. */
  lemma PermutedFrom<T>(s: seq<T>, t: seq<T>, lo: int, up: int, i: int) returns (j: int)
    requires Permuted(s, t, lo, up) && lo <= i <= up
    ensures lo <= j <= up && s[j] == t[i]
  {
    var a, b := s[lo..up + 1], t[lo..up + 1];
    assert b[i - lo] in multiset(b);
    assert t[i] in multiset(a);
    var k :| 0 <= k < |a| && a[k] == t[i];
    j := lo + k;
  }

  /** Pairs of `[lo0, up0]` that are not both in `[lo, up]` are in order. */
  ghost predicate Settled<T>(s: seq<T>, lo0: int, up0: int, lo: int, up: int, lt: (T, T) -> bool) {
    forall i, j :: 0 <= lo0 <= i < j <= up0 < |s| && (i < lo || j > up) ==> !lt(s[j], s[i])
  }

  lemma SettledPermuted<T>(s: seq<T>, t: seq<T>, lo0: int, up0: int, lo: int, up: int, lt: (T, T) -> bool)
    requires Settled(s, lo0, up0, lo, up, lt) && Permuted(s, t, lo, up) && lo0 <= lo && up <= up0
    ensures Settled(t, lo0, up0, lo, up, lt)
  {
    forall i, j | 0 <= lo0 <= i < j <= up0 < |t| && (i < lo || j > up)
      ensures !lt(t[j], t[i])
    {
      var i', j' := i, j;
      if lo <= i <= up {
        i' := PermutedFrom(s, t, lo, up, i);
      } else if i < lo {
        assert t[..lo][i] == s[..lo][i];
      } else {
        assert t[up + 1..][i - up - 1] == s[up + 1..][i - up - 1];
      }
      if lo <= j <= up {
        j' := PermutedFrom(s, t, lo, up, j);
      } else if j < lo {
        assert t[..lo][j] == s[..lo][j];
      } else {
        assert t[up + 1..][j - up - 1] == s[up + 1..][j - up - 1];
      }
    }
  }

  /** The pivot is in its place at `p`. */
  ghost predicate Split<T>(s: seq<T>, lo: int, p: int, up: int, lt: (T, T) -> bool) {
    && 0 <= lo <= p <= up < |s|
    && (forall i :: lo <= i < p ==> !lt(s[p], s[i]))
    && (forall j :: p < j <= up ==> !lt(s[j], s[p]))
  }

  /** A pair with the pivot at or between its places is in order, like the pairs settled before. */
  lemma SplitSettled<T(!new)>(s: seq<T>, lo0: int, up0: int, lo: int, p: int, up: int, lt: (T, T) -> bool, i: int, j: int)
    requires StrictWeak(lt) && Settled(s, lo0, up0, lo, up, lt) && Split(s, lo, p, up, lt)
    requires 0 <= lo0 <= i < j <= up0 < |s| && (i < lo || j > up || i <= p <= j)
    ensures !lt(s[j], s[i])
  {
    if lo <= i && j <= up && i < p < j {
      assert !lt(s[j], s[p]) && !lt(s[p], s[i]);
    }
  }

  lemma Outside<T>(s: seq<T>, t: seq<T>, lo: int, up: int, i: int)
    requires Permuted(s, t, lo, up) && 0 <= i < |s| && (i < lo || i > up)
    ensures t[i] == s[i]
  {
    if i < lo {
      assert t[..lo][i] == s[..lo][i];
    } else {
      assert t[up + 1..][i - up - 1] == s[up + 1..][i - up - 1];
    }
  }

  /** Where an element of the permuted sequence was before. */
  lemma Origin<T>(s: seq<T>, t: seq<T>, lo: int, up: int, i: int) returns (j: int)
    requires Permuted(s, t, lo, up) && 0 <= i < |s|
    ensures 0 <= j < |s| && s[j] == t[i] && (if lo <= i <= up then lo <= j <= up else j == i)
  {
    if lo <= i <= up {
      j := PermutedFrom(s, t, lo, up, i);
    } else {
      Outside(s, t, lo, up, i);
      j := i;
    }
    hide Permuted;
  }

  /** After the part below the pivot has been sorted, only the part above it remains; and the other way round. */
  lemma BelowDone<T(!new)>(s: seq<T>, t: seq<T>, lo0: int, up0: int, lo: int, p: int, up: int, lt: (T, T) -> bool)
    requires StrictWeak(lt) && Settled(s, lo0, up0, lo, up, lt) && Split(s, lo, p, up, lt) && lo0 <= lo && up <= up0 < |s|
    requires Permuted(s, t, lo, p - 1) && Sorted(t, lo, p - 1, lt) && |t| == |s|
    ensures Settled(t, lo0, up0, p + 1, up, lt)
  {
    forall i, j | 0 <= lo0 <= i < j <= up0 < |t| && (i < p + 1 || j > up)
      ensures !lt(t[j], t[i])
    {
      if !(lo <= i && j <= p - 1) {
        SplitPlace(s, lo, p, up, lt);
        var i' := Origin(s, t, lo, p - 1, i);
        var j' := Origin(s, t, lo, p - 1, j);
        hide Permuted, StrictWeak, Settled, Split;
        SplitSettled(s, lo0, up0, lo, p, up, lt, i', j');
      }
    }
    hide Permuted, StrictWeak, Split;
  }

  lemma SplitPlace<T>(s: seq<T>, lo: int, p: int, up: int, lt: (T, T) -> bool)
    requires Split(s, lo, p, up, lt)
    ensures 0 <= lo <= p <= up < |s|
  {
  }

  lemma AboveDone<T(!new)>(s: seq<T>, t: seq<T>, lo0: int, up0: int, lo: int, p: int, up: int, lt: (T, T) -> bool)
    requires StrictWeak(lt) && Settled(s, lo0, up0, lo, up, lt) && Split(s, lo, p, up, lt) && lo0 <= lo && up <= up0 < |s|
    requires Permuted(s, t, p + 1, up) && Sorted(t, p + 1, up, lt) && |t| == |s|
    ensures Settled(t, lo0, up0, lo, p - 1, lt)
  {
    forall i, j | 0 <= lo0 <= i < j <= up0 < |t| && (i < lo || j > p - 1)
      ensures !lt(t[j], t[i])
    {
      if !(p + 1 <= i && j <= up) {
        SplitPlace(s, lo, p, up, lt);
        var i' := Origin(s, t, p + 1, up, i);
        var j' := Origin(s, t, p + 1, up, j);
        hide Permuted, StrictWeak, Settled, Split;
        SplitSettled(s, lo0, up0, lo, p, up, lt, i', j');
      }
    }
    hide Permuted, StrictWeak, Split;
  }

  // ---------- partition ----------

  ghost predicate Below<T>(s: seq<T>, lo: int, i: int, P: T, lt: (T, T) -> bool) {
    forall x :: 0 <= lo <= x <= i < |s| ==> !lt(P, s[x])
  }

  ghost predicate Above<T>(s: seq<T>, j: int, up: int, P: T, lt: (T, T) -> bool) {
    forall x :: 0 <= j <= x <= up < |s| ==> !lt(s[x], P)
  }

  lemma Asymmetric<T(!new)>(lt: (T, T) -> bool, x: T, y: T)
    requires StrictWeak(lt)
    ensures !lt(x, x) && (lt(x, y) ==> !lt(y, x))
  {
  }

  /** Elements on the wrong sides of the pivot have changed places. */
  lemma ExchangeKeeps<T>(s: seq<T>, lo: int, i: int, j: int, up: int, P: T, lt: (T, T) -> bool)
    requires 0 <= lo < i <= j < up < |s|
    requires Below(s, lo, i - 1, P, lt) && Above(s, j + 1, up, P, lt) && !lt(s[i], P) && !lt(P, s[j])
    ensures Below(Swapped(s, i, j), lo, i, P, lt) && Above(Swapped(s, i, j), j, up, P, lt)
  {
  }

  /** The pivot comes to its place. */
  lemma PivotPlaced<T>(s: seq<T>, lo: int, i: int, j: int, up: int, P: T, lt: (T, T) -> bool)
    requires 0 <= lo < i <= up - 1 < up < |s| && -1 <= j < i && s[up - 1] == P
    requires Below(s, lo, i - 1, P, lt) && Above(s, j + 1, up, P, lt) && !lt(s[i], P)
    ensures Split(Swapped(s, up - 1, i), lo, i, up, lt)
  {
    var t := Swapped(s, up - 1, i);
    assert t[i] == P;
    forall x | lo <= x < i
      ensures !lt(t[i], t[x])
    {
      assert t[x] == s[x];
    }
    forall x | i < x <= up
      ensures !lt(t[x], t[i])
    {
      assert t[x] == s[if x == up - 1 then i else x];
    }
  }

  // ---------- the parts of a sort ----------

  lemma AllInside<T>(s: seq<T>, lo: int, up: int, lt: (T, T) -> bool)
    ensures Settled(s, lo, up, lo, up, lt)
  {
  }

  /** Two elements remain, in order. */
  lemma TwoLeft<T>(s: seq<T>, lo0: int, up0: int, lo: int, up: int, lt: (T, T) -> bool)
    requires Settled(s, lo0, up0, lo, up, lt) && up == lo + 1 && 0 <= lo && up < |s| && !lt(s[up], s[lo])
    ensures Sorted(s, lo0, up0, lt)
  {
  }

  /** Three elements remain, in order. */
  lemma ThreeLeft<T>(s: seq<T>, lo0: int, up0: int, lo: int, up: int, lt: (T, T) -> bool)
    requires Settled(s, lo0, up0, lo, up, lt) && up == lo + 2 && 0 <= lo && up < |s|
    requires !lt(s[lo + 1], s[lo]) && !lt(s[up], s[lo + 1]) && !lt(s[up], s[lo])
    ensures Sorted(s, lo0, up0, lt)
  {
  }

  /** The median has moved to the last but one place. */
  lemma MedianMoved<T>(s: seq<T>, lo: nat, p: nat, up: nat, lt: (T, T) -> bool)
    requires lo < p < up < |s| && lo < up - 1 && !lt(s[p], s[lo]) && !lt(s[up], s[p])
    ensures var t := Swapped(s, p, up - 1); |t| == |s| && !lt(t[up - 1], t[lo]) && !lt(t[up], t[up - 1])
  {
  }

  // ---------- one turn of the sorting loop ----------

  /** What the sorting loop knows: `a0` has been permuted to `s`, and if the comparison function is
      orderly, only the pairs inside `[lo, up]` may be out of order. */
  ghost predicate Sorting<T>(a0: seq<T>, s: seq<T>, lo0: int, up0: int, lo: int, up: int, orderly: bool, lt: (T, T) -> bool) {
    Permuted(a0, s, lo0, up0) && (orderly ==> Settled(s, lo0, up0, lo, up, lt))
  }

  lemma SortingPivot<T>(a0: seq<T>, s: seq<T>, t: seq<T>, lo0: int, up0: int, lo: int, up: int, orderly: bool, lt: (T, T) -> bool)
    requires Sorting(a0, s, lo0, up0, lo, up, orderly, lt) && Permuted(s, t, lo, up) && 0 <= lo0 <= lo && up <= up0 < |s|
    ensures Sorting(a0, t, lo0, up0, lo, up, orderly, lt)
  {
    hide Permuted, Settled;
    PermutedWider(s, t, lo, up, lo0, up0);
    PermutedTrans(a0, s, t, lo0, up0);
    if orderly {
      SettledPermuted(s, t, lo0, up0, lo, up, lt);
    }
  }

  lemma SortingBelow<T(!new)>(a0: seq<T>, t: seq<T>, u: seq<T>, lo0: int, up0: int, lo: int, p: int, up: int, orderly: bool, lt: (T, T) -> bool)
    requires Sorting(a0, t, lo0, up0, lo, up, orderly, lt) && Permuted(t, u, lo, p - 1) && 0 <= lo0 <= lo <= p <= up <= up0 < |t|
    requires orderly ==> StrictWeak(lt) && Split(t, lo, p, up, lt) && Sorted(u, lo, p - 1, lt)
    ensures Sorting(a0, u, lo0, up0, p + 1, up, orderly, lt)
  {
    hide Permuted, Settled, Split, Sorted;
    PermutedWider(t, u, lo, p - 1, lo0, up0);
    PermutedTrans(a0, t, u, lo0, up0);
    if orderly {
      BelowDone(t, u, lo0, up0, lo, p, up, lt);
    }
  }

  lemma SortingAbove<T(!new)>(a0: seq<T>, t: seq<T>, u: seq<T>, lo0: int, up0: int, lo: int, p: int, up: int, orderly: bool, lt: (T, T) -> bool)
    requires Sorting(a0, t, lo0, up0, lo, up, orderly, lt) && Permuted(t, u, p + 1, up) && 0 <= lo0 <= lo <= p <= up <= up0 < |t|
    requires orderly ==> StrictWeak(lt) && Split(t, lo, p, up, lt) && Sorted(u, p + 1, up, lt)
    ensures Sorting(a0, u, lo0, up0, lo, p - 1, orderly, lt)
  {
    hide Permuted, Settled, Split, Sorted;
    PermutedWider(t, u, p + 1, up, lo0, up0);
    PermutedTrans(a0, t, u, lo0, up0);
    if orderly {
      AboveDone(t, u, lo0, up0, lo, p, up, lt);
    }
  }

  lemma SortingEnd<T>(a0: seq<T>, s: seq<T>, lo0: int, up0: int, lo: int, up: int, orderly: bool, lt: (T, T) -> bool)
    requires Sorting(a0, s, lo0, up0, lo, up, orderly, lt)
    requires lo >= up || (orderly ==> Sorted(s, lo, up, lt) && 0 <= lo && up < |s|)
    ensures Permuted(a0, s, lo0, up0) && (orderly ==> Sorted(s, lo0, up0, lt))
  {
    hide Permuted;
  }
}
