/** The sweep: freeing dead objects and turning the others white again. */
module GcSweep {
  import opened GcHeap
  import opened GcMarking

  /** The elements of `q` that are not dead, in order. */
  function Survivors(s: State, q: seq<Id>): (r: seq<Id>)
    ensures |r| <= |q|
    ensures forall x :: x in r <==> x in q && !Dead(s, x)
  {
    if q == [] then []
    else if Dead(s, q[|q| - 1]) then Survivors(s, q[..|q| - 1])
    else Survivors(s, q[..|q| - 1]) + [q[|q| - 1]]
  }

  ghost function SweptHeap(a: State, m: seq<Id>): map<Id, Obj> {
    map x | x in a.heap && !(x in m && Dead(a, x)) :: a.heap[x]
  }

  ghost function SweptColor(a: State, m: seq<Id>): map<Id, Color> {
    map x | x in a.color && !(x in m && Dead(a, x)) :: if x in m then White(a.cur) else a.color[x]
  }

  /** The state after sweeping the stretch `m` of `allgc`, which lies between `l` and `r`: dead
      objects of the stretch are gone, the others are white. */
  ghost function Swept(a: State, l: seq<Id>, m: seq<Id>, r: seq<Id>): State {
    a.(heap := SweptHeap(a, m), color := SweptColor(a, m), allgc := l + Survivors(a, m) + r)
  }

  lemma SweptNone(a: State, l: seq<Id>, r: seq<Id>)
    requires a.allgc == l + r
    ensures Swept(a, l, [], r) == a
  {
    assert l + [] + r == a.allgc;
    assert SweptHeap(a, []) == a.heap && SweptColor(a, []) == a.color;
  }

  lemma Cut(l: seq<Id>, x: Id, r: seq<Id>)
    ensures (l + ([x] + r))[|l|] == x && (l + ([x] + r))[..|l|] == l && (l + ([x] + r))[|l| + 1..] == r
  {
  }

  /** The state after one turn of the loop of `sweeplist` on `s`, at position `k`. */
  ghost function SweepOne(s: State, k: nat, dead: bool): State
    requires k < |s.allgc|
  {
    var x := s.allgc[k];
    if dead then s.(heap := s.heap - {x}, color := s.color - {x}, allgc := s.allgc[..k] + s.allgc[k + 1..])
    else s.(color := s.color[x := White(s.cur)])
  }

  lemma SweptMaps(a: State, m: seq<Id>, x: Id)
    requires x !in m && x in a.heap && x in a.color
    ensures Dead(a, x) ==> SweptHeap(a, m + [x]) == SweptHeap(a, m) - {x}
    ensures Dead(a, x) ==> SweptColor(a, m + [x]) == SweptColor(a, m) - {x}
    ensures !Dead(a, x) ==> SweptHeap(a, m + [x]) == SweptHeap(a, m)
    ensures !Dead(a, x) ==> SweptColor(a, m + [x]) == SweptColor(a, m)[x := White(a.cur)]
    ensures x in SweptColor(a, m) && SweptColor(a, m)[x] == a.color[x]
  {
    assert forall y :: y in m + [x] <==> y in m || y == x;
  }

  lemma SurvivorsNext(a: State, m: seq<Id>, x: Id)
    ensures Survivors(a, m + [x]) == if Dead(a, x) then Survivors(a, m) else Survivors(a, m) + [x]
  {
    var q := m + [x];
    assert q[..|q| - 1] == m && q[|q| - 1] == x;
  }

  lemma SweptFind(a: State, l: seq<Id>, m: seq<Id>, x: Id, r: seq<Id>)
    requires WellFormed(a) && a.allgc == l + m + ([x] + r)
    ensures x !in l && x !in m && x in a.allgc && x in a.heap && x in a.color
  {
    var q := a.allgc;
    assert q[|l| + |m|] == x;
    assert forall i :: 0 <= i < |l| ==> q[i] == l[i];
    assert forall i :: 0 <= i < |m| ==> q[|l| + i] == m[i];
    assert x in q;
  }

  lemma SweptStep(a: State, l: seq<Id>, m: seq<Id>, x: Id, r: seq<Id>)
    requires WellFormed(a) && a.allgc == l + m + ([x] + r)
    ensures a.allgc == l + (m + [x]) + r && x in a.color
    ensures var s, k := Swept(a, l, m, [x] + r), |l + Survivors(a, m)|;
      && k < |s.allgc| && s.allgc[k] == x && x in s.color && s.color[x] == a.color[x] && x in s.heap
      && Swept(a, l, m + [x], r) == SweepOne(s, k, Dead(a, x))
    ensures |l + Survivors(a, m + [x])| == |l + Survivors(a, m)| + if Dead(a, x) then 0 else 1
  {
    hide WellFormed, SweptColor, Survivors, Dead;
    SweptFind(a, l, m, x, r);
    var p := l + Survivors(a, m);
    SurvivorsNext(a, m, x);
    SweptMaps(a, m, x);
    Cut(p, x, r);
    assert Swept(a, l, m, [x] + r).allgc == p + ([x] + r);
    SweptLists(l, Survivors(a, m), x, r);
  }

  lemma SweptLists(l: seq<Id>, k: seq<Id>, x: Id, r: seq<Id>)
    ensures l + (k + [x]) + r == l + k + ([x] + r)
    ensures forall m: seq<Id> :: l + m + ([x] + r) == l + (m + [x]) + r
  {
    forall m: seq<Id>
      ensures l + m + ([x] + r) == l + (m + [x]) + r
    {
    }
  }

  lemma SurvivorsEmpty(a: State)
    ensures Survivors(a, []) == []
  {
  }

  lemma SweptLength(a: State, l: seq<Id>, m: seq<Id>, x: Id, r: seq<Id>)
    ensures |Swept(a, l, m, [x] + r).allgc| == |l + Survivors(a, m)| + |r| + 1
    ensures |Swept(a, l, m + [x], r).allgc| == |l + Survivors(a, m + [x])| + |r|
    ensures Swept(a, l, m, [x] + r).cur == a.cur
  {
  }

  /** `m`, the stretch of `allgc` from `p` on, has been swept; the next object is at position `k`. */
  ghost predicate SweepLoop(a: State, s: State, p: nat, m: seq<Id>, k: nat) {
    && p + |m| <= |a.allgc| && m == a.allgc[p..p + |m|]
    && s == Swept(a, a.allgc[..p], m, a.allgc[p + |m|..]) && k == |a.allgc[..p] + Survivors(a, m)|
    && |s.allgc| - k == |a.allgc| - p - |m|
  }

  lemma SweepLoopStart(a: State, p: nat)
    requires p <= |a.allgc|
    ensures SweepLoop(a, a, p, [], p)
  {
    hide Swept, Survivors;
    var l, r := a.allgc[..p], a.allgc[p..];
    assert a.allgc == l + r && l + [] == l;
    SweptNone(a, l, r);
    SurvivorsEmpty(a);
  }

  lemma SweepLoopNext(a: State, s: State, p: nat, m: seq<Id>, k: nat)
    requires WellFormed(a) && SweepLoop(a, s, p, m, k) && k < |s.allgc|
    ensures p + |m| < |a.allgc| && s.allgc[k] in s.color
    ensures var dead := Dead(s, s.allgc[k]); SweepLoop(a, SweepOne(s, k, dead), p, m + [a.allgc[p + |m|]], if dead then k else k + 1)
  {
    hide WellFormed, Swept, Survivors, SweepOne;
    var l, x, r := a.allgc[..p], a.allgc[p + |m|], a.allgc[p + |m| + 1..];
    LoopCut(a.allgc, p, |m|);
    SweptStep(a, l, m, x, r);
    SweptLength(a, l, m, x, r);
  }

  lemma LoopCut(q: seq<Id>, p: nat, n: nat)
    requires p + n < |q|
    ensures q == q[..p] + q[p..p + n] + ([q[p + n]] + q[p + n + 1..]) && q[p + n..] == [q[p + n]] + q[p + n + 1..]
    ensures q[p..p + n] + [q[p + n]] == q[p..p + n + 1]
  {
  }

  lemma SweepLoopEnd(a: State, s: State, p: nat, m: seq<Id>, k: nat)
    requires SweepLoop(a, s, p, m, k)
    ensures p + |m| <= |a.allgc| && m == a.allgc[p..p + |m|]
    ensures s == Swept(a, a.allgc[..p], m, a.allgc[p + |m|..]) && k == |a.allgc[..p] + Survivors(a, m)|
    ensures k <= |s.allgc| && (k == |s.allgc| <==> a.allgc[p + |m|..] == []) && |s.allgc| - k == |a.allgc| - p - |m|
  {
    hide Swept, Survivors;
  }

  // ---------- what sweeping keeps ----------

  lemma SurvivorsNoDup(s: State, q: seq<Id>)
    requires NoDup(q)
    ensures NoDup(Survivors(s, q))
  {
    if q != [] {
      SurvivorsNoDup(s, q[..|q| - 1]);
    }
  }

  lemma NoDupParts(l: seq<Id>, m: seq<Id>, r: seq<Id>)
    requires NoDup(l + m + r)
    ensures NoDup(l) && NoDup(m) && NoDup(r)
    ensures forall x :: (x in l ==> x !in m && x !in r) && (x in m ==> x !in r)
  {
    var q := l + m + r;
    assert forall i :: 0 <= i < |l| ==> q[i] == l[i];
    assert forall i :: 0 <= i < |m| ==> q[|l| + i] == m[i];
    assert forall i :: 0 <= i < |r| ==> q[|l| + |m| + i] == r[i];
  }

  lemma NoDupJoin(l: seq<Id>, r: seq<Id>)
    requires NoDup(l) && NoDup(r) && (forall x :: x in l ==> x !in r)
    ensures NoDup(l + r)
  {
    var q := l + r;
    forall i, j | 0 <= i < j < |q|
      ensures q[i] != q[j]
    {
      if i < |l| <= j {
        assert q[i] in l && q[j] in r;
      }
    }
  }

  /** Sweeping frees dead objects only, and keeps the heap well formed and live. */
  lemma SweptKeeps(a: State, l: seq<Id>, m: seq<Id>, r: seq<Id>)
    requires WellFormed(a) && LiveRefs(a) && a.allgc == l + m + r
    ensures WellFormed(Swept(a, l, m, r)) && LiveRefs(Swept(a, l, m, r))
    ensures NonDead(Swept(a, l, m, r)) == NonDead(a)
  {
    SweptWellFormed(a, l, m, r);
    SweptLive(a, l, m, r);
    SweptNonDead(a, l, m, r);
  }

  lemma SweptWellFormed(a: State, l: seq<Id>, m: seq<Id>, r: seq<Id>)
    requires WellFormed(a) && a.allgc == l + m + r
    ensures WellFormed(Swept(a, l, m, r))
  {
    hide NoDup, Survivors;
    NoDupParts(l, m, r);
    SurvivorsNoDup(a, m);
    NoDupJoin(l, Survivors(a, m));
    NoDupJoin(l + Survivors(a, m), r);
    SweptMembers(a, l, m, r);
  }

  lemma SweptMembers(a: State, l: seq<Id>, m: seq<Id>, r: seq<Id>)
    requires a.allgc == l + m + r && NoDup(a.allgc)
    ensures forall x :: x in l + Survivors(a, m) + r <==> x in a.allgc && !(x in m && Dead(a, x))
    ensures forall x :: x in m ==> x in a.allgc
  {
    NoDupParts(l, m, r);
    assert forall x :: x in a.allgc <==> x in l || x in m || x in r;
    assert forall x :: x in l + Survivors(a, m) + r <==> x in l || x in Survivors(a, m) || x in r;
  }

  lemma SweptLive(a: State, l: seq<Id>, m: seq<Id>, r: seq<Id>)
    requires WellFormed(a) && LiveRefs(a)
    ensures LiveRefs(Swept(a, l, m, r))
  {
    hide Holds, WellFormed;
    var b := Swept(a, l, m, r);
    SweptSame(a, l, m, r);
    forall x, v | x in b.heap && !Dead(b, x) && Holds(b.heap[x], b.cells, v)
      ensures Live(b, v)
    {
      assert Live(a, v);
    }
    assert Live(a, Ref(a.main)) && Live(a, Ref(a.running));
    forall v | v in b.mt
      ensures Live(b, v)
    {
      assert Live(a, v);
    }
  }

  lemma SweptSame(a: State, l: seq<Id>, m: seq<Id>, r: seq<Id>)
    requires WellFormed(a)
    ensures var b := Swept(a, l, m, r);
      && (forall x :: x in b.heap && !Dead(b, x) ==> x in a.heap && !Dead(a, x) && b.heap[x] == a.heap[x])
      && forall v :: Live(a, v) ==> Live(b, v)
  {
  }

  lemma SweptNonDead(a: State, l: seq<Id>, m: seq<Id>, r: seq<Id>)
    ensures NonDead(Swept(a, l, m, r)) == NonDead(a)
  {
    var b := Swept(a, l, m, r);
    forall x
      ensures x in NonDead(b) <==> x in NonDead(a)
    {
    }
  }

  lemma SweptWhite(a: State, l: seq<Id>, m: seq<Id>, r: seq<Id>)
    requires AllWhite(a, l) && a.allgc == l + m + r && NoDup(a.allgc) && a.heap.Keys == a.color.Keys
    requires forall x :: x in a.allgc ==> x in a.heap
    ensures AllWhite(Swept(a, l, m, r), l + Survivors(a, m))
    ensures (l + Survivors(a, m) + r)[..|l + Survivors(a, m)|] == l + Survivors(a, m)
  {
    NoDupParts(l, m, r);
    var b := Swept(a, l, m, r);
    forall x | x in l + Survivors(a, m)
      ensures x in b.color && b.color[x] == White(b.cur)
    {
      assert x in a.allgc;
    }
  }

  /** A closed set stays closed, within the objects that are not dead, when dead objects go: the
      program reaches the same objects. */
  lemma SweptClosed(a: State, l: seq<Id>, m: seq<Id>, r: seq<Id>, S: set<Id>)
    requires WellFormed(a) && LiveRefs(a) && Closed(Swept(a, l, m, r), S)
    ensures Closed(a, S * NonDead(a))
  {
    hide WellFormed, LiveRefs, StrongHolds, EphemeronEntry, Swept, NonDead;
    LiveIsClosed(a);
    var b, N := Swept(a, l, m, r), NonDead(a);
    forall x, v | x in S * N && x in a.heap && StrongHolds(a.heap, a.heap[x], a.cells, v)
      ensures In(S * N, v)
    {
      SweptClosedAt(a, l, m, r, S, x);
      assert In(N, v);
      if v.Ref? && v.id in a.heap {
        SweptClosedAt(a, l, m, r, S, v.id);
      }
      StrongKept(a, b, x, v);
      assert In(S, v);
    }
    forall x, e | x in S * N && x in a.heap && EphemeronEntry(a.heap[x], e) && In(S * N, e.key)
      ensures In(S * N, e.val)
    {
      SweptClosedAt(a, l, m, r, S, x);
      assert In(N, e.val);
    }
    SweptRoots(a, l, m, r);
  }

  lemma SweptRoots(a: State, l: seq<Id>, m: seq<Id>, r: seq<Id>)
    ensures var b := Swept(a, l, m, r);
      b.main == a.main && b.running == a.running && b.fixedgc == a.fixedgc && b.registry == a.registry && b.mt == a.mt && b.cells == a.cells
  {
  }

  lemma SweptClosedAt(a: State, l: seq<Id>, m: seq<Id>, r: seq<Id>, S: set<Id>, x: Id)
    requires x in NonDead(a) && x in a.heap
    ensures var b := Swept(a, l, m, r); x in b.heap && b.heap[x] == a.heap[x] && b.cells == a.cells
  {
  }

  lemma StrongKept(a: State, b: State, x: Id, v: Val)
    requires x in b.heap && x in a.heap && b.heap[x] == a.heap[x] && b.cells == a.cells
    requires StrongHolds(a.heap, a.heap[x], a.cells, v)
    requires v.Ref? && v.id in a.heap ==> v.id in b.heap && b.heap[v.id] == a.heap[v.id]
    ensures StrongHolds(b.heap, b.heap[x], b.cells, v)
  {
  }

  /** Sweeping keeps exactness: if exactly the reachable objects are alive, they still are. */
  lemma SweptReach(a: State, l: seq<Id>, m: seq<Id>, r: seq<Id>)
    requires WellFormed(a) && LiveRefs(a)
    requires NoGarbage(a)
    ensures NoGarbage(Swept(a, l, m, r))
  {
    SweptNonDead(a, l, m, r);
    forall S: set<Id> | Closed(Swept(a, l, m, r), S)
      ensures NonDead(a) <= S
    {
      SweptClosed(a, l, m, r, S);
    }
  }

  // ---------- sweeping one element at a time ----------

  lemma SweptFirst(a: State, m: seq<Id>)
    requires |m| <= |a.allgc| && m == a.allgc[0..|m|]
    ensures m == a.allgc[..|m|]
    ensures a.allgc[..0] == [] && [] + Survivors(a, m) == Survivors(a, m)
  {
  }

  /** While nothing has survived, sweeping can start again from the head of the list. */
  lemma SweptAgain(a: State, m: seq<Id>)
    requires WellFormed(a) && |m| <= |a.allgc| && m == a.allgc[..|m|] && Survivors(a, m) == [] && a.allgc[|m|..] != []
    ensures WellFormed(Swept(a, [], m, a.allgc[|m|..]))
    ensures Swept(a, [], m, a.allgc[|m|..]).allgc == a.allgc[|m|..]
  {
    assert a.allgc == [] + m + a.allgc[|m|..];
    SweptWellFormed(a, [], m, a.allgc[|m|..]);
    assert [] + [] + a.allgc[|m|..] == a.allgc[|m|..];
  }

  /** The list cut at `|m|`, before and after one more element. */
  lemma SweptCut(q: seq<Id>, n: nat, x: Id)
    requires n < |q| && x == q[n]
    ensures q[n..] == [x] + q[n + 1..] && q[n..][1..] == q[n + 1..] && q[n..][0..1] == [x]
    ensures q[..n] + [x] == q[..n + 1]
    ensures q == [] + q[..n] + ([x] + q[n + 1..])
  {
  }

  lemma SweptJoin(a: State, m: seq<Id>, x: Id, r: seq<Id>)
    requires WellFormed(a) && a.allgc == [] + m + ([x] + r) && Survivors(a, m) == []
    ensures Swept(Swept(a, [], m, [x] + r), [], [x], r) == Swept(a, [], m + [x], r)
    ensures Survivors(Swept(a, [], m, [x] + r), [x]) == Survivors(a, m + [x])
  {
    hide WellFormed;
    SweptFind(a, [], m, x, r);
    SurvivorsNext(a, m, x);
    var b := Swept(a, [], m, [x] + r);
    assert Dead(b, x) == Dead(a, x);
    SurvivorsNext(b, [], x);
    assert [] + [x] == [x] && Survivors(b, []) == [];
    SweptTwice(a, b, m, x, r);
  }

  lemma SweptTwice(a: State, b: State, m: seq<Id>, x: Id, r: seq<Id>)
    requires b == Swept(a, [], m, [x] + r) && Survivors(a, m) == [] && x !in m && Dead(b, x) == Dead(a, x)
    requires Survivors(b, [x]) == Survivors(a, m + [x])
    ensures Swept(b, [], [x], r) == Swept(a, [], m + [x], r)
  {
    assert forall y :: y in m + [x] <==> y in m || y == x;
    assert forall y :: y in m && y in a.color ==> Dead(a, y);
    assert SweptHeap(b, [x]) == SweptHeap(a, m + [x]);
    assert SweptColor(b, [x]) == SweptColor(a, m + [x]);
  }
}
