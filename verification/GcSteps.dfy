/** What each kind of collector step keeps: the invariant, the program's view of the heap, and
    exactness. */
module GcSteps {
  import opened GcHeap
  import opened GcMarking
  import opened GcTraversal
  import opened GcAccounting
  import opened GcAtomic
  import opened GcSweep
  import opened Wrappers

  // ---------- the program's view ----------

  /** `o'` is `o`, except that a table may have lost entries whose keys the program cannot reach. */
  ghost predicate Pruned(a: State, o: Obj, o': Obj) {
    if o.Table? then
      && o'.Table? && o' == o.(entries := o'.entries)
      && |o'.entries| == |o.entries|
      && (forall i :: 0 <= i < |o.entries| ==> o'.entries[i] == o.entries[i] || Lost(a, o.entries[i], o'.entries[i]))
    else o' == o
  }

  ghost predicate Lost(a: State, e: Entry, e': Entry) {
    e.key.Ref? && !Reachable(a, e.key.id) && e' == Entry(e.key, Nil)
  }

  /** Nothing the program can reach has gone or changed, except for weak entries whose keys it
      cannot reach. */
  ghost predicate Preserves(a: State, b: State) {
    && b.cells == a.cells && b.fixedgc == a.fixedgc && b.main == a.main && b.running == a.running
    && b.registry == a.registry && b.mt == a.mt
    && (forall x :: Reachable(a, x) ==> Reachable(b, x))
    && (forall x :: Reachable(a, x) && x in a.heap ==> x in b.heap && Pruned(a, a.heap[x], b.heap[x]))
  }

  lemma PrunedTrans(a: State, b: State, o: Obj, o1: Obj, o2: Obj)
    requires Pruned(a, o, o1) && Pruned(b, o1, o2)
    requires forall x :: Reachable(a, x) ==> Reachable(b, x)
    ensures Pruned(a, o, o2)
  {
    hide Reachable;
    if o.Table? {
      forall i | 0 <= i < |o.entries|
        ensures o2.entries[i] == o.entries[i] || Lost(a, o.entries[i], o2.entries[i])
      {
        assert o1.entries[i] == o.entries[i] || Lost(a, o.entries[i], o1.entries[i]);
        assert o2.entries[i] == o1.entries[i] || Lost(b, o1.entries[i], o2.entries[i]);
      }
    }
  }

  lemma PreservesTrans(a: State, b: State, c: State)
    requires Preserves(a, b) && Preserves(b, c)
    ensures Preserves(a, c)
  {
    hide Reachable, Pruned;
    forall x | Reachable(a, x) && x in a.heap
      ensures x in c.heap && Pruned(a, a.heap[x], c.heap[x])
    {
      PrunedTrans(a, b, a.heap[x], b.heap[x], c.heap[x]);
    }
  }

  lemma PrunedRefl(a: State, o: Obj)
    ensures Pruned(a, o, o)
  {
  }

  ghost predicate SameHeap(a: State, b: State) {
    b.heap == a.heap && b.cells == a.cells && b.fixedgc == a.fixedgc && b.main == a.main && b.running == a.running
    && b.registry == a.registry && b.mt == a.mt
  }

  lemma SameHeapReach(a: State, b: State)
    requires SameHeap(a, b)
    ensures forall x :: Reachable(a, x) <==> Reachable(b, x)
    ensures Preserves(a, b)
  {
    forall x
      ensures Reachable(a, x) <==> Reachable(b, x)
    {
      forall S: set<Id>
        ensures Closed(a, S) <==> Closed(b, S)
      {
        SameClosed(a, b, S);
      }
      hide Closed;
    }
    forall o
      ensures Pruned(a, o, o)
    {
      PrunedRefl(a, o);
    }
    hide Reachable, Pruned, Closed;
  }

  // ---------- exactness ----------

  /** What the collector regards as alive is reachable: no floating garbage. */
  ghost predicate Exact(s: State) {
    forall S: set<Id> :: Closed(s, S) ==> Kept(s) <= S
  }

  ghost function Kept(s: State): set<Id> {
    if KeepInvariant(s) then Marked(s) else NonDead(s)
  }

  lemma SameHeapExact(a: State, b: State)
    requires SameHeap(a, b) && Exact(a) && Kept(b) <= Kept(a)
    ensures Exact(b)
  {
    hide Closed, Kept;
    forall S: set<Id> | Closed(b, S)
      ensures Kept(b) <= S
    {
      SameClosed(a, b, S);
    }
  }

  lemma ProgressExact(a: State, b: State)
    requires KeepInvariant(a) && KeepInvariant(b) && Exact(a) && Progress(a, b.(phase := a.phase))
    ensures Exact(b)
  {
    hide Closed;
    var b' := b.(phase := a.phase);
    assert Marked(b') == Marked(b);
    forall S: set<Id> | Closed(b, S)
      ensures Kept(b) <= S
    {
      SameClosed(a, b, S);
    }
  }

  // ---------- between the invariants ----------

  lemma TriColourMarkInv(s: State)
    requires WellFormed(s) && LiveRefs(s) && TriColour(s)
    ensures MarkInv(s, s.grayagain) && Allocated(s)
    ensures RootsAllocated(s) && Seen(s, Ref(s.main))
  {
    forall x, v | x in s.heap && Holds(s.heap[x], s.cells, v) && v.Ref?
      ensures v.id in s.heap
    {
      assert Live(s, v);
    }
    assert Live(s, s.registry) && Live(s, Ref(s.running));
    forall v | v in s.mt && v.Ref?
      ensures v.id in s.heap
    {
      assert Live(s, v);
    }
    hide Holds, GrayList;
  }

  lemma MarkInvLive(s: State, pend: seq<Id>)
    requires MarkInv(s, pend) && RootsAllocated(s)
    ensures WellFormed(s) && LiveRefs(s)
  {
    hide Holds, GrayList;
    forall x, v | x in s.heap && !Dead(s, x) && Holds(s.heap[x], s.cells, v)
      ensures Live(s, v)
    {
    }
    forall v | v in s.mt
      ensures Live(s, v)
    {
    }
  }

  /** Back to the tri-colour invariant after a propagation step. */
  lemma PropagatedTriColour(a: State, b: State)
    requires WellFormed(a) && LiveRefs(a) && TriColour(a) && a.phase.Propagate?
    requires Propagated(a, b, [])
    ensures WellFormed(b) && LiveRefs(b) && TriColour(b)
    ensures SameHeap(a, b) && b.allgc == a.allgc && b.sweepgc == a.sweepgc && b.cur == a.cur && b.phase == a.phase
  {
    hide MarkInv, Allocated, RootsAllocated;
    TriColourMarkInv(a);
    RootsKept(a, b);
    MarkInvLive(b, b.grayagain);
    ProgressWhites(a, b);
    MarkInvTriColour(b);
  }

  lemma RootsKept(a: State, b: State)
    requires RootsAllocated(a) && Progress(a, b)
    ensures RootsAllocated(b)
  {
  }

  lemma MarkInvTriColour(s: State)
    requires MarkInv(s, s.grayagain) && s.phase.Propagate? && s.ephemeron == [] && s.allweak == []
    requires Seen(s, Ref(s.main))
    ensures TriColour(s)
  {
  }

  // ---------- restart ----------

  /** The gray lists are emptied before the roots are marked. */
  lemma RestartBase(a: State, s: State)
    requires Inv(a) && a.phase.Pause?
    requires s == a.(gray := [], grayagain := [], ephemeron := [], allweak := [])
    ensures MarkInv(s, []) && Allocated(s) && RootsAllocated(s) && IsWhite(s, s.main)
    ensures forall x :: x in Marked(s) ==> x in s.fixedgc
  {
    hide Holds;
    RestartColours(a);
    RestartAllocated(a, s);
    assert a.main in [a.main];
  }

  lemma RestartColours(a: State)
    requires Inv(a) && a.phase.Pause?
    ensures forall x :: x in a.color ==> if x in a.fixedgc then a.color[x].Gray? else a.color[x] == White(a.cur)
  {
    forall x | x in a.color
      ensures if x in a.fixedgc then a.color[x].Gray? else a.color[x] == White(a.cur)
    {
      assert x in a.heap;
      assert x == a.main ==> x in [a.main];
    }
  }

  lemma RestartAllocated(a: State, s: State)
    requires WellFormed(a) && LiveRefs(a) && (forall x :: x in a.color ==> !Dead(a, x))
    requires s == a.(gray := [], grayagain := [], ephemeron := [], allweak := [])
    ensures Allocated(s) && RootsAllocated(s)
  {
    hide Holds;
    forall x, v | x in s.heap && Holds(s.heap[x], s.cells, v) && v.Ref?
      ensures v.id in s.heap
    {
      assert Live(a, v);
    }
    assert Live(a, Ref(a.running)) && Live(a, a.registry);
    forall v | v in s.mt && v.Ref?
      ensures v.id in s.heap
    {
      assert Live(a, v);
    }
  }

  lemma RestartDone(a: State, s: State, t: State, b: State, roots: seq<Val>)
    requires Inv(a) && a.phase.Pause?
    requires s == a.(gray := [], grayagain := [], ephemeron := [], allweak := [])
    requires Marks(s, t, Nil) && Seen(t, Ref(s.main)) && Forced(s, t, roots)
    requires forall v :: v in roots ==> IsRoot(s, v)
    requires b == t.(phase := Propagate)
    ensures Inv(b) && Exact(b) && Preserves(a, b)
  {
    hide MarkInv, Marks, Exact, Preserves, RootsAllocated, Allocated, TriColour, LiveRefs, WellFormed;
    RestartBase(a, s);
    MarksKeepInv(s, t, []);
    RootsKeptMarks(s, t);
    RestartGray(s, t);
    RestartTri(t, b);
    RestartExact(s, t, b, roots);
    assert SameHeap(a, b);
    SameHeapReach(a, b);
  }

  lemma RootsKeptMarks(s: State, t: State)
    requires RootsAllocated(s) && Marks(s, t, Nil)
    ensures RootsAllocated(t) && SameHeap(s, t) && t.grayagain == s.grayagain && t.ephemeron == s.ephemeron && t.allweak == s.allweak
    ensures t.phase == s.phase
  {
  }

  lemma RestartGray(s: State, t: State)
    requires MarkInv(s, []) && s.gray == [] && Marks(s, t, Nil) && IsWhite(s, s.main) && Seen(t, Ref(s.main))
    requires forall x :: x in Marked(s) ==> x in s.fixedgc
    ensures t.gray != []
    ensures forall x :: x in t.color && t.color[x].Gray? && x !in t.fixedgc ==> x in t.gray
  {
    var x := s.main;
    assert t.color[x].Black? ==> BlackDone(t, s.heap[x], Nil);
    assert NewGray(s, t, x);
    forall y | y in t.color && t.color[y].Gray? && y !in t.fixedgc
      ensures y in t.gray
    {
      assert y !in Marked(s);
      assert NewGray(s, t, y);
    }
  }

  lemma RestartTri(t: State, b: State)
    requires MarkInv(t, []) && RootsAllocated(t) && b == t.(phase := Propagate) && t.gray != [] && Seen(t, Ref(t.main))
    requires t.grayagain == [] && t.ephemeron == [] && t.allweak == []
    requires forall x :: x in t.color && t.color[x].Gray? && x !in t.fixedgc ==> x in t.gray
    ensures Inv(b)
  {
    hide Settled, Allocated;
    MarkInvLive(t, []);
    PhaseKeeps(t, b);
    GrayListKept(t, b, b.gray);
  }

  /** Well-formedness and liveness of references do not depend on the phase or the sweep pointer. */
  lemma PhaseKeeps(a: State, b: State)
    requires b == a.(phase := b.phase, sweepgc := b.sweepgc)
    ensures WellFormed(a) ==> WellFormed(b)
    ensures LiveRefs(a) ==> LiveRefs(b)
    ensures BlackInvariant(a) ==> BlackInvariant(b)
    ensures NoneDead(a) ==> NoneDead(b)
    ensures NonDead(a) == NonDead(b) && Marked(a) == Marked(b)
  {
    hide Holds;
    assert forall v :: Live(a, v) ==> Live(b, v);
    assert forall v :: Seen(a, v) ==> Seen(b, v);
  }

  lemma RestartExact(s: State, t: State, b: State, roots: seq<Val>)
    requires Marks(s, t, Nil) && Forced(s, t, roots) && b == t.(phase := Propagate)
    requires forall v :: v in roots ==> IsRoot(s, v)
    requires forall x :: x in Marked(s) ==> x in s.fixedgc
    ensures Exact(b)
  {
    assert Kept(b) == Marked(t);
    forall S: set<Id> | Closed(b, S)
      ensures Kept(b) <= S
    {
      SameClosed(s, b, S);
      assert RootsIn(s, S);
      assert Marked(s) <= S;
    }
    hide Marks;
  }

  // ---------- the atomic step ----------

  lemma CleanedStrong(a: State, b: State, M: set<Id>, x: Id, v: Val)
    requires AtomicDone(a, b) && M == NonDead(b) && x in M && x in a.heap
    requires StrongHolds(a.heap, a.heap[x], a.cells, v)
    requires !IsEphemeron(a.heap[x]) ==> In(M, v)
    requires Closed(a, M)
    ensures StrongHolds(b.heap, b.heap[x], b.cells, v)
  {
    hide Closed, Cleaned, IsStr;
    var o, o' := a.heap[x], b.heap[x];
    CleanedAt(a, b, x);
    CleanedParts(a, M, o, o');
    if o.Table? && v != o.meta && v !in o.arr {
      var e :| e in o.entries && e.val != Nil && (v == e.key || v == e.val) && (IsEphemeron(o) ==> v == e.key && IsStr(a.heap, v));
      if IsEphemeron(o) {
        KindKept(a, b, M, v);
        KeyStays(a, M, e);
      } else {
        StrongTableClean(a, M, x, e);
      }
      EntryStays(a, M, o, o', e);
    }
  }

  lemma CleanedAt(a: State, b: State, x: Id)
    requires AtomicDone(a, b) && x in NonDead(b) && x in a.heap
    ensures Cleaned(a.heap, NonDead(b), a.heap[x], b.heap[x]) && b.cells == a.cells
  {
  }

  lemma KeyStays(a: State, M: set<Id>, e: Entry)
    requires IsStr(a.heap, e.key)
    ensures CleanEntry(a.heap, M, e) == e
  {
  }

  lemma EntryStays(a: State, M: set<Id>, o: Obj, o': Obj, e: Entry)
    requires Cleaned(a.heap, M, o, o') && o.Table? && o'.Table? && e in o.entries && CleanEntry(a.heap, M, e) == e
    ensures e in o'.entries
  {
    var i :| 0 <= i < |o.entries| && o.entries[i] == e;
    assert o'.entries[i] == CleanEntry(a.heap, M, o.entries[i]);
  }

  lemma StrongTableClean(a: State, M: set<Id>, x: Id, e: Entry)
    requires Closed(a, M) && x in M && x in a.heap && a.heap[x].Table? && !IsEphemeron(a.heap[x])
    requires e in a.heap[x].entries && e.val != Nil
    ensures CleanEntry(a.heap, M, e) == e
  {
    assert Holds(a.heap[x], a.cells, e.key);
    assert StrongHolds(a.heap, a.heap[x], a.cells, e.key);
    assert In(M, e.key);
  }

  lemma KindKept(a: State, b: State, M: set<Id>, v: Val)
    requires AtomicDone(a, b) && M == NonDead(b) && IsStr(a.heap, v)
    ensures IsStr(b.heap, v)
  {
    if v.id in M {
      assert Cleaned(a.heap, M, a.heap[v.id], b.heap[v.id]);
    }
  }

  /** A set closed after the atomic step is closed before it, within the objects kept alive. */
  lemma AtomicClosed(a: State, b: State, S: set<Id>)
    requires AtomicDone(a, b) && Closed(b, S) && WellFormed(a)
    ensures Closed(a, S * NonDead(b))
  {
    hide StrongHolds, Cleaned, WellFormed, LiveRefs, Holds;
    var M := NonDead(b);
    assert Closed(a, M);
    forall x, v | x in S * M && x in a.heap && StrongHolds(a.heap, a.heap[x], a.cells, v)
      ensures In(S * M, v)
    {
      assert In(M, v);
      CleanedStrong(a, b, M, x, v);
      assert In(S, v);
    }
    forall x, e | x in S * M && x in a.heap && EphemeronEntry(a.heap[x], e) && In(S * M, e.key)
      ensures In(S * M, e.val)
    {
      assert In(M, e.val);
      EntryKept(a, b, x, e);
      assert In(S, e.val);
    }
    assert RootsIn(a, S * M);
  }

  lemma EntryKept(a: State, b: State, x: Id, e: Entry)
    requires AtomicDone(a, b) && x in NonDead(b) && x in a.heap && EphemeronEntry(a.heap[x], e) && In(NonDead(b), e.key)
    ensures x in b.heap && EphemeronEntry(b.heap[x], e)
  {
    var M := NonDead(b);
    assert Cleaned(a.heap, M, a.heap[x], b.heap[x]);
    var i :| 0 <= i < |a.heap[x].entries| && a.heap[x].entries[i] == e;
    assert b.heap[x].entries[i] == CleanEntry(a.heap, M, e) == e;
    assert b.heap[x].entries[i] in b.heap[x].entries;
  }

  lemma AtomicReach(a: State, b: State)
    requires AtomicDone(a, b) && WellFormed(a)
    ensures Preserves(a, b)
  {
    hide Closed, Cleaned, Pruned, WellFormed, LiveRefs;
    var M := NonDead(b);
    forall x | Reachable(a, x)
      ensures Reachable(b, x) && x in M
    {
      assert Closed(a, M);
      forall S: set<Id> | Closed(b, S)
        ensures x in S
      {
        AtomicClosed(a, b, S);
      }
    }
    forall x | Reachable(a, x) && x in a.heap
      ensures x in b.heap && Pruned(a, a.heap[x], b.heap[x])
    {
      assert x in M;
      assert Cleaned(a.heap, M, a.heap[x], b.heap[x]);
      CleanedPruned(a, M, a.heap[x], b.heap[x]);
    }
  }

  lemma CleanedPruned(a: State, M: set<Id>, o: Obj, o': Obj)
    requires Cleaned(a.heap, M, o, o') && (forall x :: Reachable(a, x) ==> x in M)
    ensures Pruned(a, o, o')
  {
    hide Reachable;
    if o.Table? {
      forall i | 0 <= i < |o.entries|
        ensures o'.entries[i] == o.entries[i] || Lost(a, o.entries[i], o'.entries[i])
      {
        assert o'.entries[i] == CleanEntry(a.heap, M, o.entries[i]);
      }
    }
  }

  lemma AtomicExact(a: State, b: State)
    requires AtomicDone(a, b) && WellFormed(a) && KeepInvariant(a) && Exact(a)
    ensures NoGarbage(b)
  {
    hide Closed, Cleaned, WellFormed, LiveRefs;
    forall S: set<Id> | Closed(b, S)
      ensures NonDead(b) <= S
    {
      AtomicClosed(a, b, S);
      assert Closed(a, S * NonDead(b));
    }
  }

  // ---------- the sweep ----------

  lemma SweptPreserves(a: State, l: seq<Id>, m: seq<Id>, r: seq<Id>)
    requires WellFormed(a) && LiveRefs(a)
    ensures Preserves(a, Swept(a, l, m, r))
  {
    hide Closed, Pruned, LiveRefs;
    var b := Swept(a, l, m, r);
    LiveIsClosed(a);
    forall x | Reachable(a, x)
      ensures Reachable(b, x) && x in NonDead(a)
    {
      assert Closed(a, NonDead(a));
      forall S: set<Id> | Closed(b, S)
        ensures x in S
      {
        SweptClosed(a, l, m, r, S);
      }
    }
    forall x | Reachable(a, x) && x in a.heap
      ensures x in b.heap && Pruned(a, a.heap[x], b.heap[x])
    {
      assert x in NonDead(a);
      PrunedRefl(a, a.heap[x]);
    }
  }

  lemma SweptExact(a: State, l: seq<Id>, m: seq<Id>, r: seq<Id>, b: State)
    requires WellFormed(a) && LiveRefs(a) && !KeepInvariant(a) && Exact(a) && !KeepInvariant(b)
    requires b == Swept(a, l, m, r).(phase := b.phase, sweepgc := b.sweepgc)
    ensures Exact(b)
  {
    hide Closed, LiveRefs, WellFormed;
    forall S: set<Id> | Closed(a, S)
      ensures NonDead(a) <= S
    {
      assert Kept(a) <= S;
    }
    SweptReach(a, l, m, r);
    var b' := Swept(a, l, m, r);
    assert NonDead(b) == NonDead(b');
    forall S: set<Id> | Closed(b, S)
      ensures Kept(b) <= S
    {
      SameClosed(b', b, S);
    }
  }

  lemma PhasePreserves(a: State, b: State, c: State)
    requires Preserves(a, b) && SameHeap(b, c)
    ensures Preserves(a, c)
  {
    hide Preserves;
    SameHeapReach(b, c);
    PreservesTrans(a, b, c);
  }

  /** What a sweep step leaves: the part of `allgc` before the new position is white. */
  ghost predicate SweepDone(b: State, pos: Option<nat>) {
    && WellFormed(b) && LiveRefs(b)
    && match pos
       case Some(k) => k <= |b.allgc| && AllWhite(b, b.allgc[..k])
       case None => AllWhite(b, b.allgc)
  }

  lemma SweepListDone(a: State, l: seq<Id>, m: seq<Id>, r: seq<Id>, pos: Option<nat>)
    requires WellFormed(a) && LiveRefs(a) && AllWhite(a, l) && a.allgc == l + m + r
    requires pos == if r == [] then None else Some(|l + Survivors(a, m)|)
    ensures SweepDone(Swept(a, l, m, r), pos)
  {
    hide LiveRefs, Survivors;
    SweptKeeps(a, l, m, r);
    SweptWhite(a, l, m, r);
    if r == [] {
      assert Swept(a, l, m, r).allgc == l + Survivors(a, m);
    }
  }

  // ---------- what a step does ----------

  /** `restartcollection`. */
  ghost predicate Restarts(a: State, b: State) {
    var s, t := a.(gray := [], grayagain := [], ephemeron := [], allweak := []), b.(phase := a.phase);
    && b.phase == Propagate
    && Marks(s, t, Nil) && Forced(s, t, [Ref(s.main), s.registry] + s.mt)
    && Seen(t, Ref(s.main)) && Seen(t, s.registry) && SeenAll(t, s.mt)
  }

  /** `entersweep`: the first `n` objects are swept, up to the first that stays. */
  ghost predicate EntersAt(a: State, b: State, n: nat)
    requires n <= |a.allgc|
  {
    var s, m, r := a.(phase := SweepAll), a.allgc[..n], a.allgc[n..];
    b == Swept(s, [], m, r).(sweepgc := if r == [] then None else Some(|Survivors(s, m)|))
  }

  ghost predicate Enters(a: State, b: State) {
    exists n: nat :: n <= |a.allgc| && EntersAt(a, b, n)
  }

  /** `sweepstep` from position `k` over the next `n` objects; at the end of the list it enters the next state. */
  ghost predicate SweepsAt(a: State, b: State, k: nat, n: nat)
    requires k + n <= |a.allgc|
  {
    var l, m, r := a.allgc[..k], a.allgc[k..k + n], a.allgc[k + n..];
    if r == [] then b == Swept(a, l, m, r).(phase := SweepFinObj, sweepgc := Some(0))
    else n > 0 && b == Swept(a, l, m, r).(sweepgc := Some(|l + Survivors(a, m)|))
  }

  ghost predicate Sweeps(a: State, b: State) {
    match a.sweepgc
    case Some(k) => exists n: nat :: k + n <= |a.allgc| && SweepsAt(a, b, k, n)
    case None => b == a.(phase := SweepFinObj, sweepgc := Some(0))
  }

  /** `singlestep`, as a relation: what each state of the collector does, and nothing about what it keeps. */
  ghost predicate Collects(a: State, b: State) {
    match a.phase
    case Pause => Restarts(a, b)
    case Propagate => Visits(a, b.(phase := Propagate)) && b.phase == if b.gray == [] then AtomicReady else Propagate
    case AtomicReady => exists d :: AtomicDone(a, d) && Enters(d, b)
    case InsideAtomic => false
    case SweepAll => Sweeps(a, b)
    case SweepFinObj => b == a.(phase := SweepToBeFnz)
    case SweepToBeFnz => b == a.(phase := SweepEnd, sweepgc := None)
    case SweepEnd => b == a.(color := a.color[a.main := White(a.cur)], phase := CallFin)
    case CallFin => b == a.(phase := Pause)
  }

  // ---------- entering the sweep ----------

  lemma EntersKeeps(a: State, b: State)
    requires WellFormed(a) && LiveRefs(a) && Enters(a, b)
    ensures Inv(b) && b.phase == SweepAll && b.cur == a.cur && Preserves(a, b) && NonDead(b) == NonDead(a)
    ensures NoGarbage(a) ==> Exact(b)
  {
    hide WellFormed, LiveRefs, Preserves, NonDead, Exact, Inv, NoGarbage, Survivors;
    var n: nat :| n <= |a.allgc| && EntersAt(a, b, n);
    var m, r := a.allgc[..n], a.allgc[n..];
    assert a.allgc == m + r;
    EnteredSweep(a, a.(phase := SweepAll), b, m, r);
  }

  lemma EnteredSweep(a: State, b: State, c: State, m: seq<Id>, r: seq<Id>)
    requires WellFormed(a) && LiveRefs(a) && b == a.(phase := SweepAll) && a.allgc == m + r
    requires c == Swept(b, [], m, r).(sweepgc := c.sweepgc)
    requires c.sweepgc == if r == [] then None else Some(|Survivors(b, m)|)
    ensures Inv(c) && Preserves(a, c) && NonDead(c) == NonDead(a)
    ensures NoGarbage(a) ==> Exact(c)
  {
    hide Swept, Preserves, Closed, WellFormed, LiveRefs, Survivors, Inv, Exact;
    assert a.allgc == [] + m + r;
    assert [] + Survivors(b, m) == Survivors(b, m);
    PhaseKeeps(a, b);
    EnteredInv(b, c, m, r);
    EnteredPreserves(a, b, c, m, r);
    if NoGarbage(a) {
      EnteredExact(a, b, c, m, r);
    }
  }

  lemma EnteredInv(b: State, c: State, m: seq<Id>, r: seq<Id>)
    requires WellFormed(b) && LiveRefs(b) && b.phase.SweepAll? && b.allgc == [] + m + r
    requires c == Swept(b, [], m, r).(sweepgc := c.sweepgc)
    requires c.sweepgc == if r == [] then None else Some(|[] + Survivors(b, m)|)
    ensures Inv(c) && NonDead(c) == NonDead(b)
  {
    hide WellFormed, LiveRefs, Survivors;
    var d := Swept(b, [], m, r);
    SweepListDone(b, [], m, r, c.sweepgc);
    SweptKeeps(b, [], m, r);
    PhaseKeeps(d, c);
    hide Swept;
  }

  lemma EnteredPreserves(a: State, b: State, c: State, m: seq<Id>, r: seq<Id>)
    requires SameHeap(a, b) && WellFormed(b) && LiveRefs(b)
    requires c == Swept(b, [], m, r).(sweepgc := c.sweepgc)
    ensures Preserves(a, c)
  {
    hide Swept, Preserves, WellFormed, LiveRefs;
    var d := Swept(b, [], m, r);
    SameHeapReach(a, b);
    SweptPreserves(b, [], m, r);
    PreservesTrans(a, b, d);
    PhasePreserves(a, d, c);
  }

  lemma EnteredExact(a: State, b: State, c: State, m: seq<Id>, r: seq<Id>)
    requires SameHeap(a, b) && WellFormed(b) && LiveRefs(b) && NonDead(a) == NonDead(b) && b.phase.SweepAll?
    requires c == Swept(b, [], m, r).(sweepgc := c.sweepgc)
    requires NoGarbage(a)
    ensures Exact(c)
  {
    hide Closed, WellFormed, LiveRefs;
    forall S: set<Id> | Closed(b, S)
      ensures Kept(b) <= S
    {
      SameClosed(a, b, S);
    }
    assert c.phase == b.phase;
    SweptExact(b, [], m, r, c);
  }

  // ---------- single steps ----------

  function NextPhase(p: Phase): Phase {
    match p
    case Pause => Propagate
    case Propagate => AtomicReady
    case AtomicReady => SweepAll
    case InsideAtomic => SweepAll
    case SweepAll => SweepFinObj
    case SweepFinObj => SweepToBeFnz
    case SweepToBeFnz => SweepEnd
    case SweepEnd => CallFin
    case CallFin => Pause
  }

  /** How many objects the sweep pointer still has before it. */
  function Remaining(s: State): int {
    match s.sweepgc
    case Some(k) => 1 + |s.allgc| - k
    case None => 0
  }

  ghost predicate RootsSeen'(s: State) {
    Seen(s, Ref(s.main)) && Seen(s, s.registry) && SeenAll(s, s.mt)
  }

  /** The phase-by-phase effect of one step. */
  ghost predicate StepTo(a: State, b: State) {
    match a.phase
    case Pause => b.phase == Propagate && RootsSeen'(b) && SameHeap(a, b) && b.cur == a.cur
    case Propagate =>
      && SameHeap(a, b) && b.cur == a.cur
      && a.gray != [] && StrongSeen(b, a.gray[0])
      && Shrinks(a, b)
      && b.phase == if b.gray == [] then AtomicReady else Propagate
    case AtomicReady =>
      && b.phase == SweepAll && b.cur == !a.cur
      && Closed(a, NonDead(b))
      && (forall S: set<Id> :: Closed(a, S) && Marked(a) <= S ==> NonDead(b) <= S)
    case SweepAll =>
      && b.cur == a.cur && NonDead(b) == NonDead(a)
      && if b.phase == SweepAll then Remaining(b) < Remaining(a) && b.sweepgc.Some? else b.phase == SweepFinObj && AllWhite(b, b.allgc)
    case SweepEnd => b.phase == CallFin && SameHeap(a, b) && AllWhite(b, [b.main]) && b.allgc == a.allgc
    case InsideAtomic => false
    case _ => b.phase == NextPhase(a.phase) && SameHeap(a, b) && b.color == a.color && b.allgc == a.allgc
  }

  /** What every step guarantees. */
  ghost predicate Stepped(a: State, b: State) {
    && Inv(b)
    && Preserves(a, b)
    && (Exact(a) || a.phase.Pause? ==> Exact(b))
    && StepTo(a, b)
  }

  lemma PropagateStepped(a: State, t: State, b: State)
    requires Inv(a) && a.phase.Propagate? && Propagated(a, t, [])
    requires b == t.(phase := if t.gray == [] then AtomicReady else Propagate)
    ensures Stepped(a, b)
  {
    hide Preserves, Exact, Propagated, TriColour, LiveRefs, WellFormed;
    PropagatedTriColour(a, t);
    PropagatedInv(t, b);
    SameHeapReach(a, b);
    assert StepTo(a, b) by {
      PropagatedTo(a, t, b);
    }
    if Exact(a) {
      PropagatedExact(a, t, b);
    }
  }

  lemma PropagatedExact(a: State, t: State, b: State)
    requires a.phase.Propagate? && Propagated(a, t, []) && Exact(a)
    requires b == t.(phase := if t.gray == [] then AtomicReady else Propagate)
    ensures Exact(b)
  {
    hide Exact, MarkInv, Shrinks, StrongSeen;
    assert b.(phase := a.phase) == t;
    ProgressExact(a, b);
  }

  lemma PropagatedInv(t: State, b: State)
    requires WellFormed(t) && LiveRefs(t) && TriColour(t) && t.phase.Propagate?
    requires b == t.(phase := if t.gray == [] then AtomicReady else Propagate)
    ensures Inv(b)
  {
    hide LiveRefs, WellFormed, BlackInvariant, GrayList;
    PhaseKeeps(t, b);
    GrayListKept(t, b, b.gray);
    GrayListKept(t, b, b.grayagain);
  }

  lemma PropagatedTo(a: State, t: State, b: State)
    requires a.phase.Propagate? && Propagated(a, t, [])
    requires b == t.(phase := if t.gray == [] then AtomicReady else Propagate)
    ensures StepTo(a, b)
  {
    hide StrongHolds, Forced, MarkInv;
    assert Whites(b) == Whites(t);
    forall v | StrongHolds(b.heap, b.heap[a.gray[0]], b.cells, v)
      ensures Seen(b, v)
    {
      assert Seen(t, v);
    }
  }

  lemma AtomicStepped(a: State, d: State, b: State)
    requires Inv(a) && a.phase.AtomicReady? && AtomicDone(a, d) && Enters(d, b)
    ensures Stepped(a, b)
  {
    hide Preserves, Exact, Inv, AtomicDone, Closed, WellFormed, LiveRefs, Allocated, Enters, NoGarbage, NonDead;
    AtomicBegin(a);
    AtomicAlive(a, d);
    EntersKeeps(d, b);
    AtomicReach(a, d);
    PreservesTrans(a, d, b);
    AtomicLeast(a, d);
    if Exact(a) {
      AtomicExact(a, d);
    }
  }

  lemma AtomicLeast(a: State, d: State)
    requires AtomicDone(a, d)
    ensures Closed(a, NonDead(d)) && d.cur == !a.cur
    ensures forall S: set<Id> :: Closed(a, S) && Marked(a) <= S ==> NonDead(d) <= S
  {
  }

  lemma AtomicBegin(a: State)
    requires Inv(a) && a.phase.AtomicReady?
    ensures WellFormed(a) && Allocated(a) && MarkInv(a, Pend(a, [])) && RootsAllocated(a) && Seen(a, Ref(a.main))
  {
    hide MarkInv, WellFormed, LiveRefs, TriColour, RootsAllocated, Seen, Allocated;
    TriColourMarkInv(a);
  }

  lemma AtomicEntry(a: State, p: State)
    requires Progress(a, p) && a.phase.AtomicReady? && RootsAllocated(a) && Seen(a, Ref(a.main)) && MarkInv(p, Pend(p, []))
    ensures p.phase.AtomicReady? && MarkInv(p, p.grayagain) && RootsAllocated(p) && Seen(p, Ref(p.main))
  {
    RootsKept(a, p);
    ProgressWhites(a, p);
  }

  lemma RestartMarks(s: State, t1: State, t2: State, t: State)
    requires Allocated(s) && Marks(s, t1, Nil) && Marks(t1, t2, Nil) && Marks(t2, t, Nil) && Allocated(t1) && Allocated(t2)
    requires Forced(s, t1, [Ref(s.main)]) && Forced(t1, t2, [s.registry]) && Forced(t2, t, s.mt)
    requires Seen(t1, Ref(s.main)) && Seen(t2, s.registry) && SeenAll(t, s.mt)
    ensures Marks(s, t, Nil) && Forced(s, t, [Ref(s.main), s.registry] + s.mt)
    ensures Seen(t, Ref(s.main)) && Seen(t, s.registry) && SeenAll(t, s.mt)
  {
    var vs := [Ref(s.main), s.registry] + s.mt;
    MarksTrans(s, t1, t2);
    MarksTrans(s, t2, t);
    MarksGrows(t1, t2, Nil);
    MarksGrows(t2, t, Nil);
    ForcedMore(s, t1, [Ref(s.main)], vs);
    ForcedMore(t1, t2, [s.registry], vs);
    ForcedMore(t2, t, s.mt, vs);
    ForcedTrans(s, t1, t2, vs);
    ForcedTrans(s, t2, t, vs);
    hide Marks, Forced, Allocated;
  }

  lemma ForcedMore(s: State, t: State, us: seq<Val>, vs: seq<Val>)
    requires Forced(s, t, us) && (forall v :: v in us ==> v in vs)
    ensures Forced(s, t, vs)
  {
    hide Closed;
    forall S: set<Id> | Closed(s, S) && Marked(s) <= S && (forall v :: v in vs ==> In(S, v))
      ensures Marked(t) <= S
    {
      assert forall v :: v in us ==> In(S, v);
    }
  }

  lemma RestartStepped(a: State, s: State, t: State, b: State)
    requires Inv(a) && a.phase.Pause?
    requires s == a.(gray := [], grayagain := [], ephemeron := [], allweak := [])
    requires Marks(s, t, Nil) && Forced(s, t, [Ref(s.main), s.registry] + s.mt)
    requires Seen(t, Ref(s.main)) && Seen(t, s.registry) && SeenAll(t, s.mt)
    requires b == t.(phase := Propagate)
    ensures Stepped(a, b)
  {
    hide Inv, Exact, Preserves, Forced, Marks, StepTo;
    RestartDone(a, s, t, b, [Ref(s.main), s.registry] + s.mt);
    RestartTo(a, s, t, b);
  }

  lemma RestartTo(a: State, s: State, t: State, b: State)
    requires a.phase.Pause? && s == a.(gray := [], grayagain := [], ephemeron := [], allweak := [])
    requires Marks(s, t, Nil)
    requires Seen(t, Ref(s.main)) && Seen(t, s.registry) && SeenAll(t, s.mt)
    requires b == t.(phase := Propagate)
    ensures StepTo(a, b)
  {
    assert t == s.(color := t.color, gray := t.gray);
    assert forall v :: Seen(t, v) ==> Seen(b, v);
    hide Marks;
  }

  lemma SweepParts(q: seq<Id>, k: nat, n: nat)
    requires k + n <= |q|
    ensures q == q[..k] + q[k..k + n] + q[k + n..]
    ensures |q[..k]| == k
  {
  }

  /** `SweepAll` either goes on at `pos` or is finished. */
  lemma SweepStepped(a: State, b: State, l: seq<Id>, m: seq<Id>, r: seq<Id>, pos: Option<nat>)
    requires Inv(a) && a.phase.SweepAll? && a.allgc == l + m + r && AllWhite(a, l)
    requires b == Swept(a, l, m, r).(phase := b.phase, sweepgc := b.sweepgc)
    requires pos == if r == [] then None else Some(|l + Survivors(a, m)|)
    requires if pos.Some? then b.phase.SweepAll? && b.sweepgc == pos && m != [] && a.sweepgc == Some(|l|) else b.phase.SweepFinObj?
    ensures Stepped(a, b)
  {
    hide Swept, Preserves, Exact, WellFormed, LiveRefs, Survivors, SweepDone, Holds;
    var d := Swept(a, l, m, r);
    SweepListDone(a, l, m, r, pos);
    SweepStepTo(a, b, l, m, r, pos);
    SweptPreserves(a, l, m, r);
    PhasePreserves(a, d, b);
    if Exact(a) {
      SweptExact(a, l, m, r, b);
    }
  }

  lemma SweepStepTo(a: State, b: State, l: seq<Id>, m: seq<Id>, r: seq<Id>, pos: Option<nat>)
    requires WellFormed(a) && LiveRefs(a) && a.phase.SweepAll? && a.allgc == l + m + r
    requires SweepDone(Swept(a, l, m, r), pos)
    requires b == Swept(a, l, m, r).(phase := b.phase, sweepgc := b.sweepgc)
    requires pos == if r == [] then None else Some(|l + Survivors(a, m)|)
    requires if pos.Some? then b.phase.SweepAll? && b.sweepgc == pos && m != [] && a.sweepgc == Some(|l|) else b.phase.SweepFinObj?
    ensures Inv(b) && StepTo(a, b)
  {
    hide Swept, WellFormed, LiveRefs, Survivors, Holds, NonDead, Closed, StrongSeen, Shrinks, SeenAll, TriColour;
    var d := Swept(a, l, m, r);
    SweptKeeps(a, l, m, r);
    SweptAlive(a, l, m, r, b);
    SweptRemaining(a, l, m, r);
    AllWhiteSame(d, b, pos);
  }

  lemma SweptAlive(a: State, l: seq<Id>, m: seq<Id>, r: seq<Id>, b: State)
    requires WellFormed(a) && LiveRefs(a) && a.allgc == l + m + r
    requires b == Swept(a, l, m, r).(phase := b.phase, sweepgc := b.sweepgc)
    ensures WellFormed(b) && LiveRefs(b) && NonDead(b) == NonDead(a) && b.cur == a.cur
  {
    hide Swept, WellFormed, LiveRefs, Survivors, NonDead;
    SweptKeeps(a, l, m, r);
    SweptRemaining(a, l, m, r);
    PhaseKeeps(Swept(a, l, m, r), b);
  }

  lemma AllWhiteSame(d: State, b: State, pos: Option<nat>)
    requires SweepDone(d, pos) && b == d.(phase := b.phase, sweepgc := b.sweepgc)
    ensures match pos
      case Some(k) => k <= |b.allgc| && AllWhite(b, b.allgc[..k])
      case None => AllWhite(b, b.allgc)
  {
  }

  lemma SweptRemaining(a: State, l: seq<Id>, m: seq<Id>, r: seq<Id>)
    requires a.allgc == l + m + r
    ensures |Swept(a, l, m, r).allgc| - |l + Survivors(a, m)| == |r|
    ensures |a.allgc| - |l| == |m| + |r|
    ensures Swept(a, l, m, r).cur == a.cur
  {
  }

  /** Steps that only change the state and the sweep pointer. */
  lemma PlainStepped(a: State, b: State)
    requires Inv(a) && (a.phase.SweepFinObj? || a.phase.SweepToBeFnz? || a.phase.CallFin?)
    requires b == a.(phase := NextPhase(a.phase), sweepgc := b.sweepgc)
    ensures Stepped(a, b)
  {
    hide Preserves, Exact, WellFormed, LiveRefs, Dead;
    PhaseKeeps(a, b);
    SameHeapReach(a, b);
    assert Kept(b) == Kept(a);
    if Exact(a) {
      SameHeapExact(a, b);
    }
  }

  lemma EndStepped(a: State, b: State)
    requires Inv(a) && a.phase.SweepEnd?
    requires b == a.(color := a.color[a.main := White(a.cur)], phase := CallFin)
    ensures Stepped(a, b)
  {
    hide Preserves, Exact;
    assert !Dead(a, a.main) && a.main in a.color;
    MainWhite(a, b);
    SameHeapReach(a, b);
    assert Kept(b) <= Kept(a);
    if Exact(a) {
      SameHeapExact(a, b);
    }
  }

  lemma MainWhite(a: State, b: State)
    requires WellFormed(a) && LiveRefs(a)
    requires b == a.(color := a.color[a.main := White(a.cur)], phase := CallFin)
    ensures WellFormed(b) && LiveRefs(b)
  {
    hide Holds;
    assert forall v :: Live(a, v) ==> Live(b, v);
    assert forall x :: Dead(b, x) ==> Dead(a, x);
  }

  lemma SweepsFrom(a: State, b: State, k: nat, m: seq<Id>, pos: Option<nat>)
    requires a.phase.SweepAll? && a.sweepgc == Some(k) && k + |m| <= |a.allgc| && m == a.allgc[k..k + |m|]
    requires var l, r := a.allgc[..k], a.allgc[k + |m|..];
      && pos == (if r == [] then None else Some(|l + Survivors(a, m)|)) && (m == [] ==> r == [])
      && b == Swept(a, l, m, r).(phase := if pos.Some? then SweepAll else SweepFinObj, sweepgc := if pos.Some? then pos else Some(0))
    ensures Sweeps(a, b)
  {
    hide Swept, Survivors;
    SweptPhase(a, a.allgc[..k], m, a.allgc[k + |m|..]);
    assert SweepsAt(a, b, k, |m|);
  }

  lemma SweptPhase(a: State, l: seq<Id>, m: seq<Id>, r: seq<Id>)
    ensures Swept(a, l, m, r).phase == a.phase
  {
  }

  lemma SweepsStepped(a: State, b: State)
    requires Inv(a) && a.phase.SweepAll? && Sweeps(a, b)
    ensures Stepped(a, b)
  {
    hide Stepped, WellFormed, LiveRefs, Swept, Survivors;
    match a.sweepgc
    case Some(k) =>
      var n: nat :| k + n <= |a.allgc| && SweepsAt(a, b, k, n);
      var l, m, r := a.allgc[..k], a.allgc[k..k + n], a.allgc[k + n..];
      SweepParts(a.allgc, k, n);
      SweptPhase(a, l, m, r);
      SweepStepped(a, b, l, m, r, if r == [] then None else Some(|l + Survivors(a, m)|));
    case None =>
      assert a.allgc == a.allgc + [] + [];
      SweptNone(a, a.allgc, []);
      SweepStepped(a, b, a.allgc, [], [], None);
  }

  /** Every step keeps the invariant, all that the program can reach, and exactness, and gets on. */
  lemma CollectsStepped(a: State, b: State)
    requires Inv(a) && Collects(a, b)
    ensures Stepped(a, b)
  {
    hide Stepped, Inv, Restarts, Visits, AtomicDone, Enters, Sweeps;
    match a.phase
    case Pause => RestartsStepped(a, b);
    case Propagate => VisitsStepped(a, b);
    case AtomicReady =>
      var d :| AtomicDone(a, d) && Enters(d, b);
      AtomicStepped(a, d, b);
    case SweepAll => SweepsStepped(a, b);
    case SweepEnd => EndStepped(a, b);
    case _ => PlainStepped(a, b);
  }

  lemma RestartsFrom(a: State, s: State, t: State, b: State)
    requires s == a.(gray := [], grayagain := [], ephemeron := [], allweak := []) && b == t.(phase := Propagate)
    requires Marks(s, t, Nil) && Forced(s, t, [Ref(s.main), s.registry] + s.mt)
    requires Seen(t, Ref(s.main)) && Seen(t, s.registry) && SeenAll(t, s.mt)
    ensures Restarts(a, b)
  {
    hide Forced, Seen, SeenAll;
    assert t == b.(phase := a.phase);
  }

  lemma RestartsStepped(a: State, b: State)
    requires Inv(a) && a.phase.Pause? && Restarts(a, b)
    ensures Stepped(a, b)
  {
    hide Stepped, Inv, Marks, Forced, Seen, SeenAll;
    RestartStepped(a, a.(gray := [], grayagain := [], ephemeron := [], allweak := []), b.(phase := a.phase), b);
  }

  lemma VisitsStepped(a: State, b: State)
    requires Inv(a) && a.phase.Propagate? && Visits(a, b.(phase := Propagate))
    requires b.phase == if b.gray == [] then AtomicReady else Propagate
    ensures Stepped(a, b)
  {
    hide Stepped, Visits, Propagated, MarkInv, WellFormed, LiveRefs, TriColour;
    TriColourMarkInv(a);
    VisitPropagated(a, b.(phase := Propagate), []);
    PropagateStepped(a, b.(phase := Propagate), b);
  }

  // ---------- whole cycles ----------

  /** The number of changes of state from `r` forward to `q`, in the cycle of eight states. */
  function Ahead(r: Phase, q: Phase): nat {
    (Rank(q) + 8 - Rank(r)) % 8
  }

  function Rank(p: Phase): nat
    ensures Rank(p) < 8
  {
    match p
    case Pause => 0
    case Propagate => 1
    case AtomicReady => 2
    case InsideAtomic => 2
    case SweepAll => 3
    case SweepFinObj => 4
    case SweepToBeFnz => 5
    case SweepEnd => 6
    case CallFin => 7
  }

  lemma AheadNext(p: Phase, q: Phase)
    requires p != q && p != InsideAtomic && q != InsideAtomic
    ensures Ahead(NextPhase(p), q) < Ahead(p, q)
  {
  }

  lemma StepPhases(a: State, b: State)
    requires StepTo(a, b)
    ensures a.phase != InsideAtomic
    ensures b.phase == NextPhase(a.phase) || b.phase == a.phase
    ensures b.phase == a.phase ==> if a.phase.Propagate? then Shrinks(a, b) else a.phase.SweepAll? && Remaining(b) < Remaining(a)
  {
    hide StrongSeen, Shrinks, Closed, AllWhite, SameHeap, NonDead, SeenAll, Seen;
  }

  /** The measure of `luaC_runtilstate`: every step either moves to the next state, or shrinks the
      work left in the current one. */
  lemma StepAdvances(a: State, b: State, q: Phase)
    requires Stepped(a, b) && a.phase != q && q != InsideAtomic
    ensures Inv(b) && (Exact(a) || a.phase.Pause? ==> Exact(b)) && Preserves(a, b)
    ensures if b.phase == a.phase then
              if a.phase.Propagate? then Shrinks(a, b) else a.phase.SweepAll? && 0 <= Remaining(b) < Remaining(a)
            else Ahead(b.phase, q) < Ahead(a.phase, q)
  {
    hide Preserves, Exact, Inv, StepTo, Shrinks, Ahead;
    StepPhases(a, b);
    AheadNext(a.phase, q);
    if b.phase.SweepAll? {
      StepRemaining(b);
    }
  }

  lemma StepRemaining(b: State)
    requires Inv(b) && b.phase.SweepAll?
    ensures 0 <= Remaining(b)
  {
    hide WellFormed, LiveRefs;
  }

  /** All states but the pause: where `luaC_fullgc` runs to first, to start a new cycle. */
  const NOT_PAUSE: set<Phase> := {Propagate, AtomicReady, SweepAll, SweepFinObj, SweepToBeFnz, SweepEnd, CallFin}

  lemma NotPauseStops()
    ensures Pause !in NOT_PAUSE && CallFin in NOT_PAUSE
  {
  }

  lemma InvAlive(a: State)
    requires Inv(a)
    ensures WellFormed(a) && LiveRefs(a)
  {
  }

  /** After an exact cycle, what is left on `allgc` is what the program can reach. */
  lemma ExactAtPause(b: State)
    requires Inv(b) && b.phase.Pause? && Exact(b)
    ensures forall x :: x in b.allgc ==> Reachable(b, x) && x in b.color && b.color[x] == White(b.cur)
    ensures forall x :: Reachable(b, x) ==> x in b.allgc || x in b.fixedgc || x == b.main
  {
    hide Closed, LiveRefs;
    InvImpliesSafe(b);
    forall x | x in b.allgc
      ensures Reachable(b, x)
    {
      assert !Dead(b, x);
      assert x in Kept(b);
      forall S: set<Id> | Closed(b, S)
        ensures x in S
      {
      }
    }
  }
}
