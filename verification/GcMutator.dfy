/** What the program may do to the heap between collector steps, and why the barriers keep the
    invariant. */
module GcMutator {
  import opened GcHeap
  import opened GcMarking
  import opened GcTraversal
  import opened GcAccounting
  import opened GcAtomic
  import opened GcSteps
  import opened Wrappers

  ghost predicate SameKind(o: Obj, o': Obj) {
    && (o.Str? <==> o'.Str?) && (o.Udata? <==> o'.Udata?) && (o.Closure? <==> o'.Closure?)
    && (o.Table? <==> o'.Table?) && (o.Thread? <==> o'.Thread?)
    && (o.Closure? ==> o'.upvals == o.upvals)
  }

  /** `o'` is `o` after storing the values `vs` in it: it holds nothing else that is new. */
  ghost predicate Stores(cells: map<CellId, Val>, o: Obj, o': Obj, vs: seq<Val>) {
    && SameKind(o, o')
    && forall w :: Holds(o', cells, w) ==> Holds(o, cells, w) || w in vs
  }

  ghost predicate AccessibleAll(s: State, vs: seq<Val>) {
    forall v :: v in vs ==> Accessible(s, v)
  }

  ghost predicate LiveAll(s: State, vs: seq<Val>) {
    forall v :: v in vs ==> Live(s, v)
  }

  lemma AccessibleAllLive(s: State, vs: seq<Val>)
    requires Inv(s) && AccessibleAll(s, vs)
    ensures LiveAll(s, vs)
  {
    hide Live, Accessible, WellFormed, LiveRefs;
    forall v | v in vs
      ensures Live(s, v)
    {
      AccessibleIsLive(s, v);
    }
  }

  // ---------- stores ----------

  lemma StoreLive(a: State, b: State, p: Id, o': Obj, vs: seq<Val>)
    requires WellFormed(a) && LiveRefs(a) && LiveAll(a, vs) && p in a.heap && Stores(a.cells, a.heap[p], o', vs)
    requires b == a.(heap := a.heap[p := o'])
    ensures WellFormed(b) && LiveRefs(b)
  {
    hide Holds;
    forall x, v | x in b.heap && !Dead(b, x) && Holds(b.heap[x], b.cells, v)
      ensures Live(b, v)
    {
      if x == p && v in vs {
        assert Live(a, v);
      } else {
        assert Holds(a.heap[x], a.cells, v);
        assert Live(a, v);
      }
    }
    assert forall v :: Live(a, v) ==> Live(b, v);
  }

  /** Apart from black objects that hold values of `vs`, the invariant holds. */
  ghost predicate InvBut(s: State, p: Id, vs: seq<Val>) {
    && WellFormed(s) && LiveRefs(s)
    && (KeepInvariant(s) ==> TriColourBut(s, p, vs))
    && (!KeepInvariant(s) ==> Inv(s))
  }

  ghost predicate TriColourBut(s: State, p: Id, vs: seq<Val>) {
    && NoneDead(s)
    && BlackBut(s, p, vs)
    && GrayList(s, s.gray) && GrayList(s, s.grayagain) && Disjoint(s.gray, s.grayagain)
    && s.ephemeron == [] && s.allweak == []
    && (forall x :: x in s.color && s.color[x].Gray? && x !in s.fixedgc ==> x in s.gray || x in s.grayagain)
    && !IsWhite(s, s.main)
    && (s.phase.Propagate? ==> s.gray != [])
  }

  ghost predicate BlackBut(s: State, p: Id, vs: seq<Val>) {
    forall x, v :: x in s.heap && x in s.color && s.color[x].Black? && Holds(s.heap[x], s.cells, v) ==> Seen(s, v) || (x == p && v in vs)
  }

  lemma StoreInv(a: State, b: State, p: Id, o': Obj, vs: seq<Val>)
    requires Inv(a) && AccessibleAll(a, vs) && p in a.heap && Stores(a.cells, a.heap[p], o', vs)
    requires b == a.(heap := a.heap[p := o'])
    ensures InvBut(b, p, vs)
  {
    hide WellFormed, LiveRefs, Holds, Stores, GrayList, Accessible;
    AccessibleAllLive(a, vs);
    StoreLive(a, b, p, o', vs);
    if KeepInvariant(a) {
      StoreLists(a, b, p, o', vs);
      StoreBlack(a, b, p, o', vs);
    }
  }

  lemma StoreLists(a: State, b: State, p: Id, o': Obj, vs: seq<Val>)
    requires p in a.heap && Stores(a.cells, a.heap[p], o', vs) && b == a.(heap := a.heap[p := o'])
    ensures forall q :: GrayList(a, q) ==> GrayList(b, q)
  {
  }

  lemma StoreBlack(a: State, b: State, p: Id, o': Obj, vs: seq<Val>)
    requires BlackInvariant(a) && p in a.heap && Stores(a.cells, a.heap[p], o', vs) && b == a.(heap := a.heap[p := o'])
    ensures BlackBut(b, p, vs)
  {
    hide Holds;
    forall x, v | x in b.heap && x in b.color && b.color[x].Black? && Holds(b.heap[x], b.cells, v)
      ensures Seen(b, v) || (x == p && v in vs)
    {
      if Holds(a.heap[x], a.cells, v) {
        assert Seen(a, v);
      }
    }
  }

  /** No barrier is needed when the object is not black or the values are marked. */
  lemma NoBarrier(b: State, p: Id, vs: seq<Val>)
    requires InvBut(b, p, vs)
    requires KeepInvariant(b) && p in b.color && b.color[p].Black? ==> SeenAll(b, vs)
    ensures Inv(b)
  {
    hide WellFormed, LiveRefs, Holds, GrayList;
    if KeepInvariant(b) {
      forall x, v | x in b.heap && x in b.color && b.color[x].Black? && Holds(b.heap[x], b.cells, v)
        ensures Seen(b, v)
      {
      }
    }
  }

  /** The forward barrier while marking: the stored values are marked. */
  lemma ForwardMarks(b: State, c: State, p: Id, vs: seq<Val>)
    requires InvBut(b, p, vs) && KeepInvariant(b) && Marks(b, c, Nil)
    ensures InvBut(c, p, vs)
  {
    hide Holds, GrayList, BlackDone, WellFormed, LiveRefs;
    MarksGrows(b, c, Nil);
    MarksKeepWellFormed(b, c);
    ForwardLists(b, c, p, vs);
    ForwardBlack(b, c, p, vs);
    ForwardLive(b, c);
  }

  lemma ForwardLive(b: State, c: State)
    requires WellFormed(b) && LiveRefs(b) && NoneDead(b) && NoneDead(c) && Marks(b, c, Nil)
    ensures LiveRefs(c)
  {
    assert c == b.(color := c.color, gray := c.gray);
    assert forall v :: Live(b, v) ==> Live(c, v);
    forall x, v | x in c.heap && !Dead(c, x) && Holds(c.heap[x], c.cells, v)
      ensures Live(c, v)
    {
      assert !Dead(b, x);
      assert Live(b, v);
    }
    hide Holds, Marks;
  }

  lemma ForwardLists(b: State, c: State, p: Id, vs: seq<Val>)
    requires TriColourBut(b, p, vs) && Marks(b, c, Nil)
    ensures GrayList(c, c.gray) && GrayList(c, c.grayagain) && Disjoint(c.gray, c.grayagain)
    ensures c.ephemeron == [] && c.allweak == [] && (c.phase.Propagate? ==> c.gray != [])
    ensures forall x :: x in c.color && c.color[x].Gray? && x !in c.fixedgc ==> x in c.gray || x in c.grayagain
  {
    hide Holds, BlackDone, BlackBut;
    GrayListKept(b, c, b.grayagain);
    if b.gray != [] {
      assert b.gray[0] in c.gray;
    }
    forall x | x in c.color && c.color[x].Gray? && x !in c.fixedgc
      ensures x in c.gray || x in c.grayagain
    {
      assert NewGray(b, c, x) || b.color[x].Gray?;
    }
  }

  lemma ForwardBlack(b: State, c: State, p: Id, vs: seq<Val>)
    requires WellFormed(b) && BlackBut(b, p, vs) && Marks(b, c, Nil)
    ensures BlackBut(c, p, vs)
  {
    forall x, v | x in c.heap && x in c.color && c.color[x].Black? && Holds(c.heap[x], c.cells, v)
      ensures Seen(c, v) || (x == p && v in vs)
    {
      if b.color[x].Black? {
        assert Seen(b, v) || (x == p && v in vs);
      } else {
        assert BlackDone(c, b.heap[x], Nil);
      }
    }
  }

  /** The backward barrier while marking: the table turns gray and is kept for a second visit. */
  lemma BackwardGray(b: State, c: State, p: Id, vs: seq<Val>)
    requires InvBut(b, p, vs) && p in b.heap && b.heap[p].Table? && b.color[p].Black?
    requires c == b.(color := b.color[p := Gray], grayagain := [p] + b.grayagain)
    ensures InvBut(c, p, vs) && (KeepInvariant(c) ==> Inv(c))
  {
    BackwardLive(b, c, p);
    if KeepInvariant(b) {
      BackwardLists(b, c, p, vs);
      BackwardBlack(b, c, p, vs);
    } else {
      BackwardSweep(b, c, p);
    }
    hide WellFormed, LiveRefs, Holds, GrayList, BlackBut;
  }

  lemma BackwardLive(b: State, c: State, p: Id)
    requires WellFormed(b) && LiveRefs(b) && p in b.heap && b.heap[p].Table? && b.color[p].Black?
    requires c == b.(color := b.color[p := Gray], grayagain := [p] + b.grayagain)
    ensures WellFormed(c) && LiveRefs(c)
    ensures forall x :: Dead(c, x) <==> Dead(b, x)
  {
    hide Holds;
    assert forall x :: Dead(c, x) <==> Dead(b, x);
    assert forall v :: Live(b, v) ==> Live(c, v);
  }

  lemma BackwardLists(b: State, c: State, p: Id, vs: seq<Val>)
    requires TriColourBut(b, p, vs) && p in b.heap && b.heap[p].Table? && p in b.color && b.color[p].Black?
    requires c == b.(color := b.color[p := Gray], grayagain := [p] + b.grayagain)
    ensures GrayList(c, c.gray) && GrayList(c, c.grayagain) && Disjoint(c.gray, c.grayagain)
    ensures forall x :: x in c.color && c.color[x].Gray? && x !in c.fixedgc ==> x in c.gray || x in c.grayagain
  {
    assert p !in b.gray && p !in b.grayagain;
    GrayListKept(b, c, b.gray);
    GrayListKept(b, c, b.grayagain);
    GrayListPush(c, b.grayagain, p);
    hide GrayList, BlackBut;
  }

  lemma BackwardBlack(b: State, c: State, p: Id, vs: seq<Val>)
    requires BlackBut(b, p, vs) && p in b.heap && p in b.color && b.color[p].Black?
    requires c == b.(color := b.color[p := Gray], grayagain := [p] + b.grayagain)
    ensures BlackBut(c, p, vs) && BlackInvariant(c)
  {
    hide Holds;
    forall x, v | x in c.heap && x in c.color && c.color[x].Black? && Holds(c.heap[x], c.cells, v)
      ensures Seen(c, v)
    {
      assert Seen(b, v);
    }
  }

  lemma BackwardSweep(b: State, c: State, p: Id)
    requires Inv(b) && !KeepInvariant(b) && p in b.color && b.color[p].Black?
    requires c == b.(color := b.color[p := Gray], grayagain := [p] + b.grayagain)
    requires WellFormed(c) && LiveRefs(c)
    ensures Inv(c)
  {
  }

  /** The forward barrier while sweeping: the object is swept early. */
  lemma ForwardSweep(b: State, c: State, p: Id)
    requires Inv(b) && !KeepInvariant(b) && p in b.color && b.color[p].Black?
    requires c == b.(color := b.color[p := White(b.cur)])
    ensures Inv(c)
  {
    hide Holds;
    assert forall x :: Dead(c, x) <==> Dead(b, x);
    assert forall v :: Live(b, v) ==> Live(c, v);
    assert p !in b.fixedgc;
  }

  lemma BarrierNeeded(b: State, p: Id, k: Val, vs: seq<Val>)
    requires InvBut(b, p, [k] + vs) && p in b.color
    requires b.color[p].Black? ==> Seen(b, k)
    ensures InvBut(b, p, vs)
  {
    hide WellFormed, LiveRefs, Holds, GrayList;
    if KeepInvariant(b) {
      forall x, v | x in b.heap && x in b.color && b.color[x].Black? && Holds(b.heap[x], b.cells, v)
        ensures Seen(b, v) || (x == p && v in vs)
      {
        assert v in [k] + vs ==> v == k || v in vs;
      }
    }
  }

  lemma InvIsInvBut(s: State, p: Id, vs: seq<Val>)
    requires Inv(s)
    ensures InvBut(s, p, vs)
  {
    hide WellFormed, LiveRefs, Holds, GrayList;
  }

  lemma InvButAllocated(b: State, p: Id, vs: seq<Val>)
    requires InvBut(b, p, vs) && KeepInvariant(b)
    ensures Allocated(b)
  {
    hide Holds, GrayList, BlackBut;
    forall x, v | x in b.heap && Holds(b.heap[x], b.cells, v) && v.Ref?
      ensures v.id in b.heap
    {
      assert !Dead(b, x);
      assert Live(b, v);
    }
  }

  // ---------- closed upvalues ----------

  /** Apart from black closures that hold `v` through an upvalue, the invariant holds. */
  ghost predicate InvButCell(s: State, v: Val) {
    && WellFormed(s) && LiveRefs(s)
    && (KeepInvariant(s) ==>
          && NoneDead(s) && BlackButCell(s, v)
          && GrayList(s, s.gray) && GrayList(s, s.grayagain) && Disjoint(s.gray, s.grayagain)
          && s.ephemeron == [] && s.allweak == []
          && (forall x :: x in s.color && s.color[x].Gray? && x !in s.fixedgc ==> x in s.gray || x in s.grayagain)
          && !IsWhite(s, s.main)
          && (s.phase.Propagate? ==> s.gray != []))
    && (!KeepInvariant(s) ==> Inv(s))
  }

  ghost predicate BlackButCell(s: State, u: Val) {
    forall x, v :: x in s.heap && x in s.color && s.color[x].Black? && Holds(s.heap[x], s.cells, v) ==> Seen(s, v) || v == u
  }

  lemma CellHolds(a: State, b: State, c: CellId, v: Val, o: Obj, w: Val)
    requires b.cells == a.cells[c := v] && Holds(o, b.cells, w) && w != v
    ensures Holds(o, a.cells, w)
  {
  }

  lemma CellStore(a: State, b: State, c: CellId, v: Val)
    requires Inv(a) && Accessible(a, v) && b == a.(cells := a.cells[c := v])
    ensures InvButCell(b, v)
  {
    hide WellFormed, LiveRefs, Holds, GrayList, Accessible;
    AccessibleIsLive(a, v);
    CellLive(a, b, c, v);
    if KeepInvariant(a) {
      forall x, w | x in b.heap && x in b.color && b.color[x].Black? && Holds(b.heap[x], b.cells, w)
        ensures Seen(b, w) || w == v
      {
        if w != v {
          CellHolds(a, b, c, v, b.heap[x], w);
          assert Seen(a, w);
        }
      }
      GrayListKept(a, b, a.gray);
      GrayListKept(a, b, a.grayagain);
    }
  }

  lemma CellLive(a: State, b: State, c: CellId, v: Val)
    requires WellFormed(a) && LiveRefs(a) && Live(a, v) && b == a.(cells := a.cells[c := v])
    ensures WellFormed(b) && LiveRefs(b)
  {
    hide Holds;
    forall x, w | x in b.heap && !Dead(b, x) && Holds(b.heap[x], b.cells, w)
      ensures Live(b, w)
    {
      if w != v {
        CellHolds(a, b, c, v, b.heap[x], w);
      }
      assert Live(a, w);
    }
    assert forall w :: Live(a, w) ==> Live(b, w);
  }

  lemma CellAllocated(b: State, v: Val)
    requires InvButCell(b, v) && KeepInvariant(b)
    ensures Allocated(b)
  {
    hide Holds, GrayList, BlackButCell;
    forall x, w | x in b.heap && Holds(b.heap[x], b.cells, w) && w.Ref?
      ensures w.id in b.heap
    {
      assert !Dead(b, x);
      assert Live(b, w);
    }
  }

  /** The barrier of `luaC_upvalbarrier_`: the value is marked whatever closures share the upvalue. */
  lemma CellMarked(b: State, c: State, v: Val)
    requires InvButCell(b, v) && KeepInvariant(b) && Marks(b, c, Nil) && Seen(c, v)
    ensures Inv(c)
  {
    hide Holds, GrayList, BlackDone, WellFormed, LiveRefs;
    MarksGrows(b, c, Nil);
    MarksKeepWellFormed(b, c);
    ForwardLive(b, c);
    CellLists(b, c, v);
    CellBlack(b, c, v);
  }

  lemma CellLists(b: State, c: State, v: Val)
    requires InvButCell(b, v) && KeepInvariant(b) && Marks(b, c, Nil)
    ensures GrayList(c, c.gray) && GrayList(c, c.grayagain) && Disjoint(c.gray, c.grayagain)
    ensures c.ephemeron == [] && c.allweak == [] && (c.phase.Propagate? ==> c.gray != [])
    ensures forall x :: x in c.color && c.color[x].Gray? && x !in c.fixedgc ==> x in c.gray || x in c.grayagain
  {
    hide Holds, BlackDone, BlackButCell, LiveRefs;
    GrayListKept(b, c, b.grayagain);
    if b.gray != [] {
      assert b.gray[0] in c.gray;
    }
    forall x | x in c.color && c.color[x].Gray? && x !in c.fixedgc
      ensures x in c.gray || x in c.grayagain
    {
      assert NewGray(b, c, x) || b.color[x].Gray?;
    }
  }

  lemma CellBlack(b: State, c: State, v: Val)
    requires WellFormed(b) && BlackButCell(b, v) && Marks(b, c, Nil) && Seen(c, v)
    ensures BlackInvariant(c)
  {
    forall x, w | x in c.heap && x in c.color && c.color[x].Black? && Holds(c.heap[x], c.cells, w)
      ensures Seen(c, w)
    {
      if b.color[x].Black? {
        assert Seen(b, w) || w == v;
      } else {
        assert BlackDone(c, b.heap[x], Nil);
      }
    }
  }

  // ---------- new and resurrected objects, roots ----------

  /** The sweep pointer after an object is linked at the head of `allgc`: it still points into the
      same object, or to the head. */
  function Shifted(s: State): Option<nat> {
    if s.phase.SweepAll? && s.sweepgc.Some? && s.sweepgc.value > 0 then Some(s.sweepgc.value + 1) else s.sweepgc
  }

  lemma NewInv(a: State, b: State, x: Id, o: Obj, cs: map<CellId, Val>)
    requires Inv(a) && x !in a.heap && cs.Keys !! a.cells.Keys
    requires forall v :: Holds(o, a.cells + cs, v) ==> Accessible(a, v)
    requires o.Closure? ==> forall c :: c in o.upvals ==> c in a.cells || c in cs
    requires b == a.(heap := a.heap[x := o], color := a.color[x := White(a.cur)], cells := a.cells + cs,
                     allgc := [x] + a.allgc, sweepgc := Shifted(a))
    ensures Inv(b)
  {
    hide WellFormed, LiveRefs, Holds, GrayList, Accessible, TriColour;
    NewWellFormed(a, b, x, o, cs);
    NewLive(a, b, x, o, cs);
    if KeepInvariant(a) {
      NewTri(a, b, x, o, cs);
    } else {
      NewSweep(a, b, x, o, cs);
    }
  }

  lemma NewWellFormed(a: State, b: State, x: Id, o: Obj, cs: map<CellId, Val>)
    requires WellFormed(a) && x !in a.heap
    requires o.Closure? ==> forall c :: c in o.upvals ==> c in a.cells || c in cs
    requires b == a.(heap := a.heap[x := o], color := a.color[x := White(a.cur)], cells := a.cells + cs,
                     allgc := [x] + a.allgc, sweepgc := Shifted(a))
    ensures WellFormed(b)
  {
    assert forall y :: y in b.allgc <==> y == x || y in a.allgc;
  }

  lemma NewHolds(a: State, cs: map<CellId, Val>, o: Obj, v: Val)
    requires cs.Keys !! a.cells.Keys && (o.Closure? ==> forall c :: c in o.upvals ==> c in a.cells)
    ensures Holds(o, a.cells + cs, v) <==> Holds(o, a.cells, v)
  {
    if o.Closure? {
      assert forall c :: c in o.upvals ==> c in a.cells && (a.cells + cs)[c] == a.cells[c];
    }
  }

  lemma NewLive(a: State, b: State, x: Id, o: Obj, cs: map<CellId, Val>)
    requires WellFormed(a) && LiveRefs(a) && x !in a.heap && cs.Keys !! a.cells.Keys
    requires forall v :: Holds(o, a.cells + cs, v) ==> Accessible(a, v)
    requires b == a.(heap := a.heap[x := o], color := a.color[x := White(a.cur)], cells := a.cells + cs,
                     allgc := [x] + a.allgc, sweepgc := Shifted(a))
    ensures LiveRefs(b)
  {
    hide Holds, Accessible;
    assert forall y :: y in a.heap ==> (Dead(b, y) <==> Dead(a, y));
    assert forall v :: Live(a, v) ==> Live(b, v);
    forall y, v | y in b.heap && !Dead(b, y) && Holds(b.heap[y], b.cells, v)
      ensures Live(b, v)
    {
      if y == x {
        AccessibleIsLive(a, v);
      } else {
        NewHolds(a, cs, a.heap[y], v);
        assert Live(a, v);
      }
    }
  }

  lemma NewTri(a: State, b: State, x: Id, o: Obj, cs: map<CellId, Val>)
    requires WellFormed(a) && TriColour(a) && x !in a.heap && cs.Keys !! a.cells.Keys
    requires b == a.(heap := a.heap[x := o], color := a.color[x := White(a.cur)], cells := a.cells + cs,
                     allgc := [x] + a.allgc, sweepgc := Shifted(a))
    ensures TriColour(b)
  {
    hide BlackInvariant, GrayList;
    NewBlack(a, b, x, o, cs);
    NewList(a, b, x, o, a.gray);
    NewList(a, b, x, o, a.grayagain);
  }

  lemma NewList(a: State, b: State, x: Id, o: Obj, q: seq<Id>)
    requires a.heap.Keys == a.color.Keys && x !in a.heap && GrayList(a, q)
    requires b.heap == a.heap[x := o] && b.color == a.color[x := White(a.cur)]
    ensures GrayList(b, q)
  {
  }

  lemma NewBlack(a: State, b: State, x: Id, o: Obj, cs: map<CellId, Val>)
    requires WellFormed(a) && BlackInvariant(a) && x !in a.heap && cs.Keys !! a.cells.Keys
    requires b == a.(heap := a.heap[x := o], color := a.color[x := White(a.cur)], cells := a.cells + cs,
                     allgc := [x] + a.allgc, sweepgc := Shifted(a))
    ensures BlackInvariant(b)
  {
    hide Holds;
    forall y, v | y in b.heap && y in b.color && b.color[y].Black? && Holds(b.heap[y], b.cells, v)
      ensures Seen(b, v)
    {
      NewHolds(a, cs, a.heap[y], v);
      assert Seen(a, v);
    }
  }

  lemma NewSweep(a: State, b: State, x: Id, o: Obj, cs: map<CellId, Val>)
    requires Inv(a) && !KeepInvariant(a) && x !in a.heap
    requires b == a.(heap := a.heap[x := o], color := a.color[x := White(a.cur)], cells := a.cells + cs,
                     allgc := [x] + a.allgc, sweepgc := Shifted(a))
    requires WellFormed(b) && LiveRefs(b)
    ensures Inv(b)
  {
    hide WellFormed, LiveRefs, Holds, TriColour;
    NewWhite(a, b, x, a.allgc);
    NewWhite(a, b, x, [a.main]);
    if a.phase.SweepAll? && a.sweepgc.Some? {
      var k := a.sweepgc.value;
      NewWhite(a, b, x, a.allgc[..k]);
      if k > 0 {
        assert b.allgc[..k + 1] == [x] + a.allgc[..k];
      } else {
        assert b.allgc[..k] == [];
      }
    }
  }

  lemma NewWhite(a: State, b: State, x: Id, q: seq<Id>)
    requires b.color == a.color[x := White(a.cur)] && b.cur == a.cur
    ensures AllWhite(a, q) ==> AllWhite(b, q) && AllWhite(b, [x] + q)
  {
  }

  /** Finding an interned string that is dead but not yet swept: it changes to the current white. */
  lemma ResurrectInv(a: State, b: State, x: Id)
    requires Inv(a) && x in a.heap && a.heap[x].Str?
    requires b == if Dead(a, x) then a.(color := a.color[x := White(a.cur)]) else a
    ensures Inv(b) && !Dead(b, x)
  {
    if Dead(a, x) {
      assert !KeepInvariant(a);
      assert forall y :: Dead(b, y) ==> Dead(a, y);
      assert forall v :: Live(a, v) ==> Live(b, v);
      forall y, v | y in b.heap && !Dead(b, y) && Holds(b.heap[y], b.cells, v)
        ensures Live(b, v)
      {
        assert y != x;
        assert Live(a, v);
      }
    }
  }

  /** Pushing a live value on a thread's stack needs no barrier, since threads are never black. */
  lemma StackStores(cells: map<CellId, Val>, o: Obj, stack: seq<Val>)
    requires o.Thread?
    ensures Stores(cells, o, Thread(stack), stack)
  {
  }

  lemma ThreadNotBlack(a: State, t: Id)
    requires WellFormed(a) && t in a.heap && a.heap[t].Thread?
    ensures t in a.color && !a.color[t].Black?
  {
  }

  lemma PushInv(a: State, b: State, t: Id, stack: seq<Val>)
    requires Inv(a) && t in a.heap && a.heap[t].Thread? && LiveAll(a, stack)
    requires b == a.(heap := a.heap[t := Thread(stack)])
    ensures Inv(b)
  {
    hide WellFormed, LiveRefs, Holds, Stores, GrayList, LiveAll;
    StackStores(a.cells, a.heap[t], stack);
    StoreLive(a, b, t, Thread(stack), stack);
    if KeepInvariant(a) {
      ThreadNotBlack(a, t);
      StoreLists(a, b, t, Thread(stack), stack);
      StoreBlack(a, b, t, Thread(stack), stack);
    }
  }

  /** Changing roots needs no barrier either: the atomic step marks them again. */
  lemma RootInv(a: State, b: State)
    requires Inv(a)
    requires b == a.(running := b.running, registry := b.registry, mt := b.mt)
    requires Accessible(a, Ref(b.running)) && Accessible(a, b.registry) && AccessibleAll(a, b.mt)
    ensures Inv(b)
  {
    hide WellFormed, LiveRefs, Holds, GrayList, Accessible, TriColour;
    AccessibleIsLive(a, Ref(b.running));
    AccessibleIsLive(a, b.registry);
    AccessibleAllLive(a, b.mt);
    RootLive(a, b);
    if KeepInvariant(a) {
      RootTri(a, b);
    }
  }

  lemma RootLive(a: State, b: State)
    requires WellFormed(a) && LiveRefs(a) && b == a.(running := b.running, registry := b.registry, mt := b.mt)
    requires Live(a, Ref(b.running)) && Live(a, b.registry) && LiveAll(a, b.mt)
    ensures WellFormed(b) && LiveRefs(b)
  {
    hide Holds;
    assert forall v :: Live(a, v) ==> Live(b, v);
  }

  lemma RootTri(a: State, b: State)
    requires TriColour(a) && b == a.(running := b.running, registry := b.registry, mt := b.mt)
    ensures TriColour(b)
  {
    hide Holds, GrayList;
    assert forall v :: Seen(a, v) ==> Seen(b, v);
    GrayListKept(a, b, a.gray);
    GrayListKept(a, b, a.grayagain);
  }

  /** `luaC_fix`: the newest object leaves `allgc` for good and is gray for ever. */
  lemma FixInv(a: State, b: State)
    requires Inv(a) && a.phase.Pause? && a.allgc != [] && a.allgc[0] in a.heap && a.heap[a.allgc[0]].Str?
    requires b == a.(allgc := a.allgc[1..], fixedgc := [a.allgc[0]] + a.fixedgc, color := a.color[a.allgc[0] := Gray])
    ensures Inv(b)
  {
    hide WellFormed, LiveRefs, Holds, TriColour;
    var x := a.allgc[0];
    assert a.allgc == [x] + b.allgc;
    FixWellFormed(a, b, x);
    FixLive(a, b, x);
    FixWhite(a, b, x);
  }

  lemma FixWhite(a: State, b: State, x: Id)
    requires AllWhite(a, a.allgc) && AllWhite(a, [a.main]) && a.allgc == [x] + b.allgc && x !in b.allgc && x != b.main
    requires b == a.(allgc := b.allgc, fixedgc := [x] + a.fixedgc, color := a.color[x := Gray])
    ensures AllWhite(b, b.allgc) && AllWhite(b, [b.main])
  {
    assert forall y :: y in b.allgc ==> y in a.allgc;
    assert a.main in [a.main];
  }

  lemma FixWellFormed(a: State, b: State, x: Id)
    requires WellFormed(a) && a.allgc == [x] + b.allgc && a.heap[x].Str?
    requires b == a.(allgc := b.allgc, fixedgc := [x] + a.fixedgc, color := a.color[x := Gray])
    ensures WellFormed(b) && x !in b.allgc && x != b.main
  {
    assert a.allgc[0] == x && forall i :: 0 <= i < |b.allgc| ==> b.allgc[i] == a.allgc[i + 1];
    assert x in a.allgc;
    assert forall y :: y in b.fixedgc <==> y == x || y in a.fixedgc;
    assert forall y :: y in a.allgc <==> y == x || y in b.allgc;
  }

  lemma FixLive(a: State, b: State, x: Id)
    requires LiveRefs(a) && x in a.heap && a.heap[x].Str?
    requires b == a.(allgc := b.allgc, fixedgc := [x] + a.fixedgc, color := a.color[x := Gray])
    ensures LiveRefs(b)
  {
    assert forall v :: Live(a, v) ==> Live(b, v);
    forall y, v | y in b.heap && !Dead(b, y) && Holds(b.heap[y], b.cells, v)
      ensures Live(b, v)
    {
      assert y != x;
      assert Live(a, v);
    }
  }

  // ---------- what barriers and stores do ----------

  /** The effect of `luaC_barrier`: nothing unless a black object got a white value; then the value
      is marked while marking, and the object is swept while sweeping. */
  ghost predicate BarrierEffect(b: State, c: State, p: Id, v: Val) {
    if p in b.color && b.color[p].Black? && v.Ref? && IsWhite(b, v.id) then
      if KeepInvariant(b) then Marks(b, c, Nil) && Seen(c, v)
      else c == b.(color := b.color[p := White(b.cur)])
    else c == b
  }

  function BarrierBackEffect(b: State, p: Id, v: Val): State {
    if p in b.color && b.color[p].Black? && v.Ref? && IsWhite(b, v.id)
    then b.(color := b.color[p := Gray], grayagain := [p] + b.grayagain)
    else b
  }

  lemma InvButDomain(b: State, p: Id, vs: seq<Val>)
    requires InvBut(b, p, vs)
    ensures b.heap.Keys == b.color.Keys
  {
  }

  lemma InvButSweep(b: State, p: Id, vs: seq<Val>)
    requires InvBut(b, p, vs) && !KeepInvariant(b)
    ensures Inv(b)
  {
  }

  lemma SeenOne(s: State, v: Val)
    requires Seen(s, v)
    ensures SeenAll(s, [v])
  {
  }

  lemma Unneeded(b: State, p: Id, v: Val)
    requires b.heap.Keys == b.color.Keys && p in b.color && (v.Ref? ==> v.id in b.color)
    requires !(v.Ref? && b.color[p].Black? && b.color[v.id].White?)
    ensures b.color[p].Black? ==> SeenAll(b, [v])
  {
  }

  lemma NoValues(s: State)
    ensures SeenAll(s, [])
  {
  }

  lemma NoneAccessible(s: State)
    ensures AccessibleAll(s, [])
  {
  }

  lemma OneAccessible(s: State, v: Val)
    requires Inv(s) && Accessible(s, v)
    ensures AccessibleAll(s, [v]) && (v.Ref? ==> v.id in s.heap)
  {
    AccessibleIsLive(s, v);
  }

  lemma TwoAccessible(s: State, k: Val, v: Val)
    requires Inv(s) && Accessible(s, k) && Accessible(s, v)
    ensures AccessibleAll(s, [k, v]) && (k.Ref? ==> k.id in s.heap) && (v.Ref? ==> v.id in s.heap)
  {
    hide Accessible;
    AccessibleIsLive(s, k);
    AccessibleIsLive(s, v);
  }

  lemma LiveHere(s: State, v: Val)
    requires Inv(s) && Accessible(s, v)
    ensures v.Ref? ==> v.id in s.heap
  {
    AccessibleIsLive(s, v);
  }

  lemma SameDomain(s: State)
    requires Inv(s)
    ensures s.heap.Keys == s.color.Keys
  {
  }

  lemma CellSweep(b: State, v: Val)
    requires InvButCell(b, v) && !KeepInvariant(b)
    ensures Inv(b)
  {
  }

  lemma PushLive(b: State, x: Id)
    requires Inv(b) && x in b.heap && !Dead(b, x) && b.running in b.heap && b.heap[b.running].Thread?
    ensures LiveAll(b, b.heap[b.running].stack + [Ref(x)])
  {
    hide TriColour;
    assert Live(b, Ref(b.running));
    forall v | v in b.heap[b.running].stack + [Ref(x)]
      ensures Live(b, v)
    {
      if v != Ref(x) {
        assert Holds(b.heap[b.running], b.cells, v);
      }
    }
  }

  lemma ClosureStores(cells: map<CellId, Val>, o: Obj, i: nat, v: Val)
    requires o.Closure? && i < |o.refs|
    ensures Stores(cells, o, o.(refs := o.refs[i := v]), [v])
  {
  }

  lemma MetaStores(cells: map<CellId, Val>, o: Obj, m: Val)
    requires o.Table? || o.Udata?
    ensures Stores(cells, o, o.(meta := m), [m])
  {
  }

  lemma UserStores(cells: map<CellId, Val>, o: Obj, v: Val)
    requires o.Udata?
    ensures Stores(cells, o, o.(user := v), [v])
  {
  }

  lemma ArrayStores(cells: map<CellId, Val>, o: Obj, i: nat, v: Val)
    requires o.Table? && i <= |o.arr|
    ensures Stores(cells, o, o.(arr := if i == |o.arr| then o.arr + [v] else o.arr[i := v]), [v])
    ensures Stores(cells, o, o.(arr := if i == |o.arr| then o.arr + [v] else o.arr[i := v]), [Nil, v])
  {
  }

  lemma EntryStores(cells: map<CellId, Val>, o: Obj, i: nat, k: Val, v: Val)
    requires o.Table? && i <= |o.entries|
    ensures Stores(cells, o, o.(entries := if i == |o.entries| then o.entries + [Entry(k, v)] else o.entries[i := Entry(k, v)]), [k, v])
  {
    var es := if i == |o.entries| then o.entries + [Entry(k, v)] else o.entries[i := Entry(k, v)];
    assert forall e :: e in es ==> e in o.entries || e == Entry(k, v);
  }

  lemma ModeStores(cells: map<CellId, Val>, o: Obj, m: Mode)
    requires o.Table?
    ensures Stores(cells, o, o.(mode := m), [])
    ensures Stores(cells, o, o.(mode := m), [Nil, Nil])
  {
  }

  lemma NilAccessible(s: State)
    ensures Accessible(s, Nil)
  {
  }

  lemma UpvalCell(s: State, p: Id, i: nat)
    requires Inv(s) && p in s.heap && s.heap[p].Closure? && i < |s.heap[p].upvals|
    ensures s.heap[p].upvals[i] in s.cells
  {
    assert s.heap[p].upvals[i] in s.heap[p].upvals;
  }
}
