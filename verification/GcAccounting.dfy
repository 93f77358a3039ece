/** Taking a gray object off its list, traversing it, and putting it where it belongs. */
module GcAccounting {
  import opened GcHeap
  import opened GcMarking
  import opened GcTraversal

  /** The list of gray objects that are kept for a second visit. Inside the atomic step `grayagain`
      collects threads that will not be visited again, and `pend` is what was saved of it. */
  function Pend(s: State, pend: seq<Id>): seq<Id> {
    if s.phase.InsideAtomic? then pend else s.grayagain
  }

  /** `b` is `a` after some marking work: colours and lists changed, nothing was unmarked, and what
      was marked lies in every closed set that contains the marked objects of `a`. */
  ghost predicate Progress(a: State, b: State) {
    && b == a.(color := b.color, gray := b.gray, grayagain := b.grayagain, ephemeron := b.ephemeron, allweak := b.allweak)
    && b.color.Keys == a.color.Keys
    && Marked(a) <= Marked(b)
    && Forced(a, b, [])
  }

  ghost predicate StrongSeen(s: State, x: Id) {
    x in s.heap && forall v :: StrongHolds(s.heap, s.heap[x], s.cells, v) ==> Seen(s, v)
  }

  ghost predicate Shrinks(a: State, b: State) {
    Whites(b) < Whites(a) || (Whites(b) == Whites(a) && |b.gray| < |a.gray|)
  }

  /** One traversal: the object is off the gray list, what it strongly holds is marked, and the
      accounting is kept. */
  ghost predicate Propagated(a: State, b: State, pend: seq<Id>) {
    && MarkInv(b, Pend(b, pend))
    && Progress(a, b)
    && Shrinks(a, b)
    && a.gray != [] && StrongSeen(b, a.gray[0])
    && (a.phase.Propagate? ==> b.ephemeron == a.ephemeron && b.allweak == a.allweak)
  }

  /** These parts of the invariant do not depend on the lists. */
  lemma ListsOnly(a: State, b: State)
    requires b == a.(gray := b.gray, grayagain := b.grayagain, ephemeron := b.ephemeron, allweak := b.allweak)
    ensures WellFormed(a) ==> WellFormed(b)
    ensures Allocated(a) ==> Allocated(b)
    ensures NoneDead(a) ==> NoneDead(b)
    ensures BlackInvariant(a) ==> BlackInvariant(b)
    ensures forall q :: GrayList(a, q) ==> GrayList(b, q)
  {
    forall q | GrayList(a, q)
      ensures GrayList(b, q)
    {
      GrayListKept(a, b, q);
    }
    if BlackInvariant(a) {
      forall x, v | x in b.heap && x in b.color && b.color[x].Black? && Holds(b.heap[x], b.cells, v)
        ensures Seen(b, v)
      {
        assert Seen(a, v);
      }
    }
  }

  lemma GrayListHead(a: State, q: seq<Id>)
    requires GrayList(a, q) && q != []
    ensures GrayList(a, q[1..])
    ensures q[0] !in q[1..]
    ensures forall x :: x in q <==> x == q[0] || x in q[1..]
  {
    assert q == [q[0]] + q[1..];
  }

  lemma GrayListPush(a: State, q: seq<Id>, h: Id)
    requires GrayList(a, q) && h !in q
    requires h in a.heap && h in a.color && a.color[h].Gray? && Traversable(a.heap[h])
    ensures GrayList(a, [h] + q)
    ensures forall x :: x in [h] + q <==> x == h || x in q
  {
  }

  lemma PopInv(a: State, pend: seq<Id>)
    requires MarkInv(a, pend) && a.gray != []
    ensures MarkInv(a.(gray := a.gray[1..]), [a.gray[0]] + pend)
  {
    var b := a.(gray := a.gray[1..]);
    var h := a.gray[0];
    assert h in a.gray;
    GrayListHead(a, a.gray);
    GrayListPush(a, pend, h);
    ListsOnly(a, b);
    forall x | x in b.color && b.color[x].Gray? && x !in b.fixedgc
      ensures x in b.gray || x in [h] + pend || (!b.phase.Propagate? && Settled(b, x))
    {
      if !(x in a.gray || x in pend) {
        SettledKept(a, b, x);
      }
    }
    hide Settled, Holds, BlackInvariant, Allocated, WellFormed, NoneDead, GrayList;
  }

  /** A black object that is being traversed can be seen as gray and waiting. */
  lemma Unblacken(a: State, s: State, t: State, h: Id)
    requires h in a.color && a.color[h].Gray? && s == a.(color := a.color[h := Black]) && h !in a.gray
    requires Marks(s, t, Nil)
    ensures h in t.color && t.color[h].Black?
    ensures Marks(a, t.(color := t.color[h := Gray]), Nil)
  {
    hide BlackDone, GrayList;
    var g := t.(color := t.color[h := Gray]);
    assert !s.color[h].White?;
    UnblackenLists(a, s, t, g, h);
    UnblackenBlack(a, s, t, g, h);
    forall x ensures NewGray(a, g, x) <==> NewGray(s, t, x) {
    }
  }

  lemma UnblackenBlack(a: State, s: State, t: State, g: State, h: Id)
    requires h in a.color && a.color[h].Gray? && s == a.(color := a.color[h := Black])
    requires Marks(s, t, Nil) && g == t.(color := t.color[h := Gray])
    ensures forall x :: x in a.color && x in a.heap && a.color[x].White? && g.color[x].Black? ==> BlackDone(g, a.heap[x], Nil)
  {
    forall x | x in a.color && x in a.heap && a.color[x].White? && g.color[x].Black?
      ensures BlackDone(g, a.heap[x], Nil)
    {
      assert BlackDone(t, a.heap[x], Nil);
    }
  }

  lemma UnblackenLists(a: State, s: State, t: State, g: State, h: Id)
    requires h in a.color && a.color[h].Gray? && s == a.(color := a.color[h := Black]) && h !in a.gray
    requires Marks(s, t, Nil) && g == t.(color := t.color[h := Gray])
    ensures GrayList(a, a.gray) ==> GrayList(g, g.gray)
  {
    if GrayList(a, a.gray) {
      GrayListKept(a, s, a.gray);
      assert GrayList(t, t.gray);
      GrayListKept(t, g, t.gray);
    }
  }

  // ---------- finishing a traversal ----------

  lemma Blacken(s: State, pend: seq<Id>, h: Id)
    requires MarkInv(s, [h] + pend) && h !in pend
    requires HeldSeen(s, h) && h in s.color && s.color[h].Gray? && !s.heap[h].Thread?
    ensures MarkInv(s.(color := s.color[h := Black]), pend)
  {
    hide Settled, Holds, BlackInvariant, GrayList, WellFormed, Allocated, NoneDead, HeldSeen;
    var b := s.(color := s.color[h := Black]);
    BlackenKeeps(s, b, pend, h);
    BlackenLists(s, b, pend, h);
    BlackenBlack(s, b, h);
    assert forall x :: x in pend ==> x in [h] + pend;
    forall x | x in b.color && b.color[x].Gray? && x !in b.fixedgc
      ensures x in b.gray || x in pend || (!b.phase.Propagate? && Settled(b, x))
    {
      assert s.color[x].Gray?;
      if !(x in b.gray || x in pend) {
        assert x !in [h] + pend;
        SettledKept'(s, b, x);
      }
    }
  }

  lemma BlackenKeeps(s: State, b: State, pend: seq<Id>, h: Id)
    requires MarkInv(s, [h] + pend) && h in s.color && s.color[h].Gray? && b == s.(color := s.color[h := Black])
    ensures h in s.heap && s.heap.Keys == s.color.Keys && Allocated(b) && NoneDead(b)
    ensures !s.heap[h].Thread? ==> WellFormed(b)
  {
    hide Holds, BlackInvariant, Settled, Disjoint;
    assert h in [h] + pend;
  }

  lemma SettledKept'(a: State, b: State, x: Id)
    requires b == a.(color := b.color)
    requires forall v :: Seen(a, v) ==> Seen(b, v)
    requires Settled(a, x)
    ensures Settled(b, x)
  {
    SettledKept(a, b, x);
  }

  lemma BlackenLists(s: State, b: State, pend: seq<Id>, h: Id)
    requires MarkInv(s, [h] + pend) && h !in pend && h in s.color && b == s.(color := s.color[h := Black])
    ensures GrayList(b, b.gray) && GrayList(b, pend) && GrayList(b, b.ephemeron) && GrayList(b, b.allweak)
    ensures Disjoint(b.gray, pend) && Disjoint(pend, b.ephemeron) && Disjoint(pend, b.allweak)
  {
    assert h in [h] + pend;
    assert forall x :: x in pend ==> x in [h] + pend;
    GrayListHead(s, [h] + pend);
    assert ([h] + pend)[1..] == pend;
    GrayListKept(s, b, s.gray);
    GrayListKept(s, b, pend);
    GrayListKept(s, b, s.ephemeron);
    GrayListKept(s, b, s.allweak);
  }

  lemma BlackenBlack(s: State, b: State, h: Id)
    requires s.heap.Keys == s.color.Keys && BlackInvariant(s) && HeldSeen(s, h)
    requires h in s.color && s.color[h].Gray? && b == s.(color := s.color[h := Black])
    ensures BlackInvariant(b)
    ensures forall v :: Seen(s, v) ==> Seen(b, v)
  {
    forall x, v | x in b.heap && x in b.color && b.color[x].Black? && Holds(b.heap[x], b.cells, v)
      ensures Seen(b, v)
    {
      assert Seen(s, v);
    }
  }

  lemma Settle(s: State, pend: seq<Id>, h: Id)
    requires MarkInv(s, [h] + pend) && h !in pend && !s.phase.Propagate? && Settled(s, h)
    ensures MarkInv(s, pend)
  {
    hide Settled, Holds, BlackInvariant, GrayList;
    assert h in [h] + pend;
    assert forall x :: x in pend ==> x in [h] + pend;
    GrayListHead(s, [h] + pend);
    assert ([h] + pend)[1..] == pend;
    forall x | x in s.color && s.color[x].Gray? && x !in s.fixedgc
      ensures x in s.gray || x in pend || (!s.phase.Propagate? && Settled(s, x))
    {
    }
  }

  /** Linking a traversed ephemeron table into `ephemeron` or `allweak` settles it. */
  lemma Link(s: State, b: State, pend: seq<Id>, h: Id)
    requires MarkInv(s, [h] + pend) && h !in pend && !s.phase.Propagate? && h in s.heap && IsEphemeron(s.heap[h])
    requires b == s.(ephemeron := [h] + s.ephemeron) || b == s.(allweak := [h] + s.allweak)
    requires Settled(b, h)
    ensures MarkInv(b, pend)
  {
    hide Settled, Holds, BlackInvariant, GrayList, WellFormed, Allocated, NoneDead;
    LinkLists(s, b, pend, h);
    ListsOnly(s, b);
    assert forall x :: x in pend ==> x in [h] + pend;
    forall x | x in b.color && b.color[x].Gray? && x !in b.fixedgc
      ensures x in b.gray || x in pend || (!b.phase.Propagate? && Settled(b, x))
    {
      if !(x in b.gray || x in pend) && x != h {
        assert x !in [h] + pend;
        SettledKept(s, b, x);
      }
    }
  }

  lemma LinkLists(s: State, b: State, pend: seq<Id>, h: Id)
    requires MarkInv(s, [h] + pend) && h !in pend && h in s.heap && IsEphemeron(s.heap[h])
    requires b == s.(ephemeron := [h] + s.ephemeron) || b == s.(allweak := [h] + s.allweak)
    ensures GrayList(b, b.gray) && GrayList(b, pend) && GrayList(b, b.ephemeron) && GrayList(b, b.allweak)
    ensures Disjoint(b.gray, pend) && Disjoint(b.gray, b.ephemeron) && Disjoint(b.gray, b.allweak)
    ensures Disjoint(pend, b.ephemeron) && Disjoint(pend, b.allweak) && Disjoint(b.ephemeron, b.allweak)
    ensures forall x :: x in b.ephemeron || x in b.allweak ==> x in s.heap && IsEphemeron(s.heap[x])
  {
    var p := [h] + pend;
    assert h in p && forall x :: x in pend ==> x in p;
    GrayListHead(s, p);
    assert p[1..] == pend;
    ListsOnly(s, b);
    assert GrayList(s, s.ephemeron) && GrayList(s, s.allweak);
    GrayListPush(s, s.ephemeron, h);
    GrayListPush(s, s.allweak, h);
    assert GrayList(s, [h] + s.ephemeron) && GrayList(s, [h] + s.allweak);
    hide GrayList, Settled, BlackInvariant, WellFormed, Allocated, NoneDead;
  }

  // ---------- one turn of `propagatemark` ----------

  /** `s` is `a` with its first gray object `h` off the list and still gray. */
  ghost predicate Taken(a: State, s: State, h: Id, pend: seq<Id>) {
    && MarkInv(a, Pend(a, pend))
    && a.gray != [] && h == a.gray[0] && h in a.color && a.color[h].Gray? && h in a.heap
    && s == a.(gray := a.gray[1..])
  }

  lemma TakenInv(a: State, s: State, h: Id, pend: seq<Id>)
    requires Taken(a, s, h, pend)
    ensures MarkInv(s, [h] + Pend(a, pend)) && Allocated(s) && Traversable(a.heap[h])
    ensures h !in Pend(a, pend) && h !in s.gray
  {
    hide Settled, Holds, BlackInvariant, Allocated;
    PopInv(a, Pend(a, pend));
    assert h in a.gray;
    GrayListHead(a, a.gray);
  }

  lemma TraversedGray(s: State, b: State, t: State, h: Id)
    requires h in s.color && s.color[h].Gray? && h !in s.gray && b == s.(color := s.color[h := Black])
    requires Allocated(s) && Traversed(b, t, h)
    ensures h in t.color && t.color[h].Black?
    ensures Traversed(s, t.(color := t.color[h := Gray]), h)
    ensures t.ephemeron == s.ephemeron && t.allweak == s.allweak
  {
    hide Marks, Allocated, Closed;
    var g := t.(color := t.color[h := Gray]);
    MarksOnly(b, t);
    Unblacken(s, b, t, h);
    assert Marked(b) == Marked(s) && Marked(g) == Marked(t);
    forall S: set<Id> | Closed(s, S) && Marked(s) <= S && (forall v :: v in [Ref(h)] ==> In(S, v))
      ensures Marked(g) <= S
    {
      SameClosed(s, b, S);
    }
    AllocatedSame(s, g);
  }

  lemma MarksOnly(a: State, b: State)
    requires Marks(a, b, Nil)
    ensures b == a.(color := b.color, gray := b.gray) && b.color.Keys == a.color.Keys
  {
  }

  lemma TraversedOnly(a: State, b: State, h: Id)
    requires Traversed(a, b, h)
    ensures b == a.(color := b.color, gray := b.gray) && b.color.Keys == a.color.Keys
  {
  }

  lemma AllocatedSame(s: State, t: State)
    requires Allocated(s) && Marks(s, t, Nil)
    ensures Allocated(t)
  {
  }

  lemma TakenProgress(a: State, s: State, t: State, h: Id, pend: seq<Id>)
    requires Taken(a, s, h, pend) && Traversed(s, t, h)
    ensures MarkInv(t, [h] + Pend(a, pend)) && Progress(a, t) && Shrinks(a, t)
    ensures h in t.color && t.color[h].Gray? && t.heap == a.heap && t.phase == a.phase && t.grayagain == a.grayagain
  {
    hide MarkInv, Forced, Holds, BlackDone;
    TakenInv(a, s, h, pend);
    MarksKeepInv(s, t, [h] + Pend(a, pend));
    MarksGrows(s, t, Nil);
    TakenForced(a, s, t, h);
    TakenShrinks(a, s, t, h);
    assert t == a.(color := t.color, gray := t.gray);
  }

  lemma TakenForced(a: State, s: State, t: State, h: Id)
    requires h in a.color && a.color[h].Gray? && s == a.(gray := s.gray) && Traversed(s, t, h)
    ensures Forced(a, t, [])
  {
    hide Marks, Allocated, Closed;
    assert h in Marked(a) && Marked(a) == Marked(s);
    forall S: set<Id> | Closed(a, S) && Marked(a) <= S && (forall v :: v in [] ==> In(S, v))
      ensures Marked(t) <= S
    {
      SameClosed(a, s, S);
      assert forall v :: v in [Ref(h)] ==> In(S, v);
    }
  }

  lemma TakenShrinks(a: State, s: State, t: State, h: Id)
    requires a.gray != [] && s == a.(gray := a.gray[1..]) && Marks(s, t, Nil)
    ensures Shrinks(a, t)
  {
    hide BlackDone, GrayList, NewGray;
    MarksGrows(s, t, Nil);
    assert Whites(s) == Whites(a);
    if Whites(t) == Whites(s) {
      forall x | x in s.color
        ensures t.color[x] == s.color[x]
      {
        assert x in Whites(t) <==> x in Whites(s);
      }
    }
  }

  lemma HeldStrong(s: State, h: Id)
    requires HeldSeen(s, h)
    ensures StrongSeen(s, h)
  {
    forall v | StrongHolds(s.heap, s.heap[h], s.cells, v)
      ensures Seen(s, v)
    {
      assert Holds(s.heap[h], s.cells, v);
    }
  }

  lemma RecolorProgress(a: State, t: State, b: State, h: Id)
    requires Progress(a, t) && Shrinks(a, t) && h in t.color && t.color[h].Gray?
    requires b == t.(color := t.color[h := Black])
    ensures Progress(a, b) && Shrinks(a, b)
    ensures HeldSeen(t, h) ==> HeldSeen(b, h)
  {
    hide Closed;
    assert Marked(b) == Marked(t) && Whites(b) == Whites(t);
  }

  lemma ListProgress(a: State, t: State, b: State)
    requires Progress(a, t) && Shrinks(a, t)
    requires b == t.(grayagain := b.grayagain, ephemeron := b.ephemeron, allweak := b.allweak)
    ensures Progress(a, b) && Shrinks(a, b)
    ensures forall x :: StrongSeen(t, x) ==> StrongSeen(b, x)
  {
    hide Closed, StrongHolds;
    assert Marked(b) == Marked(t) && Whites(b) == Whites(t);
    assert forall v :: Seen(t, v) ==> Seen(b, v);
  }

  lemma HeldRecolored(t: State, g: State, h: Id)
    requires h in t.color && t.color[h].Black? && g == t.(color := t.color[h := Gray]) && HeldSeen(t, h)
    ensures HeldSeen(g, h) && t == g.(color := g.color[h := Black])
  {
    assert forall v :: Seen(t, v) ==> Seen(g, v);
    assert t.color == g.color[h := Black];
  }

  /** The traversal of a closure, prototype or strong table is complete. */
  lemma BlackPropagated(a: State, s: State, t: State, h: Id, pend: seq<Id>)
    requires Taken(a, s, h, pend)
    requires Traversed(s.(color := s.color[h := Black]), t, h)
    requires HeldSeen(t, h) && !a.heap[h].Thread? && t.heap == a.heap
    ensures Propagated(a, t, pend)
  {
    hide MarkInv, Progress, Shrinks, Traversed, HeldSeen, StrongSeen, Allocated, Traversable;
    var g := t.(color := t.color[h := Gray]);
    TakenInv(a, s, h, pend);
    TraversedGray(s, s.(color := s.color[h := Black]), t, h);
    TakenProgress(a, s, g, h, pend);
    HeldRecolored(t, g, h);
    Blacken(g, Pend(a, pend), h);
    RecolorProgress(a, g, t, h);
    HeldStrong(t, h);
  }

  /** The traversal of a thread is complete: it stays gray, on `grayagain`. */
  lemma ThreadPropagated(a: State, s: State, t: State, h: Id, pend: seq<Id>)
    requires Taken(a, s, h, pend) && a.heap[h].Thread?
    requires Traversed(s.(grayagain := [h] + s.grayagain), t, h) && SeenAll(t, a.heap[h].stack) && t.heap == a.heap
    ensures Propagated(a, t, pend)
  {
    var u := t.(grayagain := s.grayagain);
    ThreadLists(s, t, h);
    TakenProgress(a, s, u, h, pend);
    ListProgress(a, u, t);
    GrayagainOnly(u, t, [h] + Pend(a, pend));
    ThreadSettled(t, h);
    if a.phase.InsideAtomic? {
      TakenInv(a, s, h, pend);
      Settle(t, pend, h);
    }
    hide MarkInv, Progress, Shrinks, Traversed, HeldSeen, StrongSeen, Settled;
  }

  lemma ThreadSettled(t: State, h: Id)
    requires h in t.heap && t.heap[h].Thread? && SeenAll(t, t.heap[h].stack)
    ensures Settled(t, h) && StrongSeen(t, h)
  {
  }

  lemma GrayagainOnly(s: State, t: State, pend: seq<Id>)
    requires MarkInv(s, pend) && t == s.(grayagain := t.grayagain)
    ensures MarkInv(t, pend)
  {
    hide Settled, Holds, BlackInvariant, GrayList, WellFormed, Allocated, NoneDead;
    ListsOnly(s, t);
    forall x | x in t.color && t.color[x].Gray? && x !in t.fixedgc
      ensures x in t.gray || x in pend || (!t.phase.Propagate? && Settled(t, x))
    {
      if !(x in t.gray || x in pend) {
        SettledSame(s, t, x);
      }
    }
  }

  lemma SettledSame(s: State, t: State, x: Id)
    requires t == s.(grayagain := t.grayagain) && Settled(s, x)
    ensures Settled(t, x)
  {
    if s.heap[x].Table? {
      forall e | e in s.heap[x].entries && e.val != Nil
        ensures EntrySettled(t, x, e)
      {
        assert EntrySettled(s, x, e);
      }
    }
    assert forall v :: Seen(s, v) ==> Seen(t, v);
  }

  lemma ThreadLists(s: State, t: State, h: Id)
    requires Traversed(s.(grayagain := [h] + s.grayagain), t, h)
    ensures Traversed(s, t.(grayagain := s.grayagain), h)
  {
    hide Marks, Closed;
    var s' := s.(grayagain := [h] + s.grayagain);
    var u := t.(grayagain := s.grayagain);
    assert Marked(u) == Marked(t) && Marked(s') == Marked(s);
    forall S: set<Id> | Closed(s, S) && Marked(s) <= S && (forall v :: v in [Ref(h)] ==> In(S, v))
      ensures Marked(u) <= S
    {
      SameClosed(s, s', S);
    }
    assert Marks(s, u, Nil) by {
      MarksLists(s, s', t, u);
    }
  }

  lemma MarksLists(s: State, s': State, t: State, u: State)
    requires s' == s.(grayagain := s'.grayagain) && Marks(s', t, Nil) && u == t.(grayagain := s.grayagain)
    ensures Marks(s, u, Nil)
  {
    ListsOnly(s, s');
    ListsOnly(t, u);
    ListsOnly(s', s);
    forall x ensures NewGray(s, u, x) <==> NewGray(s', t, x) {
    }
    forall x | x in s.color && x in s.heap && s.color[x].White? && u.color[x].Black?
      ensures BlackDone(u, s.heap[x], Nil)
    {
      assert BlackDone(t, s.heap[x], Nil);
    }
    hide BlackDone, GrayList, NewGray, Holds;
  }

  /** The traversal of an ephemeron table is complete: it stays gray, on the list that fits. */
  lemma EphemeronPropagated(a: State, s: State, t: State, m: State, h: Id, pend: seq<Id>, clears: bool, ww: bool, marked: bool)
    requires Taken(a, s, h, pend) && IsEphemeron(a.heap[h])
    requires Traversed(s, t, h) && Seen(t, a.heap[h].meta) && t.heap == a.heap
    requires EphemeronLoop(t, m, h, |a.heap[h].entries|, clears, ww, marked)
    ensures Propagated(a, Relinked(m, h, clears, ww), pend)
  {
    hide MarkInv, Progress, Shrinks, Traversed, StrongSeen, Settled, SeenAll, EntriesVisited, Allocated, OnlyStrings, IsEphemeron;
    var b := Relinked(m, h, clears, ww);
    TakenInv(a, s, h, pend);
    TraversedMore(s, t, m, h);
    TraversedOnly(s, m, h);
    TakenProgress(a, s, m, h, pend);
    ListProgress(a, m, b);
    EphemeronStrong(m, h, clears, ww);
    if a.phase.Propagate? {
      GrayagainOnly(m, b, [h] + Pend(a, pend));
    } else {
      EphemeronSettled(m, h, clears, ww);
      if ww || clears {
        Link(m, b, Pend(a, pend), h);
      } else {
        Settle(m, Pend(a, pend), h);
      }
    }
  }

  lemma EphemeronStrong(m: State, h: Id, clears: bool, ww: bool)
    requires h in m.heap && IsEphemeron(m.heap[h]) && Seen(m, m.heap[h].meta) && SeenAll(m, m.heap[h].arr)
    requires EntriesVisited(m, m.heap[h].entries, |m.heap[h].entries|, clears, ww)
    ensures StrongSeen(m, h)
  {
    forall v | StrongHolds(m.heap, m.heap[h], m.cells, v)
      ensures Seen(m, v)
    {
      if v != m.heap[h].meta && v !in m.heap[h].arr {
        var e :| e in m.heap[h].entries && e.val != Nil && v == e.key && IsStr(m.heap, v);
        assert EntryVisited(m, e, clears, ww);
      }
    }
  }

  lemma EphemeronSettled(m: State, h: Id, clears: bool, ww: bool)
    requires h in m.heap && IsEphemeron(m.heap[h]) && Seen(m, m.heap[h].meta) && SeenAll(m, m.heap[h].arr)
    requires EntriesVisited(m, m.heap[h].entries, |m.heap[h].entries|, clears, ww)
    requires !m.phase.Propagate?
    ensures Settled(Relinked(m, h, clears, ww), h)
  {
    var b := Relinked(m, h, clears, ww);
    assert forall v :: Seen(m, v) ==> Seen(b, v);
    forall e | e in m.heap[h].entries && e.val != Nil
      ensures EntrySettled(b, h, e)
    {
      assert EntryVisited(m, e, clears, ww);
    }
  }

  // ---------- what the kinds of objects hold ----------

  function CellVals(cells: map<CellId, Val>, ups: seq<CellId>): (vs: seq<Val>)
    requires forall c :: c in ups ==> c in cells
    ensures |vs| == |ups| && forall i :: 0 <= i < |ups| ==> vs[i] == cells[ups[i]]
  {
    seq(|ups|, i requires 0 <= i < |ups| => cells[ups[i]])
  }

  // ---------- what a visit does ----------

  ghost predicate EphemeronVisit(s: State, t: State, m: State, b: State, h: Id, clears: bool, ww: bool, marked: bool) {
    && Traversed(s, t, h) && h in t.heap && t.heap[h].Table? && Seen(t, t.heap[h].meta)
    && EphemeronLoop(t, m, h, |t.heap[h].entries|, clears, ww, marked) && b == Relinked(m, h, clears, ww)
  }

  /** `propagatemark`, by the kind of the first gray object: an ephemeron table stays gray, on the list that its
      entries ask for; a thread stays gray, on `grayagain`; any other object turns black with all it holds marked. */
  ghost predicate Visits(a: State, b: State) {
    && a.gray != [] && a.gray[0] in a.heap && a.gray[0] in a.color
    && var h, s := a.gray[0], a.(gray := a.gray[1..]);
       if IsEphemeron(a.heap[h]) then exists t, m, clears, ww, marked :: EphemeronVisit(s, t, m, b, h, clears, ww, marked)
       else if a.heap[h].Thread? then Traversed(s.(grayagain := [h] + s.grayagain), b, h) && SeenAll(b, a.heap[h].stack)
       else Traversed(s.(color := s.color[h := Black]), b, h) && HeldSeen(b, h)
  }

  /** A visit keeps the marking discipline and gets on. */
  lemma VisitPropagated(a: State, b: State, pend: seq<Id>)
    requires MarkInv(a, Pend(a, pend)) && Visits(a, b)
    ensures Propagated(a, b, pend)
  {
    hide MarkInv, Propagated, Traversed, EphemeronLoop, HeldSeen, Seen, SeenAll, Relinked;
    var h, s := a.gray[0], a.(gray := a.gray[1..]);
    StartTraversing(a, pend);
    if IsEphemeron(a.heap[h]) {
      var t, m, clears, ww, marked :| EphemeronVisit(s, t, m, b, h, clears, ww, marked);
      TraversedHeap(s, t, h);
      EphemeronPropagated(a, s, t, m, h, pend, clears, ww, marked);
    } else if a.heap[h].Thread? {
      TraversedHeap(s.(grayagain := [h] + s.grayagain), b, h);
      ThreadPropagated(a, s, b, h, pend);
    } else {
      TraversedHeap(s.(color := s.color[h := Black]), b, h);
      BlackPropagated(a, s, b, h, pend);
    }
  }

  lemma TraversedHeap(a: State, b: State, h: Id)
    requires Traversed(a, b, h)
    ensures b.heap == a.heap
  {
  }

  /** `b` is `a` with its first gray object `h` off the list and black: what a traversal starts from. */
  ghost predicate Traversing(a: State, b: State, h: Id, pend: seq<Id>) {
    && a.gray != [] && Taken(a, a.(gray := a.gray[1..]), h, pend)
    && b == a.(color := a.color[h := Black], gray := a.gray[1..])
  }

  lemma StartTraversing(a: State, pend: seq<Id>)
    requires MarkInv(a, Pend(a, pend)) && a.gray != []
    ensures Taken(a, a.(gray := a.gray[1..]), a.gray[0], pend)
    ensures Traversing(a, a.(color := a.color[a.gray[0] := Black], gray := a.gray[1..]), a.gray[0], pend)
    ensures a.heap[a.gray[0]].Table? || a.heap[a.gray[0]].Closure? || a.heap[a.gray[0]].Thread?
  {
    assert a.gray[0] in a.gray;
  }

  lemma TraversingAllocated(a: State, b: State, h: Id, pend: seq<Id>)
    requires Traversing(a, b, h, pend)
    ensures Allocated(a) && Allocated(a.(gray := a.gray[1..])) && Allocated(b)
    ensures h in a.heap && h in a.color && a.color[h].Gray? && h !in a.gray[1..]
  {
    assert a.gray[0] in a.gray;
    GrayListHead(a, a.gray);
  }

  lemma MetaAllocated(s: State, v: Val)
    requires AllocatedAll(s, [v])
    ensures v.Ref? ==> v.id in s.heap
  {
    assert v in [v];
  }

  lemma MetaTraversed(s: State, t: State, h: Id, meta: Val)
    requires Allocated(t) && Marks(s, t, Nil) && Forced(s, t, [meta]) && h in s.heap && s.heap[h].Table? && s.heap[h].meta == meta
    ensures Traversed(s, t, h)
  {
    assert StrongHolds(s.heap, s.heap[h], s.cells, meta);
    TraversedStrong(s, t, h, [meta]);
  }

  lemma MetaGray(t: State, g: State, h: Id, v: Val)
    requires h in t.color && g == t.(color := t.color[h := Gray]) && Seen(t, v)
    ensures Seen(g, v) && (Allocated(t) ==> Allocated(g))
  {
  }

  lemma TableHeld(t: State, h: Id)
    requires h in t.heap && t.heap[h].Table? && Seen(t, t.heap[h].meta) && SeenAll(t, t.heap[h].arr)
    requires EntriesSeen(t, t.heap[h].entries, |t.heap[h].entries|)
    ensures HeldSeen(t, h)
  {
  }

  lemma ClosureHolds(s: State, h: Id)
    requires Allocated(s) && h in s.heap && s.heap[h].Closure?
    ensures forall c :: c in s.heap[h].upvals ==> c in s.cells
    ensures AllocatedAll(s, s.heap[h].refs) && AllocatedAll(s, CellVals(s.cells, s.heap[h].upvals))
    ensures forall v :: v in s.heap[h].refs ==> StrongHolds(s.heap, s.heap[h], s.cells, v)
    ensures forall v :: v in CellVals(s.cells, s.heap[h].upvals) ==> StrongHolds(s.heap, s.heap[h], s.cells, v)
  {
    var vs := CellVals(s.cells, s.heap[h].upvals);
    forall v | v in s.heap[h].refs || v in vs
      ensures Holds(s.heap[h], s.cells, v) && (v.Ref? ==> v.id in s.heap)
    {
      if v in vs {
        var i :| 0 <= i < |vs| && vs[i] == v;
        assert s.heap[h].upvals[i] in s.heap[h].upvals;
      }
      assert Holds(s.heap[h], s.cells, v);
    }
  }

  lemma ClosureHeld(s: State, t: State, h: Id)
    requires h in t.heap && t.heap[h].Closure? && SeenAll(s, t.heap[h].refs) && Marks(s, t, Nil)
    requires forall c :: c in t.heap[h].upvals ==> c in t.cells
    requires SeenAll(t, CellVals(t.cells, t.heap[h].upvals))
    ensures HeldSeen(t, h)
  {
    hide Marks;
    MarksGrows(s, t, Nil);
    var vs := CellVals(t.cells, t.heap[h].upvals);
    forall v | Holds(t.heap[h], t.cells, v)
      ensures Seen(t, v)
    {
      if v !in t.heap[h].refs {
        var c :| c in t.heap[h].upvals && c in t.cells && t.cells[c] == v;
        var i :| 0 <= i < |vs| && t.heap[h].upvals[i] == c;
        assert vs[i] in vs;
      }
    }
  }

  lemma ThreadBack(a: State, s: State, t: State, h: Id)
    requires h in a.color && a.color[h].Gray? && a.gray != [] && s == a.(gray := a.gray[1..]) && Allocated(a)
    requires t == a.(color := a.color[h := Black][h := Gray], gray := a.gray[1..], grayagain := [h] + a.grayagain)
    ensures t == s.(grayagain := [h] + s.grayagain) && Allocated(t)
  {
    assert a.color[h := Black][h := Gray] == a.color;
  }

  lemma ThreadHolds(s: State, h: Id)
    requires Allocated(s) && h in s.heap && s.heap[h].Thread?
    ensures AllocatedAll(s, s.heap[h].stack)
    ensures forall v :: v in s.heap[h].stack ==> StrongHolds(s.heap, s.heap[h], s.cells, v)
  {
    forall v | v in s.heap[h].stack
      ensures StrongHolds(s.heap, s.heap[h], s.cells, v) && (v.Ref? ==> v.id in s.heap)
    {
      assert Holds(s.heap[h], s.cells, v);
    }
  }
}
