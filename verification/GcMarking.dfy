/** What marking does to the collector state, and what it keeps. */
module GcMarking {
  import opened GcHeap

  /** Every reference of every object, and every root, leads to an allocated object. */
  ghost predicate Allocated(s: State) {
    && s.heap.Keys == s.color.Keys
    && (forall x, v :: x in s.heap && Holds(s.heap[x], s.cells, v) && v.Ref? ==> v.id in s.heap)
    && (forall x, c :: x in s.heap && s.heap[x].Closure? && c in s.heap[x].upvals ==> c in s.cells)
  }

  ghost predicate Traversable(o: Obj) {
    o.Closure? || o.Table? || o.Thread?
  }

  /** `x` turned from white to gray, and so must have been pushed on the gray list. */
  ghost predicate NewGray(a: State, b: State, x: Id) {
    x in a.color && x in b.color && a.color[x].White? && b.color[x].Gray?
  }

  /** `b` is `a` after marking some white objects: only colours and the gray list change, marked
      objects keep their colour, newly gray objects are exactly the ones pushed on the gray list,
      and newly black ones are strings, or userdata whose references are marked (but for `pend`,
      which is about to be). */
  ghost predicate Marks(a: State, b: State, pend: Val) {
    && b == a.(color := b.color, gray := b.gray)
    && b.color.Keys == a.color.Keys
    && (forall x :: x in a.color && !(a.color[x].White? && !b.color[x].White?) ==> b.color[x] == a.color[x])
    && (forall x :: NewGray(a, b, x) ==> x in a.heap && Traversable(a.heap[x]))
    && (forall x :: x in b.gray <==> x in a.gray || NewGray(a, b, x))
    && (GrayList(a, a.gray) ==> GrayList(b, b.gray))
    && ((forall x :: x in a.color ==> b.color[x] == a.color[x]) ==> b.gray == a.gray)
    && (forall x :: x in a.color && x in a.heap && a.color[x].White? && b.color[x].Black? ==> BlackDone(b, a.heap[x], pend))
  }

  ghost predicate BlackDone(b: State, o: Obj, pend: Val) {
    o.Str? || (o.Udata? && (Seen(b, o.meta) || o.meta == pend) && (Seen(b, o.user) || o.user == pend))
  }

  /** Everything marked in `b` but not in `a` is forced: it lies in every closed set that contains
      what `a` has marked and the values `vs`. */
  ghost predicate Forced(a: State, b: State, vs: seq<Val>) {
    forall S: set<Id> :: Closed(a, S) && Marked(a) <= S && (forall v :: v in vs ==> In(S, v)) ==> Marked(b) <= S
  }

  lemma GrayListKept(a: State, b: State, q: seq<Id>)
    requires GrayList(a, q)
    requires b.heap == a.heap && b.color.Keys == a.color.Keys
    requires forall x :: x in q ==> b.color[x] == a.color[x]
    ensures GrayList(b, q)
  {
  }

  lemma MarksRefl(a: State)
    ensures Marks(a, a, Nil)
  {
  }

  lemma MarksTrans(a: State, b: State, c: State)
    requires a.heap.Keys == a.color.Keys
    requires Marks(a, b, Nil) && Marks(b, c, Nil)
    ensures Marks(a, c, Nil)
  {
    forall x | x in a.color && x in a.heap && a.color[x].White? && c.color[x].Black?
      ensures BlackDone(c, a.heap[x], Nil)
    {
      assert b.color[x].Black? ==> BlackDone(b, a.heap[x], Nil);
    }
    forall x | x in c.gray || NewGray(a, c, x)
      ensures x in c.gray && (x in a.gray || NewGray(a, c, x))
    {
      assert NewGray(a, c, x) ==> NewGray(a, b, x) || NewGray(b, c, x);
    }
  }

  /** Marking only grows the marked set. */
  lemma MarksGrows(a: State, b: State, p: Val)
    requires Marks(a, b, p)
    ensures Marked(a) <= Marked(b) && Whites(b) <= Whites(a)
    ensures forall v :: Seen(a, v) ==> Seen(b, v)
    ensures NoneDead(a) ==> NoneDead(b)
  {
  }

  lemma SameClosed(a: State, b: State, S: set<Id>)
    requires b.heap == a.heap && b.cells == a.cells && b.main == a.main && b.running == a.running
    requires b.registry == a.registry && b.mt == a.mt && b.fixedgc == a.fixedgc
    ensures Closed(a, S) <==> Closed(b, S)
  {
  }

  lemma ForcedTrans(a: State, b: State, c: State, vs: seq<Val>)
    requires Marks(a, b, Nil)
    requires Forced(a, b, vs) && Forced(b, c, vs)
    ensures Forced(a, c, vs)
  {
    forall S: set<Id> | Closed(a, S) && Marked(a) <= S && (forall v :: v in vs ==> In(S, v))
      ensures Marked(c) <= S
    {
      SameClosed(a, b, S);
    }
  }

  /** One turn of the `reentry` loop on a userdata: gray, mark its metatable, black; its user
      value stays pending. */
  lemma UdataStep(a: State, s: State, s': State, t: State, u: State, x: Id)
    requires a.heap.Keys == a.color.Keys
    requires Marks(a, s, Ref(x)) && IsWhite(s, x) && x in s.heap && s.heap[x].Udata?
    requires s' == s.(color := s.color[x := Gray])
    requires Marks(s', t, Nil) && Seen(t, s.heap[x].meta)
    requires u == t.(color := t.color[x := Black])
    ensures Marks(a, u, s.heap[x].user)
    ensures Whites(u) < Whites(s)
  {
    UdataGray(a, s, s', t, u, x);
    UdataBlack(a, s, s', t, u, x);
    assert x in Whites(s) && x !in Whites(u);
  }

  lemma UdataGray(a: State, s: State, s': State, t: State, u: State, x: Id)
    requires Marks(a, s, Ref(x)) && IsWhite(s, x) && x in s.heap && s.heap[x].Udata?
    requires s' == s.(color := s.color[x := Gray])
    requires Marks(s', t, Nil)
    requires u == t.(color := t.color[x := Black])
    ensures u.color.Keys == a.color.Keys && u.color[x].Black? && a.color[x].White?
    ensures forall y :: NewGray(a, u, y) <==> NewGray(a, s, y) || NewGray(s', t, y)
    ensures GrayList(a, a.gray) ==> GrayList(u, u.gray)
    ensures forall y :: y in a.color && !(a.color[y].White? && !u.color[y].White?) ==> u.color[y] == a.color[y]
  {
    hide GrayList, BlackDone;
    assert s'.color[x].Gray? && t.color[x].Gray?;
    if GrayList(a, a.gray) {
      UdataList(s, s', t, u, x);
    }
  }

  lemma UdataList(s: State, s': State, t: State, u: State, x: Id)
    requires GrayList(s, s.gray) && IsWhite(s, x) && s' == s.(color := s.color[x := Gray])
    requires Marks(s', t, Nil) && u == t.(color := t.color[x := Black])
    ensures GrayList(u, u.gray)
  {
    GrayListKept(s, s', s.gray);
    assert x !in t.gray by {
      assert x in t.gray ==> x in s'.gray || NewGray(s', t, x);
    }
    GrayListKept(t, u, t.gray);
  }

  /** Loop invariant of the marking of `o`: `x` is the object that the loop has yet to mark. */
  ghost predicate Reentry(a: State, s: State, o: Id, x: Id, more: bool) {
    && Marks(a, s, if more then Ref(x) else Nil)
    && (more ==> IsWhite(s, x))
    && (if more && x == o then s == a else Seen(s, Ref(o)) && Whites(s) < Whites(a))
    && (o in a.heap && a.heap[o].Str? ==> if more then x == o && s == a else s == a.(color := a.color[o := Black]))
    && ReentryForced(a, s, o, x, more)
  }

  ghost predicate ReentryForced(a: State, s: State, o: Id, x: Id, more: bool) {
    forall S: set<Id> :: Closed(a, S) && Marked(a) <= S && o in S ==> Marked(s) <= S && (more ==> x in S)
  }

  lemma ReentryNext(a: State, s: State, o: Id, x: Id)
    requires Allocated(s) && Reentry(a, s, o, x, true)
    ensures x in s.color && s.color[x].White? && x in s.heap
    ensures Whites(s) <= Whites(a)
  {
  }

  lemma UdataNext(s: State, s': State, x: Id)
    requires Allocated(s) && IsWhite(s, x) && x in s.heap && s.heap[x].Udata?
    requires s' == s.(color := s.color[x := Gray])
    ensures s.heap[x].meta.Ref? ==> s.heap[x].meta.id in s.heap
    ensures s.heap[x].user.Ref? ==> s.heap[x].user.id in s.heap
    ensures Allocated(s') && Whites(s') < Whites(s)
  {
    assert Holds(s.heap[x], s.cells, s.heap[x].meta);
    assert Holds(s.heap[x], s.cells, s.heap[x].user);
    assert x in Whites(s) && x !in Whites(s');
  }

  lemma ReentryStart(a: State, o: Id)
    requires Allocated(a) && IsWhite(a, o)
    ensures Reentry(a, a, o, o, true)
  {
  }

  lemma ReentryEnd(a: State, s: State, o: Id, x: Id)
    requires Allocated(a) && IsWhite(a, o) && Reentry(a, s, o, x, false)
    ensures Marks(a, s, Nil) && Forced(a, s, [Ref(o)])
    ensures Seen(s, Ref(o)) && Whites(s) < Whites(a)
    ensures o in a.heap && (a.heap[o].Str? ==> s == a.(color := a.color[o := Black]))
  {
    forall S: set<Id> | Closed(a, S) && Marked(a) <= S && (forall v :: v in [Ref(o)] ==> In(S, v))
      ensures Marked(s) <= S
    {
      assert Ref(o) in [Ref(o)];
    }
  }

  lemma ReentryLeaf(a: State, s: State, t: State, o: Id, x: Id)
    requires Allocated(a) && Reentry(a, s, o, x, true) && x in s.heap && !s.heap[x].Udata?
    requires t == if s.heap[x].Str? then s.(color := s.color[x := Black])
                  else s.(color := s.color[x := Gray], gray := [x] + s.gray)
    ensures Reentry(a, t, o, x, false)
    ensures Allocated(s) ==> Allocated(t)
    ensures Whites(t) < Whites(s)
  {
    hide Marks;
    LeafMarks(a, s, t, x);
    assert x in Whites(s) && x !in Whites(t);
    assert Marked(t) <= Marked(s) + {x};
  }

  lemma LeafMarks(a: State, s: State, t: State, x: Id)
    requires a.heap.Keys == a.color.Keys
    requires Marks(a, s, Ref(x)) && IsWhite(s, x) && x in s.heap && !s.heap[x].Udata?
    requires t == if s.heap[x].Str? then s.(color := s.color[x := Black])
                  else s.(color := s.color[x := Gray], gray := [x] + s.gray)
    ensures Marks(a, t, Nil)
  {
    hide GrayList;
    LeafGray(a, s, t, x);
    forall y | y in a.color && y in a.heap && a.color[y].White? && t.color[y].Black?
      ensures BlackDone(t, a.heap[y], Nil)
    {
      if y != x {
        LeafOther(a, s, t, x, y);
      }
    }
    hide BlackDone, NewGray;
  }

  lemma LeafOther(a: State, s: State, t: State, x: Id, y: Id)
    requires Marks(a, s, Ref(x)) && IsWhite(s, x) && x in s.heap && y != x
    requires t.color == s.color[x := if s.heap[x].Str? then Black else Gray]
    requires y in a.color && y in a.heap && a.color[y].White? && t.color[y].Black?
    ensures BlackDone(t, a.heap[y], Nil)
  {
    hide GrayList, NewGray;
    assert BlackDone(s, a.heap[y], Ref(x));
  }

  lemma LeafGray(a: State, s: State, t: State, x: Id)
    requires a.heap.Keys == a.color.Keys
    requires Marks(a, s, Ref(x)) && IsWhite(s, x) && x in s.heap && !s.heap[x].Udata?
    requires t == if s.heap[x].Str? then s.(color := s.color[x := Black])
                  else s.(color := s.color[x := Gray], gray := [x] + s.gray)
    ensures GrayList(a, a.gray) ==> GrayList(t, t.gray)
  {
    if GrayList(a, a.gray) {
      assert GrayList(s, s.gray) && x !in s.gray;
      GrayListKept(s, t, s.gray);
    }
  }

  lemma ReentryUdata(a: State, s: State, s': State, t: State, u: State, o: Id, x: Id, more: bool)
    requires Allocated(a)
    requires Reentry(a, s, o, x, true) && x in s.heap && s.heap[x].Udata?
    requires s' == s.(color := s.color[x := Gray])
    requires Marks(s', t, Nil) && Seen(t, s.heap[x].meta) && Forced(s', t, [s.heap[x].meta])
    requires u == t.(color := t.color[x := Black])
    requires more == (s.heap[x].user.Ref? && IsWhite(u, s.heap[x].user.id))
    requires s.heap[x].user.Ref? ==> s.heap[x].user.id in s.heap
    ensures Reentry(a, u, o, if more then s.heap[x].user.id else x, more)
    ensures Allocated(s) ==> Allocated(u)
    ensures Whites(u) < Whites(s)
  {
    hide Marks, ReentryForced, Forced, Allocated;
    ReentryState(a, s, o, x);
    UdataStep(a, s, s', t, u, x);
    UdataSeen(a, s, s', t, u, o, x);
    UdataKept(s, s', t, u, x);
    UdataForced(a, s, s', t, u, o, x, more);
    UdataPending(a, s, u, x, more);
  }

  lemma ReentryState(a: State, s: State, o: Id, x: Id)
    requires Allocated(a) && Reentry(a, s, o, x, true)
    ensures a.heap.Keys == a.color.Keys == s.color.Keys && s == a.(color := s.color, gray := s.gray)
  {
  }

  lemma UdataPending(a: State, s: State, u: State, x: Id, more: bool)
    requires x in s.heap && s.heap[x].Udata? && Marks(a, u, s.heap[x].user)
    requires more == (s.heap[x].user.Ref? && IsWhite(u, s.heap[x].user.id))
    requires s.heap[x].user.Ref? ==> s.heap[x].user.id in u.color
    ensures more ==> s.heap[x].user == Ref(s.heap[x].user.id)
    ensures !more ==> Marks(a, u, Nil)
  {
    if !more {
      PendingSeen(a, u, s.heap[x].user);
    }
  }

  lemma UdataKept(s: State, s': State, t: State, u: State, x: Id)
    requires IsWhite(s, x) && s' == s.(color := s.color[x := Gray])
    requires Marks(s', t, Nil)
    requires u == t.(color := t.color[x := Black])
    ensures Marked(u) == Marked(t) && (Allocated(s) ==> Allocated(u))
  {
    assert s'.color[x].Gray? && t.color[x].Gray?;
  }

  lemma UdataSeen(a: State, s: State, s': State, t: State, u: State, o: Id, x: Id)
    requires if x == o then s == a else Seen(s, Ref(o)) && Whites(s) < Whites(a)
    requires IsWhite(s, x) && s' == s.(color := s.color[x := Gray])
    requires Marks(s', t, Nil)
    requires u == t.(color := t.color[x := Black])
    ensures Seen(u, Ref(o))
  {
    if x != o {
      assert !s'.color[o].White?;
    }
  }

  lemma PendingSeen(a: State, u: State, p: Val)
    requires Marks(a, u, p) && Seen(u, p)
    ensures Marks(a, u, Nil)
  {
    forall y | y in a.color && y in a.heap && a.color[y].White? && u.color[y].Black?
      ensures BlackDone(u, a.heap[y], Nil)
    {
      assert BlackDone(u, a.heap[y], p);
    }
  }

  lemma UdataForced(a: State, s: State, s': State, t: State, u: State, o: Id, x: Id, more: bool)
    requires s == a.(color := s.color, gray := s.gray) && x in s.color && x in s.heap && s.heap[x].Udata?
    requires ReentryForced(a, s, o, x, true)
    requires s' == s.(color := s.color[x := Gray])
    requires Forced(s', t, [s.heap[x].meta]) && Marked(u) == Marked(t)
    requires more ==> s.heap[x].user.Ref?
    ensures ReentryForced(a, u, o, if more then s.heap[x].user.id else x, more)
  {
    assert Marked(s') <= Marked(s) + {x};
    forall S: set<Id> | Closed(a, S) && Marked(a) <= S && o in S
      ensures Marked(u) <= S && (more ==> s.heap[x].user.id in S)
    {
      assert x in S && Marked(s) <= S;
      assert StrongHolds(a.heap, a.heap[x], a.cells, s.heap[x].meta);
      assert StrongHolds(a.heap, a.heap[x], a.cells, s.heap[x].user);
      assert In(S, a.heap[x].user);
      SameClosed(a, s', S);
    }
  }

  lemma UdataBlack(a: State, s: State, s': State, t: State, u: State, x: Id)
    requires a.heap.Keys == a.color.Keys
    requires Marks(a, s, Ref(x)) && IsWhite(s, x) && x in s.heap && s.heap[x].Udata?
    requires s' == s.(color := s.color[x := Gray])
    requires Marks(s', t, Nil) && Seen(t, s.heap[x].meta)
    requires u == t.(color := t.color[x := Black])
    ensures forall y :: y in a.color && y in a.heap && a.color[y].White? && u.color[y].Black? ==> BlackDone(u, a.heap[y], s.heap[x].user)
  {
    hide GrayList, NewGray;
    forall y | y in a.color && y in a.heap && a.color[y].White? && u.color[y].Black?
      ensures BlackDone(u, a.heap[y], s.heap[x].user)
    {
      if y != x {
        UdataOther(a, s, s', t, u, x, y);
      }
    }
  }

  lemma UdataOther(a: State, s: State, s': State, t: State, u: State, x: Id, y: Id)
    requires Marks(a, s, Ref(x)) && IsWhite(s, x) && x in s.heap
    requires s' == s.(color := s.color[x := Gray])
    requires Marks(s', t, Nil)
    requires u == t.(color := t.color[x := Black]) && y != x
    requires y in a.color && y in a.heap && a.color[y].White? && u.color[y].Black?
    ensures BlackDone(u, a.heap[y], Nil)
  {
    hide GrayList, NewGray;
    if s.color[y].Black? {
      assert BlackDone(s, a.heap[y], Ref(x));
    } else {
      assert BlackDone(t, a.heap[y], Nil);
    }
  }

  ghost predicate SeenAll(s: State, vs: seq<Val>) {
    forall v :: v in vs ==> Seen(s, v)
  }

  /** The values that an object holds all lead to allocated objects. */
  ghost predicate AllocatedAll(s: State, vs: seq<Val>) {
    forall v :: v in vs && v.Ref? ==> v.id in s.heap
  }

  lemma MarkAllStep(a: State, s: State, t: State, vs: seq<Val>, i: nat)
    requires Allocated(a) && Marks(a, s, Nil) && Marks(s, t, Nil) && i < |vs|
    requires Forced(a, s, vs) && Forced(s, t, [vs[i]])
    requires SeenAll(s, vs[..i]) && Seen(t, vs[i])
    ensures Marks(a, t, Nil) && Forced(a, t, vs) && SeenAll(t, vs[..i + 1])
  {
    hide Marks, Forced;
    MarksTrans(a, s, t);
    ForcedWeaken(s, t, vs, i);
    ForcedTrans(a, s, t, vs);
    MarksGrows(s, t, Nil);
    assert vs[..i + 1] == vs[..i] + [vs[i]];
  }

  lemma ForcedWeaken(s: State, t: State, vs: seq<Val>, i: nat)
    requires i < |vs| && Forced(s, t, [vs[i]])
    ensures Forced(s, t, vs)
  {
    forall S: set<Id> | Closed(s, S) && Marked(s) <= S && (forall v :: v in vs ==> In(S, v))
      ensures Marked(t) <= S
    {
      assert vs[i] in vs;
      assert forall v :: v in [vs[i]] ==> In(S, v);
    }
  }

  lemma ForcedRefl(s: State, vs: seq<Val>)
    ensures Forced(s, s, vs)
  {
  }

  // ---------- accounting for gray objects ----------

  /** The key can be cleared from a weak table: an unmarked object that is not a string. */
  predicate Clearable(s: State, k: Val) {
    k.Ref? && k.id in s.heap && !s.heap[k.id].Str? && IsWhite(s, k.id)
  }

  /** A gray object that needs no further visit, given the weak lists it is on. An ephemeron table
      on `ephemeron` may still hold entries with unmarked keys and values. */
  ghost predicate Settled(s: State, x: Id) {
    x in s.heap && match s.heap[x]
      case Thread(stk) => forall v :: v in stk ==> Seen(s, v)
      case Table(m, arr, es, _) =>
        && Seen(s, m)
        && (forall v :: v in arr ==> Seen(s, v))
        && (forall e :: e in es && e.val != Nil ==> EntrySettled(s, x, e))
      case _ => false
  }

  ghost predicate EntrySettled(s: State, x: Id, e: Entry) {
    && (IsStr(s.heap, e.key) ==> Seen(s, e.key))
    && (x in s.ephemeron || (Seen(s, e.val) && (x in s.allweak || Seen(s, e.key))))
  }

  /** What holds while gray objects are being traversed; `pend` is the list of gray objects kept for
      a second visit (`grayagain`, or what is left of it inside the atomic step). */
  ghost predicate MarkInv(s: State, pend: seq<Id>) {
    && WellFormed(s) && Allocated(s) && NoneDead(s) && BlackInvariant(s)
    && GrayList(s, s.gray) && GrayList(s, pend) && GrayList(s, s.ephemeron) && GrayList(s, s.allweak)
    && Disjoint(s.gray, pend) && Disjoint(s.gray, s.ephemeron) && Disjoint(s.gray, s.allweak)
    && Disjoint(pend, s.ephemeron) && Disjoint(pend, s.allweak) && Disjoint(s.ephemeron, s.allweak)
    && (forall x :: x in s.ephemeron || x in s.allweak ==> IsEphemeron(s.heap[x]))
    && (forall x :: x in s.color && s.color[x].Gray? && x !in s.fixedgc ==>
          x in s.gray || x in pend || (!s.phase.Propagate? && Settled(s, x)))
  }

  lemma SettledKept(a: State, b: State, x: Id)
    requires b == a.(color := b.color, gray := b.gray, ephemeron := b.ephemeron, allweak := b.allweak)
    requires forall v :: Seen(a, v) ==> Seen(b, v)
    requires x in a.ephemeron ==> x in b.ephemeron
    requires x in a.allweak ==> x in b.allweak || x in b.ephemeron
    requires Settled(a, x)
    ensures Settled(b, x)
  {
    if a.heap[x].Table? {
      forall e | e in a.heap[x].entries && e.val != Nil
        ensures EntrySettled(b, x, e)
      {
        assert EntrySettled(a, x, e);
      }
    }
  }

  /** Marking keeps the accounting. */
  lemma MarksKeepInv(a: State, b: State, pend: seq<Id>)
    requires MarkInv(a, pend) && Marks(a, b, Nil)
    ensures MarkInv(b, pend)
  {
    MarksGrows(a, b, Nil);
    MarksKeepBlack(a, b);
    MarksKeepLists(a, b, pend);
    MarksKeepWellFormed(a, b);
    forall x | x in b.color && b.color[x].Gray? && x !in b.fixedgc
      ensures x in b.gray || x in pend || (!b.phase.Propagate? && Settled(b, x))
    {
      if a.color[x].White? {
        assert NewGray(a, b, x);
      } else if !(x in a.gray || x in pend) {
        SettledKept(a, b, x);
      }
    }
  }

  lemma MarksKeepWellFormed(a: State, b: State)
    requires WellFormed(a) && Marks(a, b, Nil)
    ensures WellFormed(b)
  {
    forall x | x in b.heap && b.heap[x].Thread?
      ensures !b.color[x].Black?
    {
      assert a.color[x].White? && b.color[x].Black? ==> BlackDone(b, a.heap[x], Nil);
    }
  }

  lemma MarksKeepLists(a: State, b: State, pend: seq<Id>)
    requires MarkInv(a, pend) && Marks(a, b, Nil)
    ensures GrayList(b, b.gray) && GrayList(b, pend) && GrayList(b, b.ephemeron) && GrayList(b, b.allweak)
    ensures Disjoint(b.gray, pend) && Disjoint(b.gray, b.ephemeron) && Disjoint(b.gray, b.allweak)
  {
    GrayListKept(a, b, pend);
    GrayListKept(a, b, b.ephemeron);
    GrayListKept(a, b, b.allweak);
  }

  lemma MarksKeepBlack(a: State, b: State)
    requires a.heap.Keys == a.color.Keys
    requires BlackInvariant(a) && Marks(a, b, Nil)
    ensures BlackInvariant(b)
  {
    forall x, v | x in b.heap && x in b.color && b.color[x].Black? && Holds(b.heap[x], b.cells, v)
      ensures Seen(b, v)
    {
      if a.color[x].Black? {
        assert Seen(a, v);
      } else {
        assert BlackDone(b, a.heap[x], Nil);
      }
    }
  }
}
