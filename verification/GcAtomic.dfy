/** The atomic step: convergence of the ephemeron tables and clearing of their dead keys. */
module GcAtomic {
  import opened GcHeap
  import opened GcMarking
  import opened GcTraversal
  import opened GcAccounting

  lemma ProgressRefl(a: State)
    ensures Progress(a, a)
  {
  }

  lemma ProgressTrans(a: State, b: State, c: State)
    requires Progress(a, b) && Progress(b, c)
    ensures Progress(a, c)
  {
    hide Closed;
    forall S: set<Id> | Closed(a, S) && Marked(a) <= S && (forall v :: v in [] ==> In(S, v))
      ensures Marked(c) <= S
    {
      SameClosed(a, b, S);
    }
  }

  lemma ProgressWhites(a: State, b: State)
    requires Progress(a, b)
    ensures Whites(b) <= Whites(a)
    ensures forall v :: Seen(a, v) ==> Seen(b, v)
  {
    hide Closed;
    forall x | x in Whites(b)
      ensures x in Whites(a)
    {
      assert x !in Marked(b);
    }
    forall v | Seen(a, v)
      ensures Seen(b, v)
    {
      assert v.Ref? ==> v.id in Marked(a);
    }
  }

  lemma PropagatedStep(a: State, s: State, t: State, pend: seq<Id>)
    requires Progress(a, s) && Propagated(s, t, pend)
    ensures Progress(a, t) && MarkInv(t, Pend(t, pend))
    ensures Whites(t) < Whites(s) || (Whites(t) == Whites(s) && |t.gray| < |s.gray|)
    ensures t.phase == s.phase
  {
    hide MarkInv;
    ProgressTrans(a, s, t);
  }

  // ---------- ephemeron convergence ----------

  /** The entries of every table on `ephemeron` need no more propagation. */
  ghost predicate RoundFinal(s: State) {
    forall x :: x in s.ephemeron ==> TableFinal(s, x)
  }

  ghost predicate TableFinal(s: State, x: Id) {
    x in s.heap && s.heap[x].Table? && EntriesFinal(s, s.heap[x].entries, |s.heap[x].entries|)
  }

  /** The tables still to be visited in this round. */
  ghost predicate RoundTables(s: State, next: seq<Id>) {
    forall x :: x in next ==> x in s.heap && IsEphemeron(s.heap[x]) && Seen(s, s.heap[x].meta)
  }

  lemma RoundStart(s: State)
    requires MarkInv(s, []) && s.phase.InsideAtomic?
    ensures MarkInv(s.(ephemeron := []), s.ephemeron)
    ensures RoundTables(s.(ephemeron := []), s.ephemeron)
    ensures RoundFinal(s.(ephemeron := []))
  {
    var b := s.(ephemeron := []);
    ListsOnly(s, b);
    forall x | x in b.color && b.color[x].Gray? && x !in b.fixedgc
      ensures x in b.gray || x in s.ephemeron || (!b.phase.Propagate? && Settled(b, x))
    {
      if !(x in s.gray || x in s.ephemeron) {
        SettledWithout(s, b, x);
      }
    }
    forall x | x in s.ephemeron
      ensures Seen(b, s.heap[x].meta)
    {
      assert x !in s.gray && x !in s.fixedgc by {
        assert s.heap[x].Table?;
      }
      assert Settled(s, x);
    }
    hide Holds, BlackInvariant, GrayList, Allocated, NoneDead;
  }

  lemma SettledWithout(s: State, b: State, x: Id)
    requires b == s.(ephemeron := []) && Settled(s, x) && x !in s.ephemeron
    ensures Settled(b, x)
  {
    assert forall v :: Seen(s, v) ==> Seen(b, v);
    if s.heap[x].Table? {
      forall e | e in s.heap[x].entries && e.val != Nil
        ensures EntrySettled(b, x, e)
      {
        assert EntrySettled(s, x, e);
      }
    }
  }

  /** One table of the round has been traversed. */
  lemma RoundVisit(s: State, m: State, b: State, next: seq<Id>, w: Id, clears: bool, ww: bool, marked: bool)
    requires MarkInv(s, next) && next != [] && w == next[0] && s.phase.InsideAtomic?
    requires w in s.heap && IsEphemeron(s.heap[w]) && Seen(s, s.heap[w].meta)
    requires EphemeronLoop(s, m, w, |s.heap[w].entries|, clears, ww, marked) && b == Relinked(m, w, clears, ww)
    requires Traversed(s, m, w) && m.heap == s.heap
    ensures MarkInv(b, next[1..])
  {
    hide MarkInv, Settled, Holds, BlackInvariant, GrayList, Traversed, EntriesVisited, SeenAll, OnlyStrings, Allocated;
    var rest := next[1..];
    assert next == [w] + rest;
    PendHead(s, next);
    TraversedKeepInv(s, m, w, next);
    EphemeronSettled(m, w, clears, ww);
    if ww || clears {
      Link(m, b, rest, w);
    } else {
      Settle(m, rest, w);
    }
  }

  lemma PendHead(s: State, next: seq<Id>)
    requires MarkInv(s, next) && next != []
    ensures next[0] !in next[1..]
  {
    hide Holds, Settled;
    GrayListHead(s, next);
  }

  lemma TraversedKeepInv(s: State, m: State, w: Id, next: seq<Id>)
    requires MarkInv(s, next) && Traversed(s, m, w)
    ensures MarkInv(m, next) && m.phase == s.phase && forall v :: Seen(s, v) ==> Seen(m, v)
  {
    hide MarkInv, Seen, Allocated;
    MarksKeepInv(s, m, next);
    MarksGrows(s, m, Nil);
  }

  lemma VisitProgress(a: State, s: State, m: State, b: State, w: Id, clears: bool, ww: bool)
    requires Progress(a, s) && Traversed(s, m, w) && b == Relinked(m, w, clears, ww)
    requires w in s.color && s.color[w].Gray?
    ensures Progress(a, b) && Progress(s, b) && b.heap == s.heap && b.phase == s.phase
    ensures Whites(b) == Whites(m)
  {
    MarksGrows(s, m, Nil);
    assert Marked(b) == Marked(m);
    forall S: set<Id> | Closed(s, S) && Marked(s) <= S && (forall v :: v in [] ==> In(S, v))
      ensures Marked(b) <= S
    {
      assert w in Marked(s);
      assert forall v :: v in [Ref(w)] ==> In(S, v);
    }
    assert Progress(s, b) by {
      hide Closed, Allocated;
    }
    ProgressTrans(a, s, b);
    hide Closed, Marks, Allocated;
  }

  lemma VisitFinal(s: State, m: State, b: State, w: Id, clears: bool, ww: bool)
    requires RoundFinal(s) && w in s.heap && IsEphemeron(s.heap[w])
    requires EphemeronLoop(s, m, w, |s.heap[w].entries|, clears, ww, false) && b == Relinked(m, w, clears, ww)
    requires Marks(s, m, Nil) && s.gray == [] && !s.phase.Propagate?
    ensures RoundFinal(b) && b.gray == []
  {
    MarksGrows(s, m, Nil);
    OnlyStringsGray(s, m);
    forall x | x in b.ephemeron
      ensures TableFinal(b, x)
    {
      if x in s.ephemeron {
        assert TableFinal(s, x);
        FinalKept(s, m, s.heap[x].entries, |s.heap[x].entries|);
      }
      FinalLists(m, b, m.heap[x].entries);
    }
    hide Marks, Traversed, OnlyStrings, Seen, Clearable;
  }

  lemma FinalLists(m: State, b: State, es: seq<Entry>)
    requires b == m.(grayagain := b.grayagain, ephemeron := b.ephemeron, allweak := b.allweak)
    requires EntriesFinal(m, es, |es|)
    ensures EntriesFinal(b, es, |es|)
  {
    FinalKept(m, b, es, |es|);
  }

  lemma RoundTablesKept(s: State, t: State, next: seq<Id>)
    requires RoundTables(s, next) && next != [] && t.heap == s.heap && (forall v :: Seen(s, v) ==> Seen(t, v))
    ensures RoundTables(t, next[1..])
  {
    hide Seen;
    assert forall x :: x in next[1..] ==> x in next;
  }

  /** Once nothing is left on the gray lists and the last round has marked nothing, the marked
      objects are closed under reachability. */
  lemma ConvergedClosed(s: State)
    requires MarkInv(s, []) && s.gray == [] && s.phase.InsideAtomic? && RoundFinal(s)
    requires Seen(s, Ref(s.main)) && Seen(s, Ref(s.running)) && Seen(s, s.registry) && SeenAll(s, s.mt)
    ensures Closed(s, Marked(s))
  {
    hide MarkInv, StrongHolds;
    forall x, v | x in Marked(s) && x in s.heap && StrongHolds(s.heap, s.heap[x], s.cells, v)
      ensures In(Marked(s), v)
    {
      MarkedStrong(s, x, v);
    }
    forall x, e | x in Marked(s) && x in s.heap && EphemeronEntry(s.heap[x], e) && In(Marked(s), e.key)
      ensures In(Marked(s), e.val)
    {
      MarkedEntry(s, x, e);
    }
    assert WellFormed(s) by {
      MarkInvWF(s);
    }
  }

  lemma MarkInvWF(s: State)
    requires MarkInv(s, [])
    ensures WellFormed(s)
  {
  }

  lemma MarkedStrong(s: State, x: Id, v: Val)
    requires MarkInv(s, []) && s.gray == [] && x in Marked(s) && x in s.heap
    requires StrongHolds(s.heap, s.heap[x], s.cells, v)
    ensures Seen(s, v)
  {
    if s.color[x].Black? {
      assert Holds(s.heap[x], s.cells, v);
    } else if x in s.fixedgc {
    } else {
      SettledStrong(s, x, v);
    }
  }

  lemma SettledStrong(s: State, x: Id, v: Val)
    requires Settled(s, x) && StrongHolds(s.heap, s.heap[x], s.cells, v)
    requires x in s.ephemeron || x in s.allweak ==> IsEphemeron(s.heap[x])
    ensures Seen(s, v)
  {
    if s.heap[x].Table? && v != s.heap[x].meta && v !in s.heap[x].arr {
      var e :| e in s.heap[x].entries && e.val != Nil && (v == e.key || v == e.val) && (IsEphemeron(s.heap[x]) ==> v == e.key && IsStr(s.heap, v));
      assert EntrySettled(s, x, e);
    }
  }

  lemma MarkedEntry(s: State, x: Id, e: Entry)
    requires MarkInv(s, []) && s.gray == [] && RoundFinal(s) && x in Marked(s) && x in s.heap
    requires EphemeronEntry(s.heap[x], e) && In(Marked(s), e.key)
    ensures Seen(s, e.val)
  {
    if s.color[x].Black? {
      assert Holds(s.heap[x], s.cells, e.val);
    } else {
      assert Settled(s, x);
      assert EntrySettled(s, x, e);
      if x in s.ephemeron {
        assert TableFinal(s, x);
        var j :| 0 <= j < |s.heap[x].entries| && s.heap[x].entries[j] == e;
        assert EntryFinal(s, s.heap[x].entries[j]);
      }
    }
  }

  lemma RoundProgress(a: State, r: State, s: State)
    requires Progress(a, r) && s == r.(ephemeron := [])
    ensures Progress(a, s) && Whites(s) <= Whites(r)
  {
    hide Closed;
    assert Marked(s) == Marked(r);
  }

  lemma RoundTable(s: State, next: seq<Id>)
    requires MarkInv(s, next) && RoundTables(s, next) && next != []
    ensures next[0] in s.heap && IsEphemeron(s.heap[next[0]]) && Seen(s, s.heap[next[0]].meta)
    ensures Allocated(s) && next[0] in s.color && s.color[next[0]].Gray?
  {
    assert next[0] in next;
  }

  lemma LoopTraversed(s: State, m: State, w: Id, clears: bool, ww: bool, marked: bool)
    requires w in s.heap && IsEphemeron(s.heap[w])
    requires EphemeronLoop(s, m, w, |s.heap[w].entries|, clears, ww, marked)
    ensures Traversed(s, m, w) && m.heap == s.heap && Marks(s, m, Nil)
    ensures marked ==> Whites(m) < Whites(s)
  {
  }

  lemma OnlyStringsLoop(s: State, m: State, w: Id, clears: bool, ww: bool)
    requires w in s.heap && IsEphemeron(s.heap[w]) && s.gray == []
    requires EphemeronLoop(s, m, w, |s.heap[w].entries|, clears, ww, false)
    ensures m.gray == []
  {
    OnlyStringsGray(s, m);
  }

  lemma TablesKept(s: State, t: State, next: seq<Id>)
    requires RoundTables(s, next) && t.heap == s.heap && (forall v :: Seen(s, v) ==> Seen(t, v))
    ensures RoundTables(t, next)
  {
    hide Seen;
  }

  // ---------- clearing dead keys ----------

  /** The entry after clearing: a clearable key loses its value, and with it its place in the map. */
  function ClearedEntry(s: State, e: Entry): Entry {
    if e.val != Nil && Clearable(s, e.key) then Entry(e.key, Nil) else e
  }

  function ClearedEntries(s: State, es: seq<Entry>, n: nat): (r: seq<Entry>)
    ensures |r| == |es|
  {
    seq(|es|, i requires 0 <= i < |es| => if i < n then ClearedEntry(s, es[i]) else es[i])
  }

  function ClearedObj(s: State, o: Obj): Obj {
    if o.Table? then o.(entries := ClearedEntries(s, o.entries, |o.entries|)) else o
  }

  /** The heap with the tables of list `q` cleared. */
  function ClearedHeap(s: State, q: seq<Id>): (h: map<Id, Obj>)
    ensures h.Keys == s.heap.Keys
  {
    map x | x in s.heap :: if x in q then ClearedObj(s, s.heap[x]) else s.heap[x]
  }

  /** The heap with every marked table cleared. */
  ghost function ClearedMarked(s: State): (h: map<Id, Obj>)
    ensures h.Keys == s.heap.Keys
  {
    map x | x in s.heap :: if x in Marked(s) then ClearedObj(s, s.heap[x]) else s.heap[x]
  }

  /** The string keys of the tables in `q` are marked, so that checking them marks nothing. */
  ghost predicate StringKeysSeen(s: State, q: seq<Id>) {
    forall x, e :: x in q && x in s.heap && s.heap[x].Table? && e in s.heap[x].entries && e.val != Nil && IsStr(s.heap, e.key) ==> Seen(s, e.key)
  }

  lemma ClearedSettled(s: State, x: Id)
    requires x in s.heap && s.heap[x].Table? && x !in s.ephemeron && x !in s.allweak && Settled(s, x)
    ensures ClearedObj(s, s.heap[x]) == s.heap[x]
  {
    var es := s.heap[x].entries;
    forall i | 0 <= i < |es|
      ensures ClearedEntry(s, es[i]) == es[i]
    {
      if es[i].val != Nil {
        assert EntrySettled(s, x, es[i]);
      }
    }
    assert ClearedEntries(s, es, |es|) == es;
  }

  lemma ClearedBlack(s: State, x: Id)
    requires x in s.heap && s.heap[x].Table? && HeldSeen(s, x)
    ensures ClearedObj(s, s.heap[x]) == s.heap[x]
  {
    var es := s.heap[x].entries;
    forall i | 0 <= i < |es|
      ensures ClearedEntry(s, es[i]) == es[i]
    {
      if es[i].val != Nil {
        assert Holds(s.heap[x], s.cells, es[i].key);
      }
    }
    assert ClearedEntries(s, es, |es|) == es;
  }

  /** Clearing the two weak lists clears every marked table. */
  lemma ListsSuffice(s: State, h: map<Id, Obj>)
    requires MarkInv(s, []) && s.gray == []
    requires h.Keys == s.heap.Keys
    requires forall x :: x in s.heap ==>
      h[x] == if x in s.ephemeron || x in s.allweak then ClearedObj(s, s.heap[x]) else s.heap[x]
    ensures h == ClearedMarked(s)
  {
    forall x | x in s.heap
      ensures h[x] == ClearedMarked(s)[x]
    {
      if x in s.ephemeron || x in s.allweak {
        assert x in Marked(s);
      } else if x in Marked(s) && s.heap[x].Table? {
        if s.color[x].Black? {
          ClearedBlack(s, x);
        } else {
          assert x !in s.fixedgc;
          ClearedSettled(s, x);
        }
      }
    }
    hide Holds, Settled, ClearedObj, GrayList;
  }

  // ---------- clearing in place ----------

  /** The state after clearing the first `n` entries of table `h`. */
  ghost function PartCleared(a: State, h: Id, n: nat): State
    requires h in a.heap && a.heap[h].Table?
  {
    a.(heap := a.heap[h := a.heap[h].(entries := ClearedEntries(a, a.heap[h].entries, n))])
  }

  lemma ClearStart(a: State, h: Id)
    requires h in a.heap && a.heap[h].Table?
    ensures PartCleared(a, h, 0) == a
  {
    assert ClearedEntries(a, a.heap[h].entries, 0) == a.heap[h].entries;
  }

  lemma PartHolds(a: State, o: Obj, n: nat, v: Val)
    requires o.Table? && Holds(o.(entries := ClearedEntries(a, o.entries, n)), a.cells, v)
    ensures Holds(o, a.cells, v)
  {
    if v != o.meta && v !in o.arr {
      var es := ClearedEntries(a, o.entries, n);
      var j :| 0 <= j < |es| && es[j].val != Nil && (v == es[j].key || v == es[j].val);
      assert o.entries[j] in o.entries;
    }
  }

  lemma PartAllocated(a: State, h: Id, n: nat)
    requires Allocated(a) && h in a.heap && a.heap[h].Table?
    ensures Allocated(PartCleared(a, h, n))
  {
    hide Holds;
    var b := PartCleared(a, h, n);
    forall x, v | x in b.heap && Holds(b.heap[x], b.cells, v) && v.Ref?
      ensures v.id in b.heap
    {
      if x == h {
        PartHolds(a, a.heap[h], n, v);
      }
      assert Holds(a.heap[x], a.cells, v);
    }
  }

  /** What the loop finds at entry `n`: it is untouched, and checking its key has no effect but
      to tell whether it is clearable. */
  lemma PartEntry(a: State, h: Id, n: nat)
    requires Allocated(a) && h in a.heap && a.heap[h].Table? && n < |a.heap[h].entries| && StringKeysSeen(a, [h])
    ensures var b, e := PartCleared(a, h, n), a.heap[h].entries[n];
      && b.heap[h].entries[n] == e && |b.heap[h].entries| == |a.heap[h].entries|
      && (e.val != Nil ==>
            && (e.key.Ref? ==> e.key.id in b.heap)
            && Clearable(b, e.key) == Clearable(a, e.key)
            && (IsStr(b.heap, e.key) ==> Seen(b, e.key)))
  {
    var b, e := PartCleared(a, h, n), a.heap[h].entries[n];
    if e.val != Nil {
      EntryHolds(a, h, e);
      assert h in [h];
      SameKinds(a, b, e.key);
    }
    hide StringKeysSeen;
  }

  lemma SameKinds(a: State, b: State, k: Val)
    requires b.color == a.color && b.heap.Keys == a.heap.Keys
    requires forall x :: x in a.heap ==> b.heap[x].Str? == a.heap[x].Str?
    ensures Clearable(b, k) == Clearable(a, k) && IsStr(b.heap, k) == IsStr(a.heap, k) && Seen(b, k) == Seen(a, k)
  {
  }

  lemma PartStep(a: State, h: Id, n: nat)
    requires h in a.heap && a.heap[h].Table? && n < |a.heap[h].entries|
    ensures var b, e := PartCleared(a, h, n), a.heap[h].entries[n];
      PartCleared(a, h, n + 1) ==
        if e.val != Nil && Clearable(a, e.key) then
          b.(heap := b.heap[h := b.heap[h].(entries := b.heap[h].entries[n := Entry(e.key, Nil)])])
        else b
  {
    var es := a.heap[h].entries;
    var e := es[n];
    var p, q := ClearedEntries(a, es, n), ClearedEntries(a, es, n + 1);
    if e.val != Nil && Clearable(a, e.key) {
      assert q == p[n := Entry(e.key, Nil)];
    } else {
      assert q == p;
    }
  }

  lemma ClearedNone(a: State)
    ensures ClearedHeap(a, []) == a.heap
  {
  }

  lemma ClearedKeepsAllocated(a: State, q: seq<Id>)
    requires Allocated(a)
    ensures Allocated(a.(heap := ClearedHeap(a, q)))
  {
    hide Holds;
    var b := a.(heap := ClearedHeap(a, q));
    forall x, v | x in b.heap && Holds(b.heap[x], b.cells, v) && v.Ref?
      ensures v.id in b.heap
    {
      if x in q && a.heap[x].Table? {
        PartHolds(a, a.heap[x], |a.heap[x].entries|, v);
      }
      assert Holds(a.heap[x], a.cells, v);
    }
  }

  lemma ClearNext(a: State, b: State, l: seq<Id>, i: nat)
    requires Allocated(a) && (forall x :: x in l ==> x in a.heap && a.heap[x].Table?) && NoDup(l) && StringKeysSeen(a, l)
    requires i < |l| && b == a.(heap := ClearedHeap(a, l[..i]))
    ensures Allocated(b) && l[i] in b.heap && b.heap[l[i]] == a.heap[l[i]] && b.heap[l[i]].Table? && StringKeysSeen(b, [l[i]])
    ensures b.heap[l[i] := ClearedObj(b, b.heap[l[i]])] == ClearedHeap(a, l[..i + 1])
  {
    hide Holds, Clearable;
    var h := l[i];
    ClearedKeepsAllocated(a, l[..i]);
    assert h !in l[..i] && h in l;
    forall x | x in a.heap
      ensures b.heap[x].Str? == a.heap[x].Str?
    {
    }
    ClearedSame(a, b, a.heap[h]);
    assert l[..i + 1] == l[..i] + [h];
    forall e | e in a.heap[h].entries && e.val != Nil && IsStr(b.heap, e.key)
      ensures Seen(b, e.key)
    {
      SameKinds(a, b, e.key);
    }
  }

  lemma ClearedSame(a: State, b: State, o: Obj)
    requires b.color == a.color && b.heap.Keys == a.heap.Keys && o.Table?
    requires forall x :: x in a.heap ==> b.heap[x].Str? == a.heap[x].Str?
    ensures ClearedObj(b, o) == ClearedObj(a, o)
  {
    var n := |o.entries|;
    forall j | 0 <= j < n
      ensures ClearedEntries(b, o.entries, n)[j] == ClearedEntries(a, o.entries, n)[j]
    {
      SameKinds(a, b, o.entries[j].key);
    }
    assert ClearedEntries(b, o.entries, n) == ClearedEntries(a, o.entries, n);
  }

  // ---------- the atomic step as a whole ----------

  ghost predicate RootsAllocated(s: State) {
    s.running in s.heap && s.main in s.heap && (s.registry.Ref? ==> s.registry.id in s.heap) && AllocatedAll(s, s.mt)
  }

  /** An entry whose key lies outside `M` loses its value; strings are never weak. */
  ghost function CleanEntry(h: map<Id, Obj>, M: set<Id>, e: Entry): Entry {
    if e.val != Nil && e.key.Ref? && e.key.id in h && !h[e.key.id].Str? && e.key.id !in M then Entry(e.key, Nil) else e
  }

  /** `o'` is `o`, without the entries whose keys lie outside `M` if it is a table. */
  ghost predicate Cleaned(h: map<Id, Obj>, M: set<Id>, o: Obj, o': Obj) {
    if o.Table? then
      && o'.Table? && o' == o.(entries := o'.entries)
      && |o'.entries| == |o.entries|
      && (forall i :: 0 <= i < |o.entries| ==> o'.entries[i] == CleanEntry(h, M, o.entries[i]))
    else o' == o
  }

  /** What the atomic step computes: the objects that are not dead afterwards form the least set that
      contains the objects marked before and is closed under reachability; tables among them have
      lost exactly the entries whose keys are outside that set. */
  ghost predicate AtomicDone(a: State, b: State) {
    && b == a.(heap := b.heap, color := b.color, gray := b.gray, grayagain := b.grayagain,
               ephemeron := b.ephemeron, allweak := b.allweak, cur := !a.cur, phase := InsideAtomic)
    && b.color.Keys == a.color.Keys && b.heap.Keys == a.heap.Keys
    && Closed(a, NonDead(b)) && Marked(a) <= NonDead(b)
    && (forall S: set<Id> :: Closed(a, S) && Marked(a) <= S ==> NonDead(b) <= S)
    && (forall x :: x in a.heap && x in NonDead(b) ==> Cleaned(a.heap, NonDead(b), a.heap[x], b.heap[x]))
    && (forall x :: x in a.heap && x !in NonDead(b) ==> b.heap[x] == a.heap[x])
    && Painted(b)
  }

  /** Fixed objects are gray, and no thread is black. */
  ghost predicate Painted(s: State) {
    && (forall x :: x in s.fixedgc && x in s.color ==> s.color[x].Gray?)
    && (forall x :: x in s.heap && x in s.color && s.heap[x].Thread? ==> !s.color[x].Black?)
  }

  /** After the atomic step nothing alive refers to anything dead. */
  lemma AtomicAlive(a: State, b: State)
    requires WellFormed(a) && Allocated(a) && AtomicDone(a, b)
    ensures WellFormed(b) && LiveRefs(b)
  {
    hide Holds, Cleaned, Closed;
    AtomicWellFormed(a, b);
    RootsAlive(a, b);
    forall x, v | x in b.heap && !Dead(b, x) && Holds(b.heap[x], b.cells, v)
      ensures Live(b, v)
    {
      CleanedHolds(a, b, x, v);
    }
  }

  lemma AtomicWellFormed(a: State, b: State)
    requires WellFormed(a) && AtomicDone(a, b)
    ensures WellFormed(b)
  {
    hide Holds, Closed, Cleaned;
    forall x | x in a.heap
      ensures !a.heap[x].Table? ==> b.heap[x] == a.heap[x]
      ensures a.heap[x].Table? ==> b.heap[x].Table?
    {
      if x in NonDead(b) {
        CleanedParts(a, NonDead(b), a.heap[x], b.heap[x]);
      }
    }
  }

  lemma RootsAlive(a: State, b: State)
    requires a.heap.Keys == a.color.Keys && AtomicDone(a, b)
    ensures Live(b, Ref(b.main)) && Live(b, Ref(b.running)) && Live(b, b.registry) && forall v :: v in b.mt ==> Live(b, v)
  {
    hide StrongHolds, EphemeronEntry, Cleaned;
    assert RootsIn(a, NonDead(b));
  }

  lemma CleanedHolds(a: State, b: State, x: Id, v: Val)
    requires Allocated(a) && AtomicDone(a, b) && x in b.heap && !Dead(b, x) && Holds(b.heap[x], b.cells, v)
    ensures Live(b, v)
  {
    hide Cleaned, EphemeronEntry, IsStr;
    var M, o := NonDead(b), a.heap[x];
    assert x in M;
    CleanedParts(a, M, o, b.heap[x]);
    if o.Table? {
      if e :| e in b.heap[x].entries && e.val != Nil && (v == e.key || v == e.val) {
        CleanedEntry(a, b, x, e);
      } else {
        assert v == o.meta || v in o.arr;
        assert StrongHolds(a.heap, o, a.cells, v);
        assert In(M, v);
      }
    } else {
      assert !IsEphemeron(o) && StrongHolds(a.heap, o, a.cells, v);
      assert In(M, v);
    }
  }

  lemma CleanedParts(a: State, M: set<Id>, o: Obj, o': Obj)
    requires Cleaned(a.heap, M, o, o')
    ensures if o.Table? then o'.Table? && o'.meta == o.meta && o'.arr == o.arr else o' == o
  {
  }

  /** What is left of an entry after the cleaning. */
  lemma EntryLeft(a: State, M: set<Id>, o: Obj, o': Obj, e: Entry)
    requires Cleaned(a.heap, M, o, o') && o.Table? && e in o'.entries && e.val != Nil
    ensures e in o.entries
    ensures e.key.Ref? && e.key.id in a.heap ==> IsStr(a.heap, e.key) || e.key.id in M
  {
    var i :| 0 <= i < |o'.entries| && o'.entries[i] == e;
    assert o'.entries[i] == CleanEntry(a.heap, M, o.entries[i]);
    assert o.entries[i] == e;
  }

  lemma CleanedEntry(a: State, b: State, x: Id, e: Entry)
    requires Allocated(a) && AtomicDone(a, b) && x in NonDead(b) && x in a.heap && a.heap[x].Table? && b.heap[x].Table?
    requires e in b.heap[x].entries && e.val != Nil
    ensures In(NonDead(b), e.key) && In(NonDead(b), e.val)
  {
    hide Cleaned, IsStr;
    var M, o := NonDead(b), a.heap[x];
    EntryLeft(a, M, o, b.heap[x], e);
    assert Holds(o, a.cells, e.key);
    if IsEphemeron(o) {
      assert EphemeronEntry(o, e);
      assert IsStr(a.heap, e.key) ==> StrongHolds(a.heap, o, a.cells, e.key);
    } else {
      assert StrongHolds(a.heap, o, a.cells, e.key) && StrongHolds(a.heap, o, a.cells, e.val);
    }
  }

  /** Marking first and doing the atomic step then is doing the atomic step. */
  lemma AtomicFrom(a: State, p: State, b: State)
    requires Progress(a, p) && AtomicDone(p, b)
    ensures AtomicDone(a, b)
  {
    hide Closed, Cleaned;
    SameClosed(a, p, NonDead(b));
    forall S: set<Id> | Closed(a, S) && Marked(a) <= S
      ensures NonDead(b) <= S
    {
      SameClosed(a, p, S);
      assert forall v :: v in [] ==> In(S, v);
      assert Marked(p) <= S;
    }
  }

  lemma PhaseSettled(o: State, a: State, x: Id)
    requires a == o.(phase := a.phase) && Settled(o, x)
    ensures Settled(a, x)
  {
    assert forall v :: Seen(o, v) ==> Seen(a, v);
    if o.heap[x].Table? {
      forall e | e in o.heap[x].entries && e.val != Nil
        ensures EntrySettled(a, x, e)
      {
        assert EntrySettled(o, x, e);
      }
    }
  }

  lemma PhaseOnly(o: State, a: State, pend: seq<Id>)
    requires MarkInv(o, pend) && a == o.(phase := a.phase) && !o.phase.Propagate? && !a.phase.Propagate?
    ensures MarkInv(a, pend)
  {
    hide Settled, GrayList;
    forall x | x in a.color && a.color[x].Gray? && x !in a.fixedgc
      ensures x in a.gray || x in pend || (!a.phase.Propagate? && Settled(a, x))
    {
      if !(x in o.gray || x in pend) {
        PhaseSettled(o, a, x);
      }
    }
    GrayListKept(o, a, o.gray);
    GrayListKept(o, a, pend);
    GrayListKept(o, a, o.ephemeron);
    GrayListKept(o, a, o.allweak);
    assert forall v :: Seen(o, v) ==> Seen(a, v);
  }

  lemma AtomicStart(o: State, a: State, saved: seq<Id>)
    requires MarkInv(o, saved) && o.phase.AtomicReady? && a == o.(phase := InsideAtomic)
    requires RootsAllocated(o) && Seen(o, Ref(o.main))
    ensures MarkInv(a, saved) && Progress(a, a) && RootsAllocated(a) && Seen(a, Ref(a.main)) && Allocated(a)
  {
    hide MarkInv, Progress, Allocated;
    PhaseOnly(o, a, saved);
    ProgressRefl(a);
    MarkInvAllocated(a, saved);
  }

  lemma MarkInvAllocated(a: State, pend: seq<Id>)
    requires MarkInv(a, pend)
    ensures Allocated(a)
  {
  }

  ghost predicate IsRoot(s: State, v: Val) {
    v == Ref(s.main) || v == Ref(s.running) || v == s.registry || v in s.mt
  }

  lemma RootMarked(a: State, s: State, t: State, vs: seq<Val>, saved: seq<Id>)
    requires MarkInv(s, saved) && Progress(a, s) && Marks(s, t, Nil) && Forced(s, t, vs)
    requires forall v :: v in vs ==> IsRoot(a, v)
    ensures MarkInv(t, saved) && Progress(a, t) && Progress(s, t) && Allocated(t)
  {
    hide MarkInv, Allocated;
    MarksKeepInv(s, t, saved);
    MarkInvAllocated(t, saved);
    MarksGrows(s, t, Nil);
    forall S: set<Id> | Closed(s, S) && Marked(s) <= S && (forall v :: v in [] ==> In(S, v))
      ensures Marked(t) <= S
    {
      forall v | v in vs
        ensures In(S, v)
      {
      }
    }
    assert t == s.(color := t.color, gray := t.gray);
    ProgressTrans(a, s, t) by {
      assert Progress(s, t);
    }
  }

  lemma RootsAllocatedSame(a: State, s: State)
    requires RootsAllocated(a) && Progress(a, s)
    ensures RootsAllocated(s)
  {
  }

  lemma GraySaved(a: State, s: State, t: State, saved: seq<Id>)
    requires MarkInv(s, saved) && s.gray == [] && t == s.(gray := saved) && Progress(a, s)
    ensures MarkInv(t, []) && Progress(a, t)
  {
    hide Settled, GrayList, Closed, Holds, Allocated, BlackInvariant, NoneDead, WellFormed;
    ListsOnly(s, t);
    forall x | x in t.color && t.color[x].Gray? && x !in t.fixedgc
      ensures x in t.gray || (!t.phase.Propagate? && Settled(t, x))
    {
      if x !in saved {
        SettledKept(s, t, x);
      }
    }
    assert Marked(t) == Marked(s);
  }

  lemma RootsAt(s: State)
    requires RootsAllocated(s)
    ensures s.main in s.heap && s.running in s.heap && (s.registry.Ref? ==> s.registry.id in s.heap) && AllocatedAll(s, s.mt)
  {
  }

  lemma RootsSeen(a: State, s3: State, s: State)
    requires Seen(a, Ref(a.main)) && Progress(a, s3) && Progress(s3, s)
    requires Seen(s3, Ref(a.running)) && Seen(s3, a.registry) && SeenAll(s3, a.mt)
    ensures Seen(s, Ref(s.main)) && Seen(s, Ref(s.running)) && Seen(s, s.registry) && SeenAll(s, s.mt)
  {
    hide Seen;
    ProgressWhites(a, s3);
    ProgressWhites(s3, s);
  }

  lemma WeakLists(s: State)
    requires MarkInv(s, []) && s.gray == []
    ensures Allocated(s) && NoDup(s.ephemeron)
    ensures forall x :: x in s.ephemeron ==> x in s.heap && s.heap[x].Table?
    ensures StringKeysSeen(s, s.ephemeron) && StringKeysSeen(s, s.allweak)
  {
    forall x, e | (x in s.ephemeron || x in s.allweak) && x in s.heap && s.heap[x].Table? && e in s.heap[x].entries && e.val != Nil && IsStr(s.heap, e.key)
      ensures Seen(s, e.key)
    {
      assert x !in s.fixedgc;
      assert Settled(s, x);
      assert EntrySettled(s, x, e);
    }
  }

  lemma WeakListsAgain(s: State, t: State)
    requires MarkInv(s, []) && s.gray == [] && t == s.(heap := ClearedHeap(s, s.ephemeron))
    ensures Allocated(t) && NoDup(t.allweak)
    ensures forall x :: x in t.allweak ==> x in t.heap && t.heap[x].Table?
    ensures StringKeysSeen(t, t.allweak)
  {
    WeakLists(s);
    ClearedKeepsAllocated(s, s.ephemeron);
    forall x, e | x in t.allweak && x in t.heap && t.heap[x].Table? && e in t.heap[x].entries && e.val != Nil && IsStr(t.heap, e.key)
      ensures Seen(t, e.key)
    {
      assert x !in s.ephemeron;
      assert IsStr(s.heap, e.key);
    }
    hide Holds, ClearedObj;
  }

  lemma WeakListsDone(s: State, t: State, h: map<Id, Obj>)
    requires MarkInv(s, []) && s.gray == []
    requires t == s.(heap := ClearedHeap(s, s.ephemeron)) && h == ClearedHeap(t, s.allweak)
    ensures h == ClearedMarked(s)
  {
    hide MarkInv, ClearedObj;
    WeakApart(s);
    ClearedKinds(s);
    forall x | x in s.heap
      ensures h[x] == if x in s.ephemeron || x in s.allweak then ClearedObj(s, s.heap[x]) else s.heap[x]
    {
      if x in s.allweak {
        ClearedSame(s, t, s.heap[x]);
      }
    }
    ListsSuffice(s, h);
  }

  lemma ClearedKinds(s: State)
    ensures ClearedHeap(s, s.ephemeron).Keys == s.heap.Keys
    ensures forall x :: x in s.heap ==> ClearedHeap(s, s.ephemeron)[x].Str? == s.heap[x].Str?
  {
  }

  lemma WeakApart(s: State)
    requires MarkInv(s, [])
    ensures forall x :: x in s.allweak ==> x !in s.ephemeron && x in s.heap && s.heap[x].Table?
  {
    hide WellFormed, Allocated, NoneDead, BlackInvariant, Settled;
  }

  lemma AtomicFinish(a: State, s: State, b: State)
    requires Progress(a, s) && MarkInv(s, []) && s.gray == [] && RoundFinal(s) && s.phase.InsideAtomic?
    requires Seen(s, Ref(s.main)) && Seen(s, Ref(s.running)) && Seen(s, s.registry) && SeenAll(s, s.mt)
    requires b == s.(heap := ClearedMarked(s), cur := !s.cur)
    ensures AtomicDone(a, b)
  {
    FlippedDead(s, b);
    ConvergedClosed(s);
    FinishClosed(a, s);
    FinishPainted(s, b);
    FinishHeap(s, b);
    hide MarkInv, Closed, Painted, RoundFinal, Seen, Forced;
    assert b.heap.Keys == a.heap.Keys;
  }

  lemma FlippedDead(s: State, b: State)
    requires NoneDead(s) && b.color == s.color && b.cur == !s.cur
    ensures NonDead(b) == Marked(s)
  {
    forall x | x in s.color
      ensures x in NonDead(b) <==> x in Marked(s)
    {
      assert !Dead(s, x);
    }
  }

  lemma FinishClosed(a: State, s: State)
    requires Progress(a, s) && Closed(s, Marked(s))
    ensures Closed(a, Marked(s)) && Marked(a) <= Marked(s)
    ensures forall S: set<Id> :: Closed(a, S) && Marked(a) <= S ==> Marked(s) <= S
  {
    hide Closed;
    SameClosed(a, s, Marked(s));
  }

  lemma FinishPainted(s: State, b: State)
    requires MarkInv(s, []) && b == s.(heap := ClearedMarked(s), cur := !s.cur)
    ensures Painted(b)
  {
    hide Allocated, BlackInvariant, NoneDead, GrayList, Disjoint, Settled;
    assert forall x :: x in b.heap && b.heap[x].Thread? ==> s.heap[x].Thread?;
  }

  lemma FinishHeap(s: State, b: State)
    requires MarkInv(s, []) && b == s.(heap := ClearedMarked(s), cur := !s.cur) && NonDead(b) == Marked(s)
    ensures forall x :: x in s.heap && x in NonDead(b) ==> Cleaned(s.heap, NonDead(b), s.heap[x], b.heap[x])
    ensures forall x :: x in s.heap && x !in NonDead(b) ==> b.heap[x] == s.heap[x]
  {
    hide Cleaned, ClearedObj;
    forall x | x in s.heap && x in NonDead(b)
      ensures Cleaned(s.heap, NonDead(b), s.heap[x], b.heap[x])
    {
      CleanedIs(s, NonDead(b), s.heap[x]);
    }
  }

  lemma CleanedIs(s: State, M: set<Id>, o: Obj)
    requires M == Marked(s) && s.heap.Keys == s.color.Keys
    ensures Cleaned(s.heap, M, o, ClearedObj(s, o))
  {
    if o.Table? {
      forall i | 0 <= i < |o.entries|
        ensures ClearedEntry(s, o.entries[i]) == CleanEntry(s.heap, M, o.entries[i])
      {
      }
    }
  }

  lemma AtomicPhase(o: State, a: State, b: State)
    requires a == o.(phase := InsideAtomic) && AtomicDone(a, b)
    ensures AtomicDone(o, b)
  {
    hide Closed, Cleaned, Painted;
    assert Marked(o) == Marked(a);
    SameClosed(o, a, NonDead(b));
    forall S: set<Id> | Closed(o, S) && Marked(o) <= S
      ensures NonDead(b) <= S
    {
      SameClosed(o, a, S);
    }
  }
}
