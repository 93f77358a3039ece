/** The collector and the mutator operations, on mutable state. */
module GcCollector {
  import opened GcHeap
  import opened GcMarking
  import opened GcTraversal
  import opened GcAccounting
  import opened GcAtomic
  import opened GcSweep
  import opened GcSteps
  import opened GcMutator
  import opened GcRuns
  import opened Wrappers

  class Collector {
    var heap: map<Id, Obj>
    var color: map<Id, Color>
    var cells: map<CellId, Val>
    var allgc: seq<Id>
    var fixedgc: seq<Id>
    var main: Id
    var running: Id
    var registry: Val
    var mt: seq<Val>
    var gray: seq<Id>
    var grayagain: seq<Id>
    var ephemeron: seq<Id>
    var allweak: seq<Id>
    var sweepgc: Option<nat>
    var cur: bool
    var phase: Phase
    /** GCSWEEPMAX: how many objects one sweep step visits. */
    const sweepMax: nat

    ghost function View(): State
      reads this
    {
      State(heap, color, cells, allgc, fixedgc, main, running, registry, mt,
            gray, grayagain, ephemeron, allweak, sweepgc, cur, phase)
    }

    lemma ViewIs()
      ensures View().phase == phase && View().gray == gray && View().grayagain == grayagain && View().main == main
      ensures View().registry == registry && View().mt == mt && View().cur == cur
      ensures View().heap == heap && View().color == color && View().cells == cells && View().allgc == allgc && View().sweepgc == sweepgc
    {
    }

    // ---------- marking ----------

    method ReallyMark(o: Id)
      requires Allocated(View()) && IsWhite(View(), o)
      modifies this`color, this`gray
      ensures Allocated(View()) && Marks(old(View()), View(), Nil)
      ensures Seen(View(), Ref(o)) && Whites(View()) < Whites(old(View()))
      ensures Forced(old(View()), View(), [Ref(o)])
      ensures heap[o].Str? ==> View() == old(View()).(color := old(color)[o := Black])
      decreases Whites(View()), 0
    {
      hide Marks, ReentryForced, Forced, Holds, Closed, BlackDone, GrayList, Whites, Reentry, Allocated;
      ghost var a := View();
      var x := o;
      var more := true;
      ReentryStart(a, o);
      while more
        invariant Allocated(View()) && Reentry(a, View(), o, x, more)
        decreases Whites(View()), more
      {
        ghost var s := View();
        ReentryNext(a, s, o, x);
        color := color[x := Gray];
        more := false;
        ghost var s' := View();
        match heap[x] {
          case Str =>
            color := color[x := Black];
            ReentryLeaf(a, s, View(), o, x);
          case Udata(meta, user) =>
            UdataNext(s, s', x);
            MarkValue(meta);
            ghost var t := View();
            color := color[x := Black];
            ghost var u := View();
            more := user.Ref? && color[user.id].White?;
            ReentryUdata(a, s, s', t, u, o, x, more);
            x := if more then user.id else x;
          case _ =>
            gray := [x] + gray;
            ReentryLeaf(a, s, View(), o, x);
        }
      }
      ReentryEnd(a, View(), o, x);
    }

    method MarkValue(v: Val)
      requires Allocated(View())
      requires v.Ref? ==> v.id in heap
      modifies this`color, this`gray
      ensures Allocated(View()) && Marks(old(View()), View(), Nil)
      ensures Seen(View(), v) && Whites(View()) <= Whites(old(View()))
      ensures Forced(old(View()), View(), [v])
      ensures Seen(old(View()), v) ==> View() == old(View())
      ensures v.Ref? && IsWhite(old(View()), v.id) ==> Whites(View()) < Whites(old(View()))
      ensures v.Ref? && heap[v.id].Str? && IsWhite(old(View()), v.id) ==>
        View() == old(View()).(color := old(color)[v.id := Black])
      decreases Whites(View()), 1
    {
      MarksRefl(View());
      if v.Ref? && color[v.id].White? {
        ReallyMark(v.id);
      }
    }

    method MarkAll(vs: seq<Val>)
      requires Allocated(View()) && AllocatedAll(View(), vs)
      modifies this`color, this`gray
      ensures Allocated(View()) && Marks(old(View()), View(), Nil)
      ensures SeenAll(View(), vs) && Forced(old(View()), View(), vs)
    {
      ghost var a := View();
      MarksRefl(a);
      ForcedRefl(a, vs);
      for i := 0 to |vs|
        invariant Allocated(View()) && Marks(a, View(), Nil) && Forced(a, View(), vs)
        invariant SeenAll(View(), vs[..i])
      {
        hide Marks, Forced, Allocated;
        ghost var s := View();
        MarkValue(vs[i]);
        MarkAllStep(a, s, View(), vs, i);
      }
      assert vs[..|vs|] == vs;
    }

    // ---------- traversals ----------

    method TraverseStrongTable(h: Id)
      requires Allocated(View()) && h in heap && heap[h].Table? && heap[h].mode.Strong?
      modifies this`color, this`gray
      ensures Traversed(old(View()), View(), h)
      ensures SeenAll(View(), heap[h].arr) && EntriesSeen(View(), heap[h].entries, |heap[h].entries|)
    {
      hide Allocated, Marks, Forced, Holds, StrongHolds, AllocatedAll, Seen, SeenAll, EntriesSeen;
      ghost var a := View();
      TraversedRefl(a, h);
      TableHolds(a, h);
      var es := heap[h].entries;
      MarkAll(heap[h].arr);
      TraversedStrong(a, View(), h, heap[h].arr);
      SeenNone(View(), es);
      for i := 0 to |es|
        invariant Traversed(a, View(), h)
        invariant SeenAll(View(), heap[h].arr) && EntriesSeen(View(), es, i)
      {
        ghost var s := View();
        if es[i].val != Nil {
          EntryHolds(s, h, es[i]);
          MarkValue(es[i].key);
          ghost var t := View();
          StrongStep(a, s, t, h, es[i].key);
          MarkValue(es[i].val);
          StrongStep(a, t, View(), h, es[i].val);
          SeenEntry(s, t, View(), heap[h].arr, es, i);
        } else {
          SeenNil(s, es, i);
        }
      }
    }

    method IsCleared(v: Val) returns (r: bool)
      requires Allocated(View()) && (v.Ref? ==> v.id in heap)
      modifies this`color, this`gray
      ensures ClearCheck(old(View()), View(), v, r)
      ensures r == Clearable(old(View()), v)
      ensures Seen(old(View()), v) ==> View() == old(View())
    {
      MarksRefl(View());
      ForcedRefl(View(), [v]);
      if !v.Ref? {
        return false;
      } else if heap[v.id].Str? {
        MarkValue(v);
        return false;
      } else {
        return color[v.id].White?;
      }
    }

    /** The array part of an ephemeron table. */
    method EphemeronArray(h: Id) returns (marked: bool)
      requires Allocated(View()) && h in heap && IsEphemeron(heap[h])
      modifies this`color, this`gray
      ensures Allocated(View()) && EphemeronLoop(old(View()), View(), h, 0, false, false, marked)
    {
      hide Allocated, Marks, Forced, AllocatedAll, Seen, SeenAll, Whites, EphemeronLoop;
      ghost var a := View();
      ArrayStart(a, h);
      marked := false;
      var arr := heap[h].arr;
      for i := 0 to |arr|
        invariant Allocated(View()) && ArrayLoop(a, View(), h, i, marked)
      {
        hide ArrayLoop;
        ghost var s, m := View(), marked;
        ArrayNext(a, s, h, i, marked);
        WhiteUnseen(s, arr[i]);
        if arr[i].Ref? && color[arr[i].id].White? {
          marked := true;
          ReallyMark(arr[i].id);
        } else {
          NoMark(s, arr[i]);
        }
        ArrayStep(a, s, View(), h, i, m, marked);
      }
      ArrayEnd(a, View(), h, marked);
    }

    /** One entry of the hash part. */
    method EphemeronEntryAt(h: Id, i: nat, clears: bool, ww: bool, marked: bool, ghost a: State)
      returns (clears': bool, ww': bool, marked': bool)
      requires Allocated(a) && Allocated(View()) && EphemeronLoop(a, View(), h, i, clears, ww, marked)
      requires h in heap && IsEphemeron(heap[h]) && i < |heap[h].entries|
      modifies this`color, this`gray
      ensures Allocated(View()) && EphemeronLoop(a, View(), h, i + 1, clears', ww', marked')
    {
      hide Allocated, Marks, Forced, AllocatedAll, Seen, SeenAll, Clearable, Whites, EphemeronLoop;
      clears', ww', marked' := clears, ww, marked;
      var e := heap[h].entries[i];
      ghost var s := View();
      if e.val == Nil {
        EphemeronNil(a, s, h, i, clears, ww, marked);
        return;
      }
      EntryHolds(s, h, e);
      var c := IsCleared(e.key);
      ghost var t := View();
      EntryHolds(t, h, e);
      var white := e.val.Ref? && color[e.val.id].White?;
      WhiteUnseen(t, e.val);
      if c {
        EphemeronCleared(a, s, h, i, clears, ww, marked, ww || white);
        clears', ww' := true, ww || white;
      } else {
        EphemeronKept(a, s, t, h, i, clears, ww, marked);
        if white {
          ReallyMark(e.val.id);
          EphemeronMark(a, t, View(), h, i, clears, ww, marked);
          marked' := true;
        }
      }
    }

    /** Traverses the array part, then the entries of an ephemeron table, and links the table to the
        list where it is to be visited again. `marked` tells whether a value was marked. */
    method TraverseEphemeron(h: Id) returns (marked: bool, ghost mid: State, ghost clears: bool, ghost ww: bool)
      requires Allocated(View()) && h in heap && IsEphemeron(heap[h])
      modifies this`color, this`gray, this`grayagain, this`ephemeron, this`allweak
      ensures EphemeronLoop(old(View()), mid, h, |heap[h].entries|, clears, ww, marked)
      ensures View() == Relinked(mid, h, clears, ww)
    {
      hide Allocated, EphemeronLoop;
      ghost var a := View();
      marked := EphemeronArray(h);
      var hasclears, hasww := false, false;
      for i := 0 to |heap[h].entries|
        invariant Allocated(View()) && EphemeronLoop(a, View(), h, i, hasclears, hasww, marked)
      {
        hasclears, hasww, marked := EphemeronEntryAt(h, i, hasclears, hasww, marked, a);
      }
      mid, clears, ww := View(), hasclears, hasww;
      if phase.Propagate? {
        grayagain := [h] + grayagain;
      } else if hasww {
        ephemeron := [h] + ephemeron;
      } else if hasclears {
        allweak := [h] + allweak;
      }
    }

    method MarkUpvals(ups: seq<CellId>)
      requires Allocated(View()) && (forall c :: c in ups ==> c in cells) && AllocatedAll(View(), CellVals(cells, ups))
      modifies this`color, this`gray
      ensures Allocated(View()) && Marks(old(View()), View(), Nil)
      ensures SeenAll(View(), CellVals(cells, ups)) && Forced(old(View()), View(), CellVals(cells, ups))
    {
      ghost var a := View();
      ghost var vs := CellVals(cells, ups);
      MarksRefl(a);
      ForcedRefl(a, vs);
      for i := 0 to |ups|
        invariant Allocated(View()) && Marks(a, View(), Nil) && Forced(a, View(), vs)
        invariant SeenAll(View(), vs[..i])
      {
        hide Marks, Forced, Allocated;
        ghost var s := View();
        assert cells[ups[i]] == vs[i];
        MarkValue(cells[ups[i]]);
        MarkAllStep(a, s, View(), vs, i);
      }
      assert vs[..|ups|] == vs;
    }

    /** Traverses table `o`, taken from the gray list of `a` and turned black. */
    method TraverseTable(o: Id, ghost a: State, ghost pend: seq<Id>)
      requires Traversing(a, View(), o, pend) && heap[o].Table?
      modifies this`color, this`gray, this`grayagain, this`ephemeron, this`allweak
      ensures Visits(a, View())
    {
      hide MarkInv, Propagated, Settled, Holds, GrayList, BlackInvariant, NoneDead, WellFormed, Traversed,
           Marks, Forced, HeldSeen, SeenAll, AllocatedAll, Seen, EphemeronLoop, EntriesSeen, Traversable, Allocated;
      ghost var s := a.(gray := a.gray[1..]);
      ghost var b := View();
      TraversingAllocated(a, b, o, pend);
      var meta := heap[o].meta;
      TableHolds(b, o);
      MetaAllocated(b, meta);
      MarkValue(meta);
      ghost var t := View();
      MetaTraversed(b, t, o, meta);
      if heap[o].mode.Ephemeron? {
        TraversedGray(s, b, t, o);
        color := color[o := Gray];
        ghost var g := View();
        MetaGray(t, g, o, meta);
        ghost var marked, m, clears, ww := TraverseEphemeron(o);
        assert EphemeronVisit(s, g, m, View(), o, clears, ww, marked);
      } else {
        TraverseStrongTable(o);
        TraversedMore(b, t, View(), o);
        TableHeld(View(), o);
      }
    }

    method TraverseClosure(o: Id, ghost a: State, ghost pend: seq<Id>)
      requires Traversing(a, View(), o, pend) && heap[o].Closure?
      modifies this`color, this`gray
      ensures Visits(a, View())
    {
      hide MarkInv, Propagated, Settled, Holds, GrayList, BlackInvariant, NoneDead, WellFormed, Traversed,
           Marks, Forced, HeldSeen, SeenAll, AllocatedAll, Seen, EphemeronLoop, EntriesSeen, Traversable, Allocated;
      ghost var s := a.(gray := a.gray[1..]);
      ghost var b := View();
      TraversingAllocated(a, b, o, pend);
      ClosureHolds(b, o);
      MarkAll(heap[o].refs);
      ghost var t := View();
      TraversedStrong(b, t, o, heap[o].refs);
      ClosureHolds(t, o);
      MarkUpvals(heap[o].upvals);
      TraversedStrong(t, View(), o, CellVals(cells, heap[o].upvals));
      TraversedMore(b, t, View(), o);
      ClosureHeld(t, View(), o);
    }

    method TraverseThread(o: Id, ghost a: State, ghost pend: seq<Id>)
      requires Traversing(a, View(), o, pend) && heap[o].Thread?
      modifies this`color, this`gray, this`grayagain
      ensures Visits(a, View())
    {
      hide MarkInv, Propagated, Settled, Holds, GrayList, BlackInvariant, NoneDead, WellFormed, Traversed,
           Marks, Forced, HeldSeen, SeenAll, AllocatedAll, Seen, EphemeronLoop, EntriesSeen, Traversable, Allocated;
      ghost var s := a.(gray := a.gray[1..]);
      TraversingAllocated(a, View(), o, pend);
      grayagain := [o] + grayagain;
      color := color[o := Gray];
      ghost var t := View();
      ThreadBack(a, s, t, o);
      ThreadHolds(t, o);
      MarkAll(heap[o].stack);
      TraversedStrong(t, View(), o, heap[o].stack);
    }

    /** Traverses one gray object, turning it black (except for threads and ephemeron tables). */
    method PropagateMark(ghost pend: seq<Id>)
      requires MarkInv(View(), Pend(View(), pend)) && gray != []
      modifies this`color, this`gray, this`grayagain, this`ephemeron, this`allweak
      ensures Visits(old(View()), View()) && Propagated(old(View()), View(), pend)
    {
      hide Visits, MarkInv, Propagated, Settled, Holds, GrayList, BlackInvariant, NoneDead, WellFormed, Traversed,
           Marks, Forced, HeldSeen, SeenAll, AllocatedAll, Seen, EphemeronLoop, EntriesSeen, Traversable, Allocated;
      ghost var a := View();
      var o := gray[0];
      StartTraversing(a, pend);
      color := color[o := Black];
      gray := gray[1..];
      match heap[o] {
        case Table(_, _, _, _) => TraverseTable(o, a, pend);
        case Closure(_, _) => TraverseClosure(o, a, pend);
        case Thread(_) => TraverseThread(o, a, pend);
      }
      VisitPropagated(a, View(), pend);
    }

    method PropagateAll(ghost pend: seq<Id>)
      requires MarkInv(View(), Pend(View(), pend))
      modifies this`color, this`gray, this`grayagain, this`ephemeron, this`allweak
      ensures gray == [] && MarkInv(View(), Pend(View(), pend)) && Progress(old(View()), View())
      ensures old(gray) == [] ==> View() == old(View())
    {
      hide MarkInv, Propagated, Progress, Whites;
      ghost var a := View();
      ProgressRefl(a);
      while gray != []
        invariant phase == a.phase
        invariant MarkInv(View(), Pend(View(), pend)) && Progress(a, View())
        invariant a.gray == [] ==> View() == a
        decreases Whites(View()), |gray|
      {
        ghost var s := View();
        PropagateMark(pend);
        PropagatedStep(a, s, View(), pend);
      }
    }

    /** One turn of the inner loop of `convergeephemerons`: the first table of the round. */
    method ConvergeTable(next: seq<Id>, changed: bool, ghost a: State) returns (marked: bool)
      requires next != [] && phase.InsideAtomic? && gray == []
      requires MarkInv(View(), next) && Progress(a, View()) && RoundTables(View(), next) && (!changed ==> RoundFinal(View()))
      modifies this`color, this`gray, this`grayagain, this`ephemeron, this`allweak
      ensures gray == [] && MarkInv(View(), next[1..]) && Progress(a, View()) && RoundTables(View(), next[1..])
      ensures if marked then Whites(View()) < Whites(old(View())) else Whites(View()) <= Whites(old(View()))
      ensures !changed && !marked ==> RoundFinal(View())
    {
      hide MarkInv, Progress, Whites, RoundFinal, RoundTables, EphemeronLoop, Allocated, Marks;
      ghost var s := View();
      RoundTable(s, next);
      ghost var m, clears, ww;
      var w := next[0];
      marked, m, clears, ww := TraverseEphemeron(w);
      ghost var b := View();
      LoopTraversed(s, m, w, clears, ww, marked);
      RoundVisit(s, m, b, next, w, clears, ww, marked);
      VisitProgress(a, s, m, b, w, clears, ww);
      ProgressWhites(s, b);
      RoundTablesKept(s, b, next);
      if marked {
        PropagateAll(next[1..]);
        ProgressTrans(a, b, View());
        ProgressWhites(b, View());
        TablesKept(b, View(), next[1..]);
      } else if !changed {
        VisitFinal(s, m, b, w, clears, ww);
      } else {
        OnlyStringsLoop(s, m, w, clears, ww);
      }
    }

    /** Traverses the ephemeron tables until a whole round marks nothing new. */
    method ConvergeEphemerons()
      requires MarkInv(View(), []) && gray == [] && phase.InsideAtomic?
      modifies this`color, this`gray, this`grayagain, this`ephemeron, this`allweak
      ensures MarkInv(View(), []) && gray == [] && Progress(old(View()), View()) && RoundFinal(View())
    {
      hide MarkInv, Progress, Whites, RoundFinal, RoundTables;
      ghost var a := View();
      ProgressRefl(a);
      var changed := true;
      while changed
        invariant phase.InsideAtomic? && gray == []
        invariant MarkInv(View(), []) && Progress(a, View())
        invariant !changed ==> RoundFinal(View())
        decreases Whites(View()), changed
      {
        ghost var r := View();
        RoundStart(r);
        var next := ephemeron;
        ephemeron := [];
        changed := false;
        RoundProgress(a, r, View());
        while next != []
          invariant phase.InsideAtomic? && gray == []
          invariant MarkInv(View(), next) && Progress(a, View()) && RoundTables(View(), next)
          invariant if changed then Whites(View()) < Whites(r) else Whites(View()) <= Whites(r)
          invariant !changed ==> RoundFinal(View())
          decreases |next|
        {
          var marked := ConvergeTable(next, changed, a);
          if marked {
            changed := true;
          }
          next := next[1..];
        }
      }
    }

    /** Removes the entries of one weak table whose keys were not marked. */
    method ClearTable(h: Id)
      requires Allocated(View()) && h in heap && heap[h].Table? && StringKeysSeen(View(), [h])
      modifies this`heap, this`color, this`gray
      ensures View() == old(View()).(heap := old(heap)[h := ClearedObj(old(View()), old(heap)[h])])
    {
      hide Clearable, Seen, Allocated, ClearCheck, StringKeysSeen;
      ghost var a := View();
      var es := heap[h].entries;
      ClearStart(a, h);
      for j := 0 to |es|
        invariant View() == PartCleared(a, h, j)
      {
        PartAllocated(a, h, j);
        PartEntry(a, h, j);
        if heap[h].entries[j].val != Nil {
          var c := IsCleared(heap[h].entries[j].key);
          if c {
            heap := heap[h := heap[h].(entries := heap[h].entries[j := Entry(heap[h].entries[j].key, Nil)])];
          }
        }
        PartStep(a, h, j);
      }
    }

    method ClearKeys(l: seq<Id>)
      requires Allocated(View()) && (forall x :: x in l ==> x in heap && heap[x].Table?) && NoDup(l) && StringKeysSeen(View(), l)
      modifies this`heap, this`color, this`gray
      ensures View() == old(View()).(heap := ClearedHeap(old(View()), l))
    {
      hide Clearable, Seen, Allocated, StringKeysSeen, ClearedObj;
      ghost var a := View();
      ClearedNone(a);
      for i := 0 to |l|
        invariant View() == a.(heap := ClearedHeap(a, l[..i]))
      {
        ClearNext(a, View(), l, i);
        ClearTable(l[i]);
      }
      assert l[..|l|] == l;
    }

    /** Marks the running thread, the registry and the basic metatables. */
    method MarkRoots(ghost saved: seq<Id>)
      requires MarkInv(View(), saved) && RootsAllocated(View()) && Allocated(View())
      modifies this`color, this`gray
      ensures MarkInv(View(), saved) && Progress(old(View()), View())
      ensures Seen(View(), Ref(running)) && Seen(View(), registry) && SeenAll(View(), mt)
    {
      hide MarkInv, Progress, Marks, Forced, Seen, SeenAll, Allocated, RootsAllocated;
      ghost var a := View();
      RootsAt(a);
      ProgressRefl(a);
      MarkValue(Ref(running));
      ghost var s1 := View();
      RootMarked(a, a, s1, [Ref(running)], saved);
      MarkValue(registry);
      ghost var s2 := View();
      RootMarked(a, s1, s2, [registry], saved);
      RootsAllocatedSame(a, s2);
      RootsAt(s2);
      MarkAll(mt);
      RootMarked(a, s2, View(), mt, saved);
      ProgressWhites(s1, s2);
      ProgressWhites(s2, View());
    }

    /** The first part of `atomic`: the roots are marked again, then the list `grayagain` is taken over. */
    method AtomicRoots(saved: seq<Id>) returns (ghost s3: State)
      requires phase.InsideAtomic? && MarkInv(View(), saved) && RootsAllocated(View()) && Allocated(View())
      modifies this`color, this`gray, this`grayagain, this`ephemeron, this`allweak
      ensures MarkInv(View(), []) && Progress(old(View()), View()) && Progress(old(View()), s3) && Progress(s3, View())
      ensures Seen(s3, Ref(running)) && Seen(s3, registry) && SeenAll(s3, mt)
    {
      hide MarkInv, Progress, Seen, SeenAll, Allocated, RootsAllocated;
      ghost var a := View();
      MarkRoots(saved);
      s3 := View();
      PropagateAll(saved);
      ghost var s4 := View();
      ProgressTrans(a, s3, s4);
      gray := saved;
      GraySaved(a, s4, View(), saved);
      GraySaved(s3, s4, View(), saved);
    }

    /** The atomic step: finishes marking, clears dead keys, and flips the current white. */
    method Atomic()
      requires phase.AtomicReady? && MarkInv(View(), grayagain) && gray == [] && RootsAllocated(View()) && Seen(View(), Ref(main))
      modifies this`heap, this`color, this`gray, this`grayagain, this`ephemeron, this`allweak, this`cur, this`phase
      ensures AtomicDone(old(View()), View())
    {
      hide MarkInv, Progress, RoundFinal, Seen, SeenAll, Allocated, AtomicDone, RootsAllocated, ClearedMarked;
      var saved := grayagain;
      ghost var o := View();
      phase := InsideAtomic;
      ghost var a := View();
      AtomicStart(o, a, saved);
      ghost var s3 := AtomicRoots(saved);
      Converge(a, s3);
      // No object has a finalizer, so the second pass, after the objects to be finalized are
      // marked, starts with nothing new.
      Converge(a, s3);
      ghost var s := View();
      RootsSeen(a, s3, s);
      ClearDeadKeys();
      cur := !cur;
      AtomicFinish(a, s, View());
      AtomicPhase(o, a, View());
    }

    method Converge(ghost a: State, ghost b: State)
      requires MarkInv(View(), []) && phase.InsideAtomic? && Progress(a, View()) && Progress(b, View())
      modifies this`color, this`gray, this`grayagain, this`ephemeron, this`allweak
      ensures MarkInv(View(), []) && gray == [] && phase.InsideAtomic? && RoundFinal(View())
      ensures Progress(a, View()) && Progress(b, View())
    {
      hide MarkInv, Progress, RoundFinal;
      ghost var s0 := View();
      PropagateAll([]);
      ghost var s1 := View();
      ConvergeEphemerons();
      ProgressTrans(s0, s1, View());
      ProgressTrans(a, s0, View());
      ProgressTrans(b, s0, View());
    }

    method ClearDeadKeys()
      requires MarkInv(View(), []) && gray == []
      modifies this`heap, this`color, this`gray
      ensures View() == old(View()).(heap := ClearedMarked(old(View())))
    {
      hide MarkInv, Seen, Allocated, StringKeysSeen;
      ghost var s := View();
      WeakLists(s);
      ClearKeys(ephemeron);
      ghost var t := View();
      WeakListsAgain(s, t);
      ClearKeys(allweak);
      WeakListsDone(s, t, heap);
    }

    // ---------- sweeping ----------

    /** One turn of the loop of `sweeplist`, at position `k`. */
    method SweepNext(k: nat) returns (next: nat)
      requires k < |allgc| && allgc[k] in color
      modifies this`heap, this`color, this`allgc
      ensures var dead := Dead(old(View()), old(allgc)[k]);
        View() == SweepOne(old(View()), k, dead) && next == if dead then k else k + 1
    {
      var curr := allgc[k];
      if color[curr] == White(!cur) {
        allgc := allgc[..k] + allgc[k + 1..];
        heap := heap - {curr};
        color := color - {curr};
        next := k;
      } else {
        color := color[curr := White(cur)];
        next := k + 1;
      }
    }

    /** Sweeps at most `count` objects of `allgc` from position `p`; returns where to go on, or
        `None` at the end of the list. `m` is the stretch of the list that was swept. */
    method SweepList(p: nat, count: nat) returns (pos: Option<nat>, ghost m: seq<Id>)
      requires WellFormed(View()) && p <= |allgc|
      modifies this`heap, this`color, this`allgc
      ensures |m| <= |old(allgc)| - p && m == old(allgc)[p..p + |m|]
      ensures |m| == if count < |old(allgc)| - p then count else |old(allgc)| - p
      ensures var l, r := old(allgc)[..p], old(allgc)[p + |m|..];
        && View() == Swept(old(View()), l, m, r)
        && pos == if r == [] then None else Some(|l + Survivors(old(View()), m)|)
    {
      hide WellFormed, Swept, Survivors, SweepLoop, SweepOne, Dead;
      ghost var a := View();
      m := [];
      var k: nat, n: nat := p, count;
      SweepLoopStart(a, p);
      while k < |allgc| && n > 0
        invariant SweepLoop(a, View(), p, m, k) && 0 <= n <= count && |m| == count - n
        decreases n
      {
        SweepLoopNext(a, View(), p, m, k);
        k := SweepNext(k);
        m := m + [a.allgc[p + |m|]];
        n := n - 1;
      }
      SweepLoopEnd(a, View(), p, m, k);
      pos := if k == |allgc| then None else Some(k);
    }

    /** Sweeps until an object that stays, or the end of the list. */
    method SweepToLive() returns (pos: Option<nat>, ghost m: seq<Id>)
      requires WellFormed(View())
      modifies this`heap, this`color, this`allgc
      ensures |m| <= |old(allgc)| && m == old(allgc)[..|m|]
      ensures var r := old(allgc)[|m|..];
        && View() == Swept(old(View()), [], m, r)
        && pos == if r == [] then None else Some(|Survivors(old(View()), m)|)
      ensures pos != Some(0)
    {
      hide WellFormed, Swept, Survivors;
      ghost var a := View();
      pos, m := SweepList(0, 1);
      SweptFirst(a, m);
      while pos == Some(0)
        invariant |m| <= |a.allgc| && m == a.allgc[..|m|]
        invariant View() == Swept(a, [], m, a.allgc[|m|..])
        invariant pos == if a.allgc[|m|..] == [] then None else Some(|Survivors(a, m)|)
        decreases |a.allgc| - |m|
      {
        SweptAgain(a, m);
        ghost var x := a.allgc[|m|];
        SweptCut(a.allgc, |m|, x);
        ghost var b, m' := View(), [];
        pos, m' := SweepList(0, 1);
        SweptFirst(b, m');
        SweptJoin(a, m, x, a.allgc[|m| + 1..]);
        m := m + [x];
      }
    }

    method EnterSweep()
      requires WellFormed(View()) && LiveRefs(View())
      modifies this`heap, this`color, this`allgc, this`phase, this`sweepgc
      ensures Enters(old(View()), View())
    {
      hide WellFormed, LiveRefs, Swept, Survivors;
      ghost var a := View();
      phase := SweepAll;
      PhaseKeeps(a, View());
      ghost var m;
      sweepgc, m := SweepToLive();
      assert EntersAt(a, View(), |m|);
    }

    // ---------- single steps ----------

    /** Marks the main thread, the registry and the basic metatables. */
    method MarkRootSet()
      requires Allocated(View()) && RootsAllocated(View())
      modifies this`color, this`gray
      ensures Marks(old(View()), View(), Nil) && Forced(old(View()), View(), [Ref(main), registry] + mt)
      ensures Seen(View(), Ref(main)) && Seen(View(), registry) && SeenAll(View(), mt)
    {
      hide Marks, Forced, Allocated, RootsAllocated, Seen, SeenAll;
      ghost var s := View();
      RootsAt(s);
      MarkValue(Ref(main));
      ghost var t1 := View();
      RootsKeptMarks(s, t1);
      MarkValue(registry);
      ghost var t2 := View();
      RootsKeptMarks(t1, t2);
      RootsAt(t2);
      MarkAll(mt);
      RestartMarks(s, t1, t2, View());
    }

    method ClearGrayLists()
      modifies this`gray, this`grayagain, this`ephemeron, this`allweak
      ensures View() == old(View()).(gray := [], grayagain := [], ephemeron := [], allweak := [])
    {
      gray, grayagain, ephemeron, allweak := [], [], [], [];
    }

    method SetPhase(p: Phase)
      modifies this`phase
      ensures View() == old(View()).(phase := p)
    {
      phase := p;
    }

    /** Starts a cycle: empties the gray lists and marks the root set. */
    method RestartCollection()
      requires Inv(View()) && phase.Pause?
      modifies this`color, this`gray, this`grayagain, this`ephemeron, this`allweak, this`phase
      ensures Collects(old(View()), View())
    {
      hide View, Inv, MarkInv, Marks, Forced, Allocated, RootsAllocated, Seen, SeenAll, Restarts;
      ghost var a := View();
      ViewIs();
      ClearGrayLists();
      ghost var s := View();
      ViewIs();
      RestartBase(a, s);
      MarkRootSet();
      ghost var t := View();
      SetPhase(Propagate);
      RestartsFrom(a, s, t, View());
    }

    method PropagateStep()
      requires Inv(View()) && phase.Propagate?
      modifies this`color, this`gray, this`grayagain, this`ephemeron, this`allweak, this`phase
      ensures Collects(old(View()), View())
    {
      hide Visits, Propagated, MarkInv, TriColour, WellFormed, LiveRefs, Allocated, RootsAllocated, Seen;
      ghost var a := View();
      TriColourMarkInv(a);
      PropagateMark([]);
      ghost var t := View();
      if gray == [] {
        phase := AtomicReady;
      }
      assert View().(phase := Propagate) == t;
    }

    method AtomicStep()
      requires Inv(View()) && phase.AtomicReady?
      modifies this`heap, this`color, this`allgc, this`gray, this`grayagain, this`ephemeron, this`allweak, this`cur, this`phase, this`sweepgc
      ensures Collects(old(View()), View())
    {
      hide View, Inv, Pend, Progress, MarkInv, WellFormed, LiveRefs, Allocated, RootsAllocated, Seen, AtomicDone, Enters;
      ghost var a := View();
      ViewIs();
      AtomicBegin(a);
      PropagateAll([]);
      ghost var p := View();
      AtomicEntry(a, p);
      ViewIs();
      Atomic();
      ghost var d := View();
      AtomicFrom(a, p, d);
      AtomicAlive(a, d);
      EnterSweep();
    }

    method SetSweep(p: Phase, pos: Option<nat>)
      modifies this`phase, this`sweepgc
      ensures sweepgc == pos && View() == old(View()).(phase := p, sweepgc := pos)
    {
      phase, sweepgc := p, pos;
    }

    method SweepStep()
      requires Inv(View()) && phase.SweepAll? && sweepMax > 0
      modifies this`heap, this`color, this`allgc, this`phase, this`sweepgc
      ensures Collects(old(View()), View())
    {
      hide View, WellFormed, LiveRefs, Swept, Survivors;
      ghost var a := View();
      ViewIs();
      if sweepgc.Some? {
        ghost var k := sweepgc.value;
        var pos;
        ghost var m;
        pos, m := SweepList(sweepgc.value, sweepMax);
        // At the end of the list: enter the next state, at the head of the (empty) list of objects with finalizers.
        SetSweep(if pos.Some? then SweepAll else SweepFinObj, if pos.Some? then pos else Some(0));
        SweepsFrom(a, View(), k, m, pos);
      } else {
        SetSweep(SweepFinObj, Some(0));
      }
    }

    /** One step of the collector. */
    method SingleStep()
      requires Inv(View()) && sweepMax > 0
      modifies this
      ensures Collects(old(View()), View()) && Stepped(old(View()), View())
    {
      hide Stepped, WellFormed, LiveRefs, TriColour, Restarts, Visits, Enters, AtomicDone, Sweeps;
      ghost var a := View();
      match phase {
        case Pause => RestartCollection();
        case Propagate => PropagateStep();
        case AtomicReady => AtomicStep();
        case SweepAll => SweepStep();
        case SweepFinObj =>
          phase := SweepToBeFnz;
        case SweepToBeFnz =>
          phase := SweepEnd;
          sweepgc := None;
        case SweepEnd =>
          color := color[main := White(cur)];
          phase := CallFin;
        case CallFin =>
          phase := Pause;
      }
      CollectsStepped(a, View());
    }

    // ---------- whole cycles ----------

    /** Advances the collector until it is in one of the states of `stop`. */
    method RunTilState(stop: set<Phase>)
      requires Inv(View()) && sweepMax > 0 && (exists q :: q in stop && q != InsideAtomic)
      modifies this
      ensures phase in stop && Inv(View()) && Preserves(old(View()), View())
      ensures Exact(old(View())) || (old(phase).Pause? && old(phase) !in stop) ==> Exact(View())
    {
      hide Inv, Preserves, Exact, Stepped;
      ghost var a := View();
      ghost var q :| q in stop && q != InsideAtomic;
      SameHeapReach(a, a);
      while phase !in stop
        invariant Inv(View()) && Preserves(a, View())
        invariant Exact(a) ==> Exact(View())
        invariant a.phase.Pause? ==> Exact(View()) || View() == a
        decreases Ahead(phase, q), if phase.Propagate? then Whites(View()) else {},
                  if phase.Propagate? then |gray| else Remaining(View())
      {
        ghost var s := View();
        SingleStep();
        StepAdvances(s, View(), q);
        PreservesTrans(a, s, View());
      }
    }

    /** Performs a full collection, from any state of the collector. */
    method FullGC()
      requires Inv(View()) && sweepMax > 0
      modifies this
      ensures Inv(View()) && phase == Pause && Preserves(old(View()), View())
      ensures forall x :: x in allgc ==> Reachable(View(), x) && color[x] == White(cur)
      ensures forall x :: Reachable(View(), x) ==> x in allgc || x in fixedgc || x == main
    {
      hide Inv, Preserves, Exact, NOT_PAUSE, Reachable, Enters, WellFormed, LiveRefs, NonDead, NoGarbage;
      ghost var a := View();
      SameHeapReach(a, a);
      NotPauseStops();
      if phase.Propagate? || phase.AtomicReady? {
        // Black objects may be around: sweep everything to turn them white again.
        InvAlive(a);
        EnterSweep();
        EntersKeeps(a, View());
      }
      ghost var s0 := View();
      RunTilState({Pause});
      ghost var s1 := View();
      PreservesTrans(a, s0, s1);
      NewCycle();
      PreservesTrans(a, s1, View());
      ExactAtPause(View());
    }

    /** A whole collection cycle, from pause to pause. */
    method NewCycle()
      requires Inv(View()) && sweepMax > 0 && phase == Pause
      modifies this
      ensures Inv(View()) && phase == Pause && Preserves(old(View()), View()) && Exact(View())
    {
      hide Inv, Preserves, Exact, NOT_PAUSE;
      ghost var a := View();
      NotPauseStops();
      RunTilState(NOT_PAUSE);
      ghost var s1 := View();
      RunTilState({CallFin});
      ghost var s2 := View();
      PreservesTrans(a, s1, s2);
      RunTilState({Pause});
      PreservesTrans(a, s2, View());
    }

    // ---------- creation ----------

    /** A new state: only the main thread exists, and the collector is at pause. */
    constructor (mainThread: Id, sweepMax: nat)
      ensures Inv(View()) && phase == Pause && main == mainThread && this.sweepMax == sweepMax
      ensures heap == map[mainThread := Thread([])] && allgc == [] && fixedgc == []
    {
      heap, color, cells := map[mainThread := Thread([])], map[mainThread := White(false)], map[];
      allgc, fixedgc, main, running := [], [], mainThread, mainThread;
      registry, mt := Nil, [];
      gray, grayagain, ephemeron, allweak := [], [], [], [];
      sweepgc, cur, phase := None, false, Pause;
      this.sweepMax := sweepMax;
    }

    // ---------- barriers ----------

    /** `luaC_barrier` on object `p`, in which one of the values was stored. */
    method Barrier(p: Id, v: Val)
      requires InvBut(View(), p, [v]) && p in heap && (v.Ref? ==> v.id in heap)
      modifies this`color, this`gray
      ensures Inv(View()) && BarrierEffect(old(View()), View(), p, v)
    {
      hide InvBut, Inv, Marks, Seen, Allocated;
      ghost var b := View();
      InvButDomain(b, p, [v]);
      if v.Ref? && color[p].Black? && color[v.id].White? {
        if phase.Propagate? || phase.AtomicReady? {
          InvButAllocated(b, p, [v]);
          ReallyMark(v.id);
          ForwardMarks(b, View(), p, [v]);
          SeenOne(View(), v);
          NoBarrier(View(), p, [v]);
        } else {
          InvButSweep(b, p, [v]);
          color := color[p := White(cur)];
          ForwardSweep(b, View(), p);
        }
      } else {
        Unneeded(b, p, v);
        NoBarrier(b, p, [v]);
      }
    }

    /** `luaC_barrierback` on table `p`, in which the values were stored. */
    method BarrierBack(p: Id, v: Val, ghost vs: seq<Val>)
      requires InvBut(View(), p, [v] + vs) && p in heap && heap[p].Table? && (v.Ref? ==> v.id in heap)
      modifies this`color, this`grayagain
      ensures InvBut(View(), p, vs)
      ensures View() == BarrierBackEffect(old(View()), p, v)
    {
      hide InvBut, Inv;
      ghost var b := View();
      InvButDomain(b, p, [v] + vs);
      if v.Ref? && color[p].Black? && color[v.id].White? {
        color := color[p := Gray];
        grayagain := [p] + grayagain;
        BackwardGray(b, View(), p, [v] + vs);
        if !KeepInvariant(b) {
          InvButSweep(View(), p, [v] + vs);
        }
        InvIsInvBut(View(), p, vs);
      } else {
        BarrierNeeded(b, p, v, vs);
      }
    }

    // ---------- what the program does ----------

    method Write(p: Id, o': Obj)
      modifies this`heap
      ensures heap == old(heap)[p := o'] && View() == old(View()).(heap := heap)
    {
      heap := heap[p := o'];
    }

    /** Stores `o'` over object `p`, then runs the forward barrier for the new value `v`. */
    method StoreForward(p: Id, o': Obj, v: Val)
      requires Inv(View()) && p in heap && Stores(cells, heap[p], o', [v]) && Accessible(View(), v)
      modifies this`heap, this`color, this`gray
      ensures Inv(View()) && Next(old(View()), Store(p, o', v), View())
      ensures heap == old(heap)[p := o']
    {
      hide InvBut, Inv, Stores, Accessible, BarrierEffect;
      ghost var a := View();
      OneAccessible(a, v);
      heap := heap[p := o'];
      StoreInv(a, View(), p, o', [v]);
      Barrier(p, v);
    }

    /** Assigns field `i` of a closure, or constant `i` of a prototype. */
    method SetRef(p: Id, i: nat, v: Val)
      requires Inv(View()) && p in heap && heap[p].Closure? && i < |heap[p].refs| && Accessible(View(), v)
      modifies this`heap, this`color, this`gray
      ensures Inv(View()) && Next(old(View()), Store(p, old(heap)[p].(refs := old(heap)[p].refs[i := v]), v), View())
    {
      hide Inv, Accessible;
      ClosureStores(cells, heap[p], i, v);
      StoreForward(p, heap[p].(refs := heap[p].refs[i := v]), v);
    }

    method SetMetatable(p: Id, m: Val)
      requires Inv(View()) && p in heap && (heap[p].Table? || heap[p].Udata?) && Accessible(View(), m)
      modifies this`heap, this`color, this`gray
      ensures Inv(View()) && Next(old(View()), Store(p, old(heap)[p].(meta := m), m), View())
    {
      hide Inv, Accessible;
      MetaStores(cells, heap[p], m);
      StoreForward(p, heap[p].(meta := m), m);
    }

    method SetUservalue(p: Id, v: Val)
      requires Inv(View()) && p in heap && heap[p].Udata? && Accessible(View(), v)
      modifies this`heap, this`color, this`gray
      ensures Inv(View()) && Next(old(View()), Store(p, old(heap)[p].(user := v), v), View())
    {
      hide Inv, Accessible;
      UserStores(cells, heap[p], v);
      StoreForward(p, heap[p].(user := v), v);
    }

    /** Assigns slot `i` of the array part of a table; `i` may be one past the end. */
    method SetArray(t: Id, i: nat, v: Val)
      requires Inv(View()) && t in heap && heap[t].Table? && i <= |heap[t].arr| && Accessible(View(), v)
      modifies this`heap, this`color, this`grayagain
      ensures Inv(View())
      ensures var o := old(heap)[t];
        Next(old(View()), StoreTable(t, o.(arr := if i == |o.arr| then o.arr + [v] else o.arr[i := v]), Nil, v), View())
    {
      hide View, InvBut, Inv, Stores, Accessible;
      ghost var a := View();
      ViewIs();
      var o := heap[t];
      var o' := o.(arr := if i == |o.arr| then o.arr + [v] else o.arr[i := v]);
      ArrayStores(cells, o, i, v);
      NilAccessible(a);
      OneAccessible(a, v);
      Write(t, o');
      ViewIs();
      StoreInv(a, View(), t, o', [v]);
      assert [v] + [] == [v];
      BarrierBack(t, v, []);
      NoValues(View());
      NoBarrier(View(), t, []);
    }

    /** `luaC_barrierback`, for a key and a value that have both been stored. */
    method BarrierEntry(t: Id, k: Val, v: Val)
      requires InvBut(View(), t, [k, v]) && t in heap && heap[t].Table? && (k.Ref? ==> k.id in heap) && (v.Ref? ==> v.id in heap)
      modifies this`color, this`grayagain
      ensures Inv(View())
      ensures View() == BarrierBackEffect(BarrierBackEffect(old(View()), t, k), t, v)
    {
      hide InvBut, Inv;
      assert [k] + [v] == [k, v] && [v] + [] == [v];
      BarrierBack(t, k, [v]);
      BarrierBack(t, v, []);
      NoValues(View());
      NoBarrier(View(), t, []);
    }

    /** Assigns `t[k] = v` in the hash part, at entry `i` or in a new entry. */
    method SetEntry(t: Id, i: nat, k: Val, v: Val)
      requires Inv(View()) && t in heap && heap[t].Table? && i <= |heap[t].entries|
      requires Accessible(View(), k) && Accessible(View(), v)
      modifies this`heap, this`color, this`grayagain
      ensures Inv(View())
      ensures var o := old(heap)[t];
        Next(old(View()), StoreTable(t, o.(entries := if i == |o.entries| then o.entries + [Entry(k, v)]
                                                      else o.entries[i := Entry(k, v)]), k, v), View())
    {
      hide View, InvBut, Inv, Stores, Accessible;
      ghost var a := View();
      ViewIs();
      var o := heap[t];
      var o' := o.(entries := if i == |o.entries| then o.entries + [Entry(k, v)] else o.entries[i := Entry(k, v)]);
      EntryStores(cells, o, i, k, v);
      TwoAccessible(a, k, v);
      Write(t, o');
      ViewIs();
      StoreInv(a, View(), t, o', [k, v]);
      BarrierEntry(t, k, v);
    }

    /** Changes whether a table holds its keys weakly. */
    method SetMode(t: Id, m: Mode)
      requires Inv(View()) && t in heap && heap[t].Table?
      modifies this`heap
      ensures Inv(View()) && Next(old(View()), StoreTable(t, old(heap)[t].(mode := m), Nil, Nil), View())
    {
      hide InvBut, Inv, Stores;
      ghost var a := View();
      NoneAccessible(a);
      NilAccessible(a);
      ModeStores(cells, heap[t], m);
      heap := heap[t := heap[t].(mode := m)];
      StoreInv(a, View(), t, heap[t], []);
      NoValues(View());
      NoBarrier(View(), t, []);
    }

    /** Assigns the closed upvalue `i` of a closure, which other closures may share. */
    method SetUpval(p: Id, i: nat, v: Val)
      requires Inv(View()) && p in heap && heap[p].Closure? && i < |heap[p].upvals| && Accessible(View(), v)
      modifies this`cells, this`color, this`gray
      ensures Inv(View()) && Next(old(View()), StoreUpval(heap[p].upvals[i], v), View())
    {
      hide Inv, InvButCell, Accessible, Allocated, Marks;
      ghost var a := View();
      LiveHere(a, v);
      UpvalCell(a, p, i);
      var c := heap[p].upvals[i];
      cells := cells[c := v];
      ghost var b := View();
      CellStore(a, b, c, v);
      if phase.Propagate? || phase.AtomicReady? {
        CellAllocated(b, v);
        MarkValue(v);
        CellMarked(b, View(), v);
      } else {
        CellSweep(b, v);
      }
    }

    /** Replaces the stack of a thread by reachable values. */
    method SetStack(t: Id, stack: seq<Val>)
      requires Inv(View()) && t in heap && heap[t].Thread? && AccessibleAll(View(), stack)
      modifies this`heap
      ensures Inv(View()) && Next(old(View()), StoreStack(t, stack), View())
    {
      hide Inv, Accessible, AccessibleAll, LiveAll;
      ghost var a := View();
      AccessibleAllLive(a, stack);
      heap := heap[t := Thread(stack)];
      PushInv(a, View(), t, stack);
    }

    /** The sweep position counts from the head of the list, where an object is about to be put. */
    method ShiftSweep()
      modifies this`sweepgc
      ensures View() == old(View()).(sweepgc := Shifted(old(View())))
    {
      if phase.SweepAll? && sweepgc.Some? && sweepgc.value > 0 {
        sweepgc := Some(sweepgc.value + 1);
      }
    }

    /** The new object is put at the head of the list of all objects. */
    method Link(x: Id, o: Obj, cs: map<CellId, Val>)
      modifies this`heap, this`color, this`cells, this`allgc, this`sweepgc
      ensures View() == old(View()).(heap := old(heap)[x := o], color := old(color)[x := White(cur)],
        cells := old(cells) + cs, allgc := [x] + old(allgc), sweepgc := Shifted(old(View())))
    {
      hide Shifted;
      ShiftSweep();
      heap, color, cells, allgc := heap[x := o], color[x := White(cur)], cells + cs, [x] + allgc;
    }

    /** `luaC_newobj`: links a new object at the head of `allgc`, in the current white. */
    method NewObj(x: Id, o: Obj, cs: map<CellId, Val>)
      requires Inv(View()) && x !in heap && cs.Keys !! cells.Keys
      requires forall v :: Holds(o, cells + cs, v) ==> Accessible(View(), v)
      requires o.Closure? ==> forall c :: c in o.upvals ==> c in cells || c in cs
      modifies this`heap, this`color, this`cells, this`allgc, this`sweepgc
      ensures Inv(View())
      ensures View() == old(View()).(heap := old(heap)[x := o], color := old(color)[x := White(cur)],
        cells := old(cells) + cs, allgc := [x] + old(allgc), sweepgc := Shifted(old(View())))
    {
      hide Inv, Accessible, Holds;
      ghost var a := View();
      Link(x, o, cs);
      NewInv(a, View(), x, o, cs);
    }

    /** Creates object `o` at address `x` and leaves it on the stack of the running thread. */
    method NewObject(x: Id, o: Obj, cs: map<CellId, Val>)
      requires Inv(View()) && x !in heap && cs.Keys !! cells.Keys && running in heap && heap[running].Thread?
      requires forall v :: Holds(o, cells + cs, v) ==> Accessible(View(), v)
      requires o.Closure? ==> forall c :: c in o.upvals ==> c in cells || c in cs
      modifies this`heap, this`color, this`cells, this`allgc, this`sweepgc
      ensures Inv(View()) && Next(old(View()), Create(x, o, cs), View())
    {
      hide Inv, Accessible, LiveAll, Holds, AllWhite;
      NewObj(x, o, cs);
      ghost var b := View();
      PushLive(b, x);
      heap := heap[running := Thread(heap[running].stack + [Ref(x)])];
      PushInv(b, View(), running, heap[running].stack);
    }

    /** Interning finds string `x` in the string table: it is reused even if it is dead, in which
        case it is resurrected first. */
    method Reuse(x: Id)
      requires Inv(View()) && x in heap && heap[x].Str? && running in heap && heap[running].Thread?
      modifies this`heap, this`color
      ensures Inv(View()) && Next(old(View()), Intern(x), View()) && !Dead(View(), x)
    {
      hide Inv, LiveAll;
      ghost var a := View();
      SameDomain(a);
      if color[x] == White(!cur) {
        color := color[x := White(cur)];
      }
      ghost var b := View();
      ResurrectInv(a, b, x);
      PushLive(b, x);
      heap := heap[running := Thread(heap[running].stack + [Ref(x)])];
      PushInv(b, View(), running, heap[running].stack);
    }

    /** Changes the running thread, the registry and the basic metatables. */
    method SetRoots(t: Id, r: Val, m: seq<Val>)
      requires Inv(View()) && Accessible(View(), Ref(t)) && Accessible(View(), r) && AccessibleAll(View(), m)
      modifies this`running, this`registry, this`mt
      ensures Inv(View()) && Next(old(View()), Action.SetRoots(t, r, m), View())
    {
      hide Inv, Accessible, AccessibleAll;
      ghost var a := View();
      running, registry, mt := t, r, m;
      RootInv(a, View());
    }

    /** Makes the newest object, a string, uncollectable; done while the state is being created. */
    method Fix()
      requires Inv(View()) && phase.Pause? && allgc != [] && allgc[0] in heap && heap[allgc[0]].Str?
      modifies this`color, this`allgc, this`fixedgc
      ensures Inv(View()) && Next(old(View()), Action.Fix, View())
    {
      hide Inv;
      ghost var a := View();
      var x := allgc[0];
      color := color[x := Gray];
      allgc := allgc[1..];
      fixedgc := [x] + fixedgc;
      FixInv(a, View());
    }
  }
}
