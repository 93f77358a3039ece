/** Traversing gray objects: what one traversal guarantees and how it keeps the accounting. */
module GcTraversal {
  import opened GcHeap
  import opened GcMarking

  // ---------- the traversal of one object ----------

  /** `s` is `a` after marking values that object `h` holds. */
  ghost predicate Traversed(a: State, s: State, h: Id) {
    Allocated(s) && Marks(a, s, Nil) && Forced(a, s, [Ref(h)])
  }

  lemma TraversedRefl(a: State, h: Id)
    requires Allocated(a)
    ensures Traversed(a, a, h)
  {
  }

  lemma TraversedMore(a: State, s: State, t: State, h: Id)
    requires Allocated(a) && Traversed(a, s, h) && Traversed(s, t, h)
    ensures Traversed(a, t, h)
    ensures forall v :: Seen(s, v) ==> Seen(t, v)
  {
    MarksTrans(a, s, t);
    ForcedTrans(a, s, t, [Ref(h)]);
    MarksGrows(s, t, Nil);
    hide Marks, Forced, Allocated;
  }

  lemma TraversedStrong(s: State, t: State, h: Id, vs: seq<Val>)
    requires Allocated(t) && Marks(s, t, Nil) && Forced(s, t, vs) && h in s.heap
    requires forall v :: v in vs ==> StrongHolds(s.heap, s.heap[h], s.cells, v)
    ensures Traversed(s, t, h)
  {
    hide Marks, Allocated;
    forall S: set<Id> | Closed(s, S) && Marked(s) <= S && (forall v :: v in [Ref(h)] ==> In(S, v))
      ensures Marked(t) <= S
    {
      assert Ref(h) in [Ref(h)];
      forall v | v in vs
        ensures In(S, v)
      {
        assert StrongHolds(s.heap, s.heap[h], s.cells, v);
      }
    }
  }

  lemma TraversedValue(s: State, t: State, h: Id, e: Entry)
    requires Allocated(t) && Marks(s, t, Nil) && Forced(s, t, [e.val]) && h in s.heap
    requires EphemeronEntry(s.heap[h], e) && Seen(s, e.key)
    ensures Traversed(s, t, h)
  {
    hide Marks, Allocated;
    forall S: set<Id> | Closed(s, S) && Marked(s) <= S && (forall v :: v in [Ref(h)] ==> In(S, v))
      ensures Marked(t) <= S
    {
      assert Ref(h) in [Ref(h)];
      assert e.key.Ref? ==> e.key.id in Marked(s);
      assert In(S, e.key);
      assert forall v :: v in [e.val] ==> In(S, v);
    }
  }

  /** Entries of a strong table whose key and value are marked. */
  ghost predicate EntriesSeen(s: State, es: seq<Entry>, n: nat) {
    forall j :: 0 <= j < n && j < |es| && es[j].val != Nil ==> Seen(s, es[j].key) && Seen(s, es[j].val)
  }

  ghost predicate HeldSeen(s: State, x: Id) {
    x in s.heap && forall v :: Holds(s.heap[x], s.cells, v) ==> Seen(s, v)
  }

  /** An entry of an ephemeron table after its visit: a string key is marked, and an unmarked key
      or value has set the matching flag. */
  ghost predicate EntryVisited(s: State, e: Entry, clears: bool, ww: bool) {
    e.val != Nil ==>
      && (IsStr(s.heap, e.key) ==> Seen(s, e.key))
      && (ww || Seen(s, e.val))
      && (clears || Seen(s, e.key))
  }

  ghost predicate EntriesVisited(s: State, es: seq<Entry>, n: nat, clears: bool, ww: bool) {
    forall j :: 0 <= j < n && j < |es| ==> EntryVisited(s, es[j], clears, ww)
  }

  /** The entry needs no more propagation: its key is clearable, or key and value are marked. */
  ghost predicate EntryFinal(s: State, e: Entry) {
    e.val != Nil ==> Clearable(s, e.key) || (Seen(s, e.key) && Seen(s, e.val))
  }

  ghost predicate EntriesFinal(s: State, es: seq<Entry>, n: nat) {
    forall j :: 0 <= j < n && j < |es| ==> EntryFinal(s, es[j])
  }

  /** Only strings were marked between `a` and `s`. */
  ghost predicate OnlyStrings(a: State, s: State) {
    forall x :: IsWhite(a, x) && !IsWhite(s, x) ==> x in a.heap && a.heap[x].Str?
  }

  lemma EntriesKept(s: State, t: State, es: seq<Entry>, n: nat, clears: bool, ww: bool, clears': bool, ww': bool)
    requires s.heap == t.heap && (forall v :: Seen(s, v) ==> Seen(t, v))
    requires EntriesVisited(s, es, n, clears, ww) && (clears ==> clears') && (ww ==> ww')
    ensures EntriesVisited(t, es, n, clears', ww')
  {
    forall j | 0 <= j < n && j < |es|
      ensures EntryVisited(t, es[j], clears', ww')
    {
      assert EntryVisited(s, es[j], clears, ww);
    }
  }

  lemma FinalKept(s: State, t: State, es: seq<Entry>, n: nat)
    requires s.heap == t.heap && (forall v :: Seen(s, v) ==> Seen(t, v)) && OnlyStrings(s, t)
    requires s.color.Keys == t.color.Keys
    requires EntriesFinal(s, es, n)
    ensures EntriesFinal(t, es, n)
  {
    forall j | 0 <= j < n && j < |es|
      ensures EntryFinal(t, es[j])
    {
      assert EntryFinal(s, es[j]);
    }
  }

  lemma SeenEntry(s: State, t: State, u: State, arr: seq<Val>, es: seq<Entry>, i: nat)
    requires SeenAll(s, arr) && EntriesSeen(s, es, i) && i < |es|
    requires (forall v :: Seen(s, v) ==> Seen(t, v)) && (forall v :: Seen(t, v) ==> Seen(u, v))
    requires Seen(t, es[i].key) && Seen(u, es[i].val)
    ensures SeenAll(u, arr) && EntriesSeen(u, es, i + 1)
  {
    hide Seen;
    assert forall v :: Seen(s, v) ==> Seen(u, v);
  }

  lemma SeenNone(s: State, es: seq<Entry>)
    ensures EntriesSeen(s, es, 0)
  {
  }

  lemma SeenNil(s: State, es: seq<Entry>, i: nat)
    requires EntriesSeen(s, es, i) && i < |es| && es[i].val == Nil
    ensures EntriesSeen(s, es, i + 1)
  {
  }

  lemma OnlyStringsTrans(a: State, s: State, t: State)
    requires OnlyStrings(a, s) && OnlyStrings(s, t) && a.heap == s.heap && Marks(a, s, Nil) && Marks(s, t, Nil)
    ensures OnlyStrings(a, t)
  {
  }

  lemma HasMember(q: seq<Id>)
    ensures q != [] ==> exists x :: x in q
  {
    if q != [] {
      assert q[0] in q;
    }
  }

  lemma OnlyStringsGray(a: State, s: State)
    requires Marks(a, s, Nil) && OnlyStrings(a, s) && a.gray == []
    ensures s.gray == []
  {
    assert forall x :: x in s.gray ==> NewGray(a, s, x);
    HasMember(s.gray);
  }

  lemma TableHolds(s: State, h: Id)
    requires Allocated(s) && h in s.heap && s.heap[h].Table?
    ensures AllocatedAll(s, s.heap[h].arr) && AllocatedAll(s, [s.heap[h].meta])
    ensures forall v :: v in s.heap[h].arr || v == s.heap[h].meta ==> StrongHolds(s.heap, s.heap[h], s.cells, v)
  {
    forall v | v in s.heap[h].arr || v == s.heap[h].meta
      ensures StrongHolds(s.heap, s.heap[h], s.cells, v) && (v.Ref? ==> v.id in s.heap)
    {
      assert Holds(s.heap[h], s.cells, v);
    }
  }

  lemma EntryHolds(s: State, h: Id, e: Entry)
    requires h in s.heap && s.heap[h].Table? && e in s.heap[h].entries && e.val != Nil
    ensures Holds(s.heap[h], s.cells, e.key) && Holds(s.heap[h], s.cells, e.val)
    ensures Allocated(s) && e.key.Ref? ==> e.key.id in s.heap
    ensures Allocated(s) && e.val.Ref? ==> e.val.id in s.heap && e.val.id in s.color
    ensures !IsEphemeron(s.heap[h]) ==> StrongHolds(s.heap, s.heap[h], s.cells, e.key) && StrongHolds(s.heap, s.heap[h], s.cells, e.val)
  {
    assert Holds(s.heap[h], s.cells, e.key) && Holds(s.heap[h], s.cells, e.val);
  }

  /** Marking one strongly held value is one more step of the traversal of `h`. */
  lemma StrongStep(a: State, s: State, t: State, h: Id, v: Val)
    requires Allocated(a) && Traversed(a, s, h) && h in s.heap
    requires StrongHolds(s.heap, s.heap[h], s.cells, v)
    requires Allocated(t) && Marks(s, t, Nil) && Forced(s, t, [v])
    ensures Traversed(a, t, h) && t.heap == s.heap && t.cells == s.cells
    ensures forall w :: Seen(s, w) ==> Seen(t, w)
  {
    hide Traversed, Allocated, Forced, StrongHolds;
    TraversedStrong(s, t, h, [v]);
    TraversedMore(a, s, t, h);
  }

  // ---------- ephemeron tables ----------

  /** Loop invariant of the traversal of the entries of ephemeron table `h`: `clears` and `ww` say
      whether it has seen an unmarked key, and one with an unmarked value; `marked` whether it has
      marked a value. */
  ghost predicate EphemeronLoop(a: State, s: State, h: Id, i: nat, clears: bool, ww: bool, marked: bool) {
    && Traversed(a, s, h)
    && h in s.heap && IsEphemeron(s.heap[h])
    && SeenAll(s, s.heap[h].arr)
    && EntriesVisited(s, s.heap[h].entries, i, clears, ww)
    && (marked ==> Whites(s) < Whites(a))
    && (!marked ==> OnlyStrings(a, s) && EntriesFinal(s, s.heap[h].entries, i))
  }

  /** What asking whether a key can be cleared does: strings are never cleared, and get marked. */
  ghost predicate ClearCheck(s: State, t: State, v: Val, r: bool) {
    && Allocated(t) && Marks(s, t, Nil) && OnlyStrings(s, t) && Forced(s, t, [v])
    && (r ==> t == s && Clearable(s, v))
    && (!r ==> Seen(t, v))
    && (!IsStr(s.heap, v) ==> t == s)
  }

  lemma EphemeronNil(a: State, s: State, h: Id, i: nat, clears: bool, ww: bool, marked: bool)
    requires EphemeronLoop(a, s, h, i, clears, ww, marked)
    requires i < |s.heap[h].entries| && s.heap[h].entries[i].val == Nil
    ensures EphemeronLoop(a, s, h, i + 1, clears, ww, marked)
  {
    hide Traversed, OnlyStrings, Whites, SeenAll;
  }

  lemma EphemeronCleared(a: State, s: State, h: Id, i: nat, clears: bool, ww: bool, marked: bool, ww': bool)
    requires EphemeronLoop(a, s, h, i, clears, ww, marked)
    requires i < |s.heap[h].entries| && s.heap[h].entries[i].val != Nil
    requires Clearable(s, s.heap[h].entries[i].key)
    requires ww' == (ww || !Seen(s, s.heap[h].entries[i].val))
    ensures EphemeronLoop(a, s, h, i + 1, true, ww', marked)
  {
    hide Traversed, OnlyStrings, Whites, SeenAll, Seen;
    EntriesKept(s, s, s.heap[h].entries, i, clears, ww, true, ww');
    assert EntryVisited(s, s.heap[h].entries[i], true, ww') by {
      ClearableNotString(s, s.heap[h].entries[i].key);
    }
  }

  lemma ClearableNotString(s: State, k: Val)
    requires Clearable(s, k)
    ensures !IsStr(s.heap, k)
  {
  }

  lemma TraversedAllocated(a: State, s: State, h: Id)
    requires Traversed(a, s, h)
    ensures Allocated(s) && s.heap == a.heap && s.color.Keys == a.color.Keys && Whites(s) <= Whites(a)
    ensures Marks(a, s, Nil) && forall v :: Seen(a, v) ==> Seen(s, v)
  {
    MarksGrows(a, s, Nil);
  }

  /** After the check of a key that is not cleared. */
  lemma EphemeronKept(a: State, s: State, t: State, h: Id, i: nat, clears: bool, ww: bool, marked: bool)
    requires Allocated(a) && EphemeronLoop(a, s, h, i, clears, ww, marked)
    requires i < |s.heap[h].entries| && s.heap[h].entries[i].val != Nil
    requires ClearCheck(s, t, s.heap[h].entries[i].key, false)
    ensures EphemeronLoop(a, t, h, i, clears, ww, marked)
    ensures Seen(t, s.heap[h].entries[i].val) ==> EphemeronLoop(a, t, h, i + 1, clears, ww, marked)
  {
    hide Traversed, OnlyStrings, Whites, Seen, Marks, Allocated, Forced;
    var es := s.heap[h].entries;
    TraversedAllocated(a, s, h);
    KeyTraversed(s, t, h, es[i]);
    TraversedAllocated(s, t, h);
    TraversedMore(a, s, t, h);
    EntriesKept(s, t, es, i, clears, ww, clears, ww);
    if !marked {
      OnlyStringsTrans(a, s, t);
      FinalKept(s, t, es, i);
    }
  }

  lemma KeyTraversed(s: State, t: State, h: Id, e: Entry)
    requires h in s.heap && EphemeronEntry(s.heap[h], e) && Allocated(s)
    requires ClearCheck(s, t, e.key, false)
    ensures Traversed(s, t, h)
  {
    hide Traversed, Marks, Allocated, Forced;
    if IsStr(s.heap, e.key) {
      TraversedStrong(s, t, h, [e.key]);
    } else {
      TraversedRefl(s, h);
    }
  }

  lemma EphemeronMark(a: State, t: State, u: State, h: Id, i: nat, clears: bool, ww: bool, marked: bool)
    requires Allocated(a) && EphemeronLoop(a, t, h, i, clears, ww, marked)
    requires i < |t.heap[h].entries| && t.heap[h].entries[i].val != Nil
    requires Seen(t, t.heap[h].entries[i].key)
    requires Allocated(u) && Marks(t, u, Nil) && Forced(t, u, [t.heap[h].entries[i].val]) && Seen(u, t.heap[h].entries[i].val)
    requires Whites(u) < Whites(t)
    ensures EphemeronLoop(a, u, h, i + 1, clears, ww, true)
  {
    var es := t.heap[h].entries;
    TraversedValue(t, u, h, es[i]);
    TraversedMore(a, t, u, h);
    MarksGrows(t, u, Nil);
    EntriesKept(t, u, es, i, clears, ww, clears, ww);
    TraversedWhites(a, t, h);
    hide Traversed, OnlyStrings, Whites, Seen, Marks, Allocated, Forced;
  }

  lemma TraversedWhites(a: State, s: State, h: Id)
    requires Traversed(a, s, h)
    ensures Whites(s) <= Whites(a)
  {
    MarksGrows(a, s, Nil);
  }

  /** Loop invariant of the traversal of the array part. */
  ghost predicate ArrayLoop(a: State, s: State, h: Id, i: nat, marked: bool) {
    && Traversed(a, s, h)
    && h in s.heap && IsEphemeron(s.heap[h]) && i <= |s.heap[h].arr|
    && SeenAll(s, s.heap[h].arr[..i])
    && (if marked then Whites(s) < Whites(a) else s == a)
  }

  lemma ArrayStart(a: State, h: Id)
    requires Allocated(a) && h in a.heap && IsEphemeron(a.heap[h])
    ensures ArrayLoop(a, a, h, 0, false)
    ensures AllocatedAll(a, a.heap[h].arr)
  {
    hide Traversed, Allocated;
    TraversedRefl(a, h);
    TableHolds(a, h);
  }

  lemma ArrayStep(a: State, s: State, t: State, h: Id, i: nat, marked: bool, marked': bool)
    requires Allocated(a) && ArrayLoop(a, s, h, i, marked) && i < |s.heap[h].arr|
    requires Allocated(t) && Marks(s, t, Nil) && Forced(s, t, [s.heap[h].arr[i]]) && Seen(t, s.heap[h].arr[i])
    requires if Seen(s, s.heap[h].arr[i]) then t == s && marked' == marked else Whites(t) < Whites(s) && marked'
    ensures ArrayLoop(a, t, h, i + 1, marked')
  {
    var v := s.heap[h].arr[i];
    TableHolds(s, h);
    StrongStep(a, s, t, h, v);
    TraversedWhites(a, s, h);
    assert t.heap[h].arr[..i + 1] == s.heap[h].arr[..i] + [v];
    hide Traversed, Allocated, Marks, Forced, Whites, StrongHolds;
  }

  lemma ArrayNext(a: State, s: State, h: Id, i: nat, marked: bool)
    requires Allocated(s) && ArrayLoop(a, s, h, i, marked) && i < |s.heap[h].arr|
    ensures s.heap[h].arr[i].Ref? ==> s.heap[h].arr[i].id in s.heap && s.heap[h].arr[i].id in s.color
  {
    TableHolds(s, h);
    assert s.heap[h].arr[i] in s.heap[h].arr;
  }

  lemma NoMark(s: State, v: Val)
    requires Allocated(s) && (v.Ref? ==> v.id in s.color && !s.color[v.id].White?)
    ensures Marks(s, s, Nil) && Forced(s, s, [v]) && Seen(s, v)
  {
  }

  lemma WhiteUnseen(s: State, v: Val)
    requires v.Ref? ==> v.id in s.color
    ensures (v.Ref? && s.color[v.id].White?) == !Seen(s, v)
  {
  }

  lemma ArrayEnd(a: State, s: State, h: Id, marked: bool)
    requires h in s.heap && IsEphemeron(s.heap[h]) && ArrayLoop(a, s, h, |s.heap[h].arr|, marked)
    ensures EphemeronLoop(a, s, h, 0, false, false, marked)
  {
    hide Traversed, Whites;
    assert s.heap[h].arr[..|s.heap[h].arr|] == s.heap[h].arr;
  }

  /** The list that the traversal puts `h` on: `grayagain` while propagating; in the atomic step
      `ephemeron` when an unmarked key has an unmarked value, `allweak` when there is an unmarked
      key, and no list otherwise. */
  function Relinked(s: State, h: Id, clears: bool, ww: bool): State {
    if s.phase.Propagate? then s.(grayagain := [h] + s.grayagain)
    else if ww then s.(ephemeron := [h] + s.ephemeron)
    else if clears then s.(allweak := [h] + s.allweak)
    else s
  }
}
