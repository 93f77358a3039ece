/** What a program can reach: the roots, and whatever an object within reach refers to. An ephemeron table refers to
    its keys weakly, and to a value only where the key is within reach. */
module GcLaws {
  import opened GcHeap

  /** The roots of `markroot` and of the state: threads, the registry, the metatables of basic types, fixed objects. */
  lemma RootsReachable(s: State, x: Id)
    ensures Reachable(s, s.main) && Reachable(s, s.running) && Accessible(s, s.registry)
    ensures forall v :: v in s.mt ==> Accessible(s, v)
    ensures x in s.fixedgc ==> Reachable(s, x)
  {
  }

  lemma UdataReaches(s: State, x: Id, meta: Val, user: Val)
    requires Reachable(s, x) && x in s.heap && s.heap[x] == Udata(meta, user)
    ensures Accessible(s, meta) && Accessible(s, user)
  {
    Step(s, x, meta);
    Step(s, x, user);
  }

  /** Closures and prototypes reach their constants and functions, and what their upvalues hold. */
  lemma ClosureReaches(s: State, x: Id, refs: seq<Val>, upvals: seq<CellId>, v: Val, c: CellId)
    requires Reachable(s, x) && x in s.heap && s.heap[x] == Closure(refs, upvals)
    ensures v in refs ==> Accessible(s, v)
    ensures c in upvals && c in s.cells ==> Accessible(s, s.cells[c])
  {
    if v in refs {
      Step(s, x, v);
    }
    if c in upvals && c in s.cells {
      Step(s, x, s.cells[c]);
    }
  }

  lemma ThreadReaches(s: State, x: Id, stack: seq<Val>, v: Val)
    requires Reachable(s, x) && x in s.heap && s.heap[x] == Thread(stack) && v in stack
    ensures Accessible(s, v)
  {
    Step(s, x, v);
  }

  lemma TableReaches(s: State, x: Id, meta: Val, arr: seq<Val>, entries: seq<Entry>, mode: Mode, v: Val, e: Entry)
    requires Reachable(s, x) && x in s.heap && s.heap[x] == Table(meta, arr, entries, mode)
    ensures Accessible(s, meta) && (v in arr ==> Accessible(s, v))
    ensures e in entries && e.val != Nil && mode == Strong ==> Accessible(s, e.key) && Accessible(s, e.val)
    ensures e in entries && e.val != Nil && mode == Ephemeron && e.key.Ref? && e.key.id in s.heap && s.heap[e.key.id] == Str ==> Accessible(s, e.key)
    ensures e in entries && e.val != Nil && mode == Ephemeron && Accessible(s, e.key) ==> Accessible(s, e.val)
  {
    Step(s, x, meta);
    if v in arr {
      Step(s, x, v);
    }
    if e in entries && e.val != Nil {
      if mode == Strong {
        Step(s, x, e.key);
        Step(s, x, e.val);
      } else {
        if e.key.Ref? && e.key.id in s.heap && s.heap[e.key.id] == Str {
          Step(s, x, e.key);
        }
        if Accessible(s, e.key) {
          Through(s, x, e);
        }
      }
    }
  }

  lemma Step(s: State, x: Id, v: Val)
    requires Reachable(s, x) && x in s.heap && StrongHolds(s.heap, s.heap[x], s.cells, v)
    ensures Accessible(s, v)
  {
    if v.Ref? {
      forall S: set<Id> | Closed(s, S)
        ensures v.id in S
      {
        assert In(S, v);
      }
    }
  }

  lemma Through(s: State, x: Id, e: Entry)
    requires Reachable(s, x) && x in s.heap && EphemeronEntry(s.heap[x], e) && Accessible(s, e.key)
    ensures Accessible(s, e.val)
  {
    if e.val.Ref? {
      forall S: set<Id> | Closed(s, S)
        ensures e.val.id in S
      {
        assert In(S, e.key);
        assert In(S, e.val);
      }
    }
  }

  ghost predicate Has(S: set<Id>, v: Val) {
    v.Ref? ==> v.id in S
  }

  /** What object `o` refers to is in `S`, as far as the rules above say. */
  ghost predicate Follows(s: State, S: set<Id>, o: Obj) {
    match o
    case Str => true
    case Udata(meta, user) => Has(S, meta) && Has(S, user)
    case Closure(refs, upvals) => (forall v :: v in refs ==> Has(S, v)) && forall c :: c in upvals && c in s.cells ==> Has(S, s.cells[c])
    case Thread(stack) => forall v :: v in stack ==> Has(S, v)
    case Table(meta, arr, entries, mode) =>
      && Has(S, meta) && (forall v :: v in arr ==> Has(S, v))
      && forall e :: e in entries && e.val != Nil ==>
        if mode == Strong then Has(S, e.key) && Has(S, e.val)
        else (e.key.Ref? && e.key.id in s.heap && s.heap[e.key.id] == Str ==> Has(S, e.key)) && (Has(S, e.key) ==> Has(S, e.val))
  }

  /** Nothing else is within reach: whatever set holds the roots and follows these rules holds all of it. */
  lemma NothingElse(s: State, S: set<Id>, x: Id)
    requires s.main in S && s.running in S && (forall y :: y in s.fixedgc ==> y in S)
    requires Has(S, s.registry) && forall v :: v in s.mt ==> Has(S, v)
    requires forall y :: y in S && y in s.heap ==> Follows(s, S, s.heap[y])
    ensures Reachable(s, x) ==> x in S
  {
    forall y, v | y in S && y in s.heap && StrongHolds(s.heap, s.heap[y], s.cells, v)
      ensures In(S, v)
    {
      FollowsHeld(s, S, s.heap[y], v);
    }
    forall y, e | y in S && y in s.heap && EphemeronEntry(s.heap[y], e) && In(S, e.key)
      ensures In(S, e.val)
    {
      assert Follows(s, S, s.heap[y]);
      assert Has(S, e.key) && e in s.heap[y].entries;
    }
    assert RootsIn(s, S) by {
      forall v | v in s.mt
        ensures In(S, v)
      {
        assert Has(S, v);
      }
    }
    assert Closed(s, S);
  }

  lemma FollowsHeld(s: State, S: set<Id>, o: Obj, v: Val)
    requires Follows(s, S, o) && StrongHolds(s.heap, o, s.cells, v)
    ensures In(S, v)
  {
    match o
    case Closure(refs, upvals) =>
      if v !in refs {
        var c :| c in upvals && c in s.cells && s.cells[c] == v;
        assert Has(S, s.cells[c]);
      } else {
        assert Has(S, v);
      }
    case Table(meta, arr, entries, mode) =>
      if v != meta && v !in arr {
        var e :| e in entries && e.val != Nil && (v == e.key || v == e.val) && (mode == Ephemeron ==> v == e.key && IsStr(s.heap, v));
        assert Has(S, e.key);
      } else {
        assert Has(S, v);
      }
    case Str =>
    case Udata(_, _) => assert Has(S, v);
    case Thread(_) => assert Has(S, v);
  }
}
