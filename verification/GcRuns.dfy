/** Runs: any interleaving of collector steps with what the program does. */
module GcRuns {
  import opened GcHeap
  import opened GcMarking
  import opened GcTraversal
  import opened GcAccounting
  import opened GcAtomic
  import opened GcSteps
  import opened GcMutator

  datatype Action =
    | Collect
    | Store(p: Id, o: Obj, v: Val)
    | StoreTable(t: Id, o: Obj, k: Val, v: Val)
    | StoreUpval(c: CellId, v: Val)
    | StoreStack(t: Id, stack: seq<Val>)
    | Create(x: Id, o: Obj, cs: map<CellId, Val>)
    | Intern(x: Id)
    | SetRoots(running: Id, registry: Val, mt: seq<Val>)
    | Fix

  /** One transition. The program only handles values that it can reach. A step of the collector is any that
      `Collects` allows, and those of `Collector.SingleStep` are among them. */
  ghost predicate Next(a: State, act: Action, b: State) {
    match act
    case Collect => Collects(a, b)
    case Store(p, o, v) =>
      && p in a.heap && Stores(a.cells, a.heap[p], o, [v]) && Accessible(a, v)
      && BarrierEffect(a.(heap := a.heap[p := o]), b, p, v)
    case StoreTable(t, o, k, v) =>
      && t in a.heap && a.heap[t].Table? && Stores(a.cells, a.heap[t], o, [k, v]) && Accessible(a, k) && Accessible(a, v)
      && b == BarrierBackEffect(BarrierBackEffect(a.(heap := a.heap[t := o]), t, k), t, v)
    case StoreUpval(c, v) =>
      && c in a.cells && Accessible(a, v)
      && UpvalEffect(a.(cells := a.cells[c := v]), b, v)
    case StoreStack(t, stack) =>
      && t in a.heap && a.heap[t].Thread? && AccessibleAll(a, stack)
      && b == a.(heap := a.heap[t := Thread(stack)])
    case Create(x, o, cs) =>
      && x !in a.heap && cs.Keys !! a.cells.Keys
      && (forall v :: Holds(o, a.cells + cs, v) ==> Accessible(a, v))
      && (o.Closure? ==> forall c :: c in o.upvals ==> c in a.cells || c in cs)
      && a.running in a.heap && a.heap[a.running].Thread?
      && b == Pushed(a.(heap := a.heap[x := o], color := a.color[x := White(a.cur)], cells := a.cells + cs,
                        allgc := [x] + a.allgc, sweepgc := Shifted(a)), x)
    case Intern(x) =>
      && x in a.heap && a.heap[x].Str? && a.running in a.heap && a.heap[a.running].Thread?
      && b == Pushed(if Dead(a, x) then a.(color := a.color[x := White(a.cur)]) else a, x)
    case SetRoots(t, r, m) =>
      && Accessible(a, Ref(t)) && Accessible(a, r) && AccessibleAll(a, m)
      && b == a.(running := t, registry := r, mt := m)
    case Fix =>
      && a.phase.Pause? && a.allgc != [] && a.allgc[0] in a.heap && a.heap[a.allgc[0]].Str?
      && b == a.(allgc := a.allgc[1..], fixedgc := [a.allgc[0]] + a.fixedgc, color := a.color[a.allgc[0] := Gray])
  }

  /** `x` has been pushed on the stack of the running thread. */
  function Pushed(s: State, x: Id): State {
    if s.running in s.heap && s.heap[s.running].Thread?
    then s.(heap := s.heap[s.running := Thread(s.heap[s.running].stack + [Ref(x)])])
    else s
  }

  /** `luaC_upvalbarrier_`: while marking, the value is marked. */
  ghost predicate UpvalEffect(b: State, c: State, v: Val) {
    if KeepInvariant(b) then Marks(b, c, Nil) && Seen(c, v) else c == b
  }

  lemma StoreNext(a: State, b: State, p: Id, o: Obj, v: Val)
    requires Inv(a) && Next(a, Store(p, o, v), b)
    ensures Inv(b)
  {
    hide Inv, InvBut, Stores, Accessible, Marks, Seen;
    var s := a.(heap := a.heap[p := o]);
    OneAccessible(a, v);
    StoreInv(a, s, p, o, [v]);
    InvButDomain(s, p, [v]);
    if p in s.color && s.color[p].Black? && v.Ref? && IsWhite(s, v.id) {
      if KeepInvariant(s) {
        ForwardMarks(s, b, p, [v]);
        SeenOne(b, v);
        NoBarrier(b, p, [v]);
      } else {
        InvButSweep(s, p, [v]);
        ForwardSweep(s, b, p);
      }
    } else {
      Unneeded(s, p, v);
      NoBarrier(s, p, [v]);
    }
  }

  lemma BackOne(s: State, p: Id, v: Val, vs: seq<Val>)
    requires InvBut(s, p, [v] + vs) && p in s.heap && s.heap[p].Table? && (v.Ref? ==> v.id in s.heap)
    ensures InvBut(BarrierBackEffect(s, p, v), p, vs)
  {
    hide Inv, InvBut;
    InvButDomain(s, p, [v] + vs);
    var c := BarrierBackEffect(s, p, v);
    if p in s.color && s.color[p].Black? && v.Ref? && IsWhite(s, v.id) {
      BackwardGray(s, c, p, [v] + vs);
      if !KeepInvariant(s) {
        InvButSweep(c, p, [v] + vs);
      }
      InvIsInvBut(c, p, vs);
    } else {
      NotWhite(s, p, v);
      BarrierNeeded(s, p, v, vs);
    }
  }

  lemma NotWhite(s: State, p: Id, v: Val)
    requires s.heap.Keys == s.color.Keys && p in s.color && (v.Ref? ==> v.id in s.heap)
    requires !(s.color[p].Black? && v.Ref? && IsWhite(s, v.id))
    ensures s.color[p].Black? ==> Seen(s, v)
  {
  }

  lemma TableNext(a: State, b: State, t: Id, o: Obj, k: Val, v: Val)
    requires Inv(a) && Next(a, StoreTable(t, o, k, v), b)
    ensures Inv(b)
  {
    hide Inv, InvBut, Stores, Accessible;
    var s := a.(heap := a.heap[t := o]);
    TwoAccessible(a, k, v);
    StoreInv(a, s, t, o, [k, v]);
    assert [k] + [v] == [k, v] && [v] + [] == [v];
    StoredKind(a.cells, a.heap[t], o, [k, v]);
    BackOne(s, t, k, [v]);
    BackOne(BarrierBackEffect(s, t, k), t, v, []);
    NoValues(b);
    NoBarrier(b, t, []);
  }

  lemma StoredKind(cells: map<CellId, Val>, o: Obj, o': Obj, vs: seq<Val>)
    requires Stores(cells, o, o', vs) && o.Table?
    ensures o'.Table?
  {
  }

  lemma UpvalNext(a: State, b: State, c: CellId, v: Val)
    requires Inv(a) && Next(a, StoreUpval(c, v), b)
    ensures Inv(b)
  {
    hide Inv, InvButCell, Accessible, Marks, Seen;
    var s := a.(cells := a.cells[c := v]);
    CellStore(a, s, c, v);
    if KeepInvariant(s) {
      CellMarked(s, b, v);
    } else {
      CellSweep(s, v);
    }
  }

  lemma CreateNext(a: State, b: State, x: Id, o: Obj, cs: map<CellId, Val>)
    requires Inv(a) && Next(a, Create(x, o, cs), b)
    ensures Inv(b)
  {
    hide Inv, Accessible, Holds, LiveAll;
    var s := a.(heap := a.heap[x := o], color := a.color[x := White(a.cur)], cells := a.cells + cs,
                allgc := [x] + a.allgc, sweepgc := Shifted(a));
    NewInv(a, s, x, o, cs);
    PushNext(s, x);
  }

  lemma PushNext(s: State, x: Id)
    requires Inv(s) && x in s.heap && !Dead(s, x)
    ensures Inv(Pushed(s, x))
  {
    hide Inv, LiveAll;
    if s.running in s.heap && s.heap[s.running].Thread? {
      PushLive(s, x);
      PushInv(s, Pushed(s, x), s.running, s.heap[s.running].stack + [Ref(x)]);
    }
  }

  lemma InternNext(a: State, b: State, x: Id)
    requires Inv(a) && Next(a, Intern(x), b)
    ensures Inv(b)
  {
    hide Inv;
    var s := if Dead(a, x) then a.(color := a.color[x := White(a.cur)]) else a;
    ResurrectInv(a, s, x);
    PushNext(s, x);
  }

  /** Every transition keeps the invariant. */
  lemma NextInv(a: State, act: Action, b: State)
    requires Inv(a) && Next(a, act, b)
    ensures Inv(b)
  {
    match act
    case Collect =>
      hide Inv, Collects;
      CollectsStepped(a, b);
    case Store(p, o, v) => StoreNext(a, b, p, o, v);
    case StoreTable(t, o, k, v) => TableNext(a, b, t, o, k, v);
    case StoreUpval(c, v) => UpvalNext(a, b, c, v);
    case StoreStack(t, stack) =>
      AccessibleAllLive(a, stack);
      hide Inv, AccessibleAll, LiveAll;
      PushInv(a, b, t, stack);
    case Create(x, o, cs) => CreateNext(a, b, x, o, cs);
    case Intern(x) => InternNext(a, b, x);
    case SetRoots(t, r, m) =>
      hide Inv, Accessible, AccessibleAll;
      RootInv(a, b);
    case Fix =>
      hide Inv;
      FixInv(a, b);
  }

  /** `trace` is a run that performs `acts`. */
  ghost predicate Run(trace: seq<State>, acts: seq<Action>) {
    && |trace| == |acts| + 1
    && (forall i :: 0 <= i < |acts| ==> Next(trace[i], acts[i], trace[i + 1]))
  }

  /** Safety over all runs: whatever the interleaving, in every state everything the program can
      reach is allocated and not dead, and no step of the collector frees or changes it, but for
      weak entries whose keys are out of reach. */
  lemma {:induction false} RunSafe(trace: seq<State>, acts: seq<Action>, n: nat)
    requires Run(trace, acts) && Inv(trace[0]) && n < |trace|
    ensures Inv(trace[n]) && Safe(trace[n])
    ensures n < |acts| && acts[n].Collect? ==> Preserves(trace[n], trace[n + 1])
  {
    hide Inv, Safe, Preserves;
    if n > 0 {
      RunSafe(trace, acts, n - 1);
      RunAt(trace, acts, n - 1);
      NextInv(trace[n - 1], acts[n - 1], trace[n]);
    }
    InvImpliesSafe(trace[n]);
    if n < |acts| && acts[n].Collect? {
      RunAt(trace, acts, n);
      CollectPreserves(trace[n], trace[n + 1]);
    }
  }

  lemma RunAt(trace: seq<State>, acts: seq<Action>, i: nat)
    requires Run(trace, acts) && i < |acts|
    ensures Next(trace[i], acts[i], trace[i + 1])
  {
  }

  lemma CollectPreserves(a: State, b: State)
    requires Inv(a) && Next(a, Collect, b)
    ensures Preserves(a, b)
  {
    hide Inv, Preserves, Collects;
    CollectsStepped(a, b);
  }

  /** The tri-colour invariant in every state of every run in which it must be kept. */
  lemma RunTriColour(trace: seq<State>, acts: seq<Action>, n: nat)
    requires Run(trace, acts) && Inv(trace[0]) && n < |trace| && KeepInvariant(trace[n])
    ensures BlackInvariant(trace[n])
    ensures forall x :: x in trace[n].color && trace[n].color[x].Gray? && x !in trace[n].fixedgc ==>
              x in trace[n].gray || x in trace[n].grayagain
    ensures forall x :: x in trace[n].heap && trace[n].heap[x].Thread? ==> x in trace[n].color && !trace[n].color[x].Black?
  {
    hide LiveRefs, Holds, GrayList;
    RunSafe(trace, acts, n);
  }
}
