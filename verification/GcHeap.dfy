/** The collectable heap: objects, colours, reachability and the collector's invariants. */
module GcHeap {
  import opened Wrappers

  type Id = nat
  type CellId = nat

  /** A Lua value as the collector sees it: only references matter. */
  datatype Val = Nil | Prim | Ref(id: Id)

  datatype Mode = Strong | Ephemeron

  datatype Entry = Entry(key: Val, val: Val)

  /** `Closure` stands for closures and prototypes; `cells` are its closed upvalues, which
      several closures may share. */
  datatype Obj =
    | Str
    | Udata(meta: Val, user: Val)
    | Closure(refs: seq<Val>, upvals: seq<CellId>)
    | Table(meta: Val, arr: seq<Val>, entries: seq<Entry>, mode: Mode)
    | Thread(stack: seq<Val>)

  /** The colour part of the `marked` byte; `White` carries which of the two whites. */
  datatype Color = White(bit: bool) | Gray | Black

  datatype Phase =
    | Propagate | AtomicReady | InsideAtomic
    | SweepAll | SweepFinObj | SweepToBeFnz | SweepEnd
    | CallFin | Pause

  /** The fields of `global_State` that the collector works on. */
  datatype State = State(
    heap: map<Id, Obj>, color: map<Id, Color>, cells: map<CellId, Val>,
    allgc: seq<Id>, fixedgc: seq<Id>, main: Id, running: Id, registry: Val, mt: seq<Val>,
    gray: seq<Id>, grayagain: seq<Id>, ephemeron: seq<Id>, allweak: seq<Id>,
    sweepgc: Option<nat>, cur: bool, phase: Phase)

  // ---------- references and reachability ----------

  /** Object `o` holds `v`, whether or not through a weak key. */
  ghost predicate Holds(o: Obj, cells: map<CellId, Val>, v: Val) {
    match o
    case Str => false
    case Udata(m, u) => v == m || v == u
    case Closure(refs, ups) => v in refs || exists c :: c in ups && c in cells && cells[c] == v
    case Table(m, arr, es, _) =>
      v == m || v in arr || exists e :: e in es && e.val != Nil && (v == e.key || v == e.val)
    case Thread(stk) => v in stk
  }

  ghost predicate IsStr(h: map<Id, Obj>, v: Val) {
    v.Ref? && v.id in h && h[v.id].Str?
  }

  ghost predicate IsEphemeron(o: Obj) {
    o.Table? && o.mode.Ephemeron?
  }

  ghost predicate EphemeronEntry(o: Obj, e: Entry) {
    IsEphemeron(o) && e in o.entries && e.val != Nil
  }

  /** Strong references: an ephemeron table holds its keys weakly, except strings, and its values
      only through their keys. */
  ghost predicate StrongHolds(h: map<Id, Obj>, o: Obj, cells: map<CellId, Val>, v: Val) {
    if IsEphemeron(o) then
      v == o.meta || v in o.arr || exists e :: e in o.entries && e.val != Nil && v == e.key && IsStr(h, v)
    else Holds(o, cells, v)
  }

  predicate In(S: set<Id>, v: Val) {
    v.Ref? ==> v.id in S
  }

  ghost predicate RootsIn(s: State, S: set<Id>) {
    && s.main in S && s.running in S
    && (forall x :: x in s.fixedgc ==> x in S)
    && In(S, s.registry)
    && (forall v :: v in s.mt ==> In(S, v))
  }

  /** `S` contains the roots, is closed under strong references, and holds the value of every
      ephemeron entry whose table and key it holds. */
  ghost predicate Closed(s: State, S: set<Id>) {
    && RootsIn(s, S)
    && (forall x, v :: x in S && x in s.heap && StrongHolds(s.heap, s.heap[x], s.cells, v) ==> In(S, v))
    && (forall x, e :: x in S && x in s.heap && EphemeronEntry(s.heap[x], e) && In(S, e.key) ==> In(S, e.val))
  }

  /** Reachable objects form the least closed set. */
  ghost predicate Reachable(s: State, x: Id) {
    forall S: set<Id> :: Closed(s, S) ==> x in S
  }

  /** Every object that is not dead is reachable. */
  ghost predicate NoGarbage(s: State) {
    forall S: set<Id> :: Closed(s, S) ==> NonDead(s) <= S
  }

  ghost predicate Accessible(s: State, v: Val) {
    v.Ref? ==> Reachable(s, v.id)
  }

  // ---------- colours ----------

  predicate IsWhite(s: State, x: Id) {
    x in s.color && s.color[x].White?
  }

  /** Marked with the white that is not current: the sweep frees exactly these. */
  predicate Dead(s: State, x: Id) {
    x in s.color && s.color[x] == White(!s.cur)
  }

  predicate Seen(s: State, v: Val) {
    v.Ref? ==> v.id in s.color && !s.color[v.id].White?
  }

  ghost function Marked(s: State): set<Id> {
    set x | x in s.color && !s.color[x].White?
  }

  ghost function Whites(s: State): set<Id> {
    set x | x in s.color && s.color[x].White?
  }

  ghost function NonDead(s: State): set<Id> {
    set x | x in s.color && !Dead(s, x)
  }

  predicate Live(s: State, v: Val) {
    v.Ref? ==> v.id in s.heap && v.id in s.color && !Dead(s, v.id)
  }

  // ---------- invariants ----------

  ghost predicate NoDup(q: seq<Id>) {
    forall i, j :: 0 <= i < j < |q| ==> q[i] != q[j]
  }

  ghost predicate WellFormed(s: State) {
    && s.heap.Keys == s.color.Keys
    && (forall x :: x in s.heap <==> x in s.allgc || x in s.fixedgc || x == s.main)
    && s.main !in s.allgc && s.main !in s.fixedgc
    && (forall x :: x in s.allgc ==> x !in s.fixedgc)
    && NoDup(s.allgc)
    && s.main in s.heap && s.heap[s.main].Thread?
    && (forall x :: x in s.fixedgc ==> s.heap[x].Str? && s.color[x].Gray?)
    && (forall x :: x in s.heap && s.heap[x].Thread? ==> !s.color[x].Black?)
    && (forall x, c :: x in s.heap && s.heap[x].Closure? && c in s.heap[x].upvals ==> c in s.cells)
  }

  /** Every reference held by an object that is not dead leads to an allocated object that is
      not dead, and so does every root. */
  ghost predicate LiveRefs(s: State) {
    && (forall x, v :: x in s.heap && !Dead(s, x) && Holds(s.heap[x], s.cells, v) ==> Live(s, v))
    && Live(s, Ref(s.main)) && Live(s, Ref(s.running)) && Live(s, s.registry)
    && (forall v :: v in s.mt ==> Live(s, v))
  }

  /** No black object refers to a white one. */
  ghost predicate BlackInvariant(s: State) {
    forall x, v :: x in s.heap && x in s.color && s.color[x].Black? && Holds(s.heap[x], s.cells, v) ==> Seen(s, v)
  }

  ghost predicate NoneDead(s: State) {
    forall x :: x in s.color ==> !Dead(s, x)
  }

  /** The elements of a gray list: gray objects of the kinds that are traversed, no repeats. */
  ghost predicate GrayList(s: State, q: seq<Id>) {
    && NoDup(q)
    && (forall x :: x in q ==> x in s.heap && x in s.color && s.color[x].Gray?
                               && (s.heap[x].Closure? || s.heap[x].Table? || s.heap[x].Thread?))
  }

  ghost predicate Disjoint(p: seq<Id>, q: seq<Id>) {
    forall x :: x in p ==> x !in q
  }

  /** The tri-colour invariant kept while `keepinvariant` holds (states up to GCSatomic). */
  ghost predicate TriColour(s: State) {
    && NoneDead(s)
    && BlackInvariant(s)
    && GrayList(s, s.gray) && GrayList(s, s.grayagain) && Disjoint(s.gray, s.grayagain)
    && s.ephemeron == [] && s.allweak == []
    && (forall x :: x in s.color && s.color[x].Gray? && x !in s.fixedgc ==> x in s.gray || x in s.grayagain)
    && !IsWhite(s, s.main)
  }

  predicate KeepInvariant(s: State) {
    s.phase.Propagate? || s.phase.AtomicReady?
  }

  ghost predicate AllWhite(s: State, q: seq<Id>) {
    forall x :: x in q ==> x in s.color && s.color[x] == White(s.cur)
  }

  /** What holds between any two steps of the collector and the mutator. */
  ghost predicate Inv(s: State) {
    && WellFormed(s)
    && LiveRefs(s)
    && match s.phase
       case Propagate => TriColour(s) && s.gray != []
       case AtomicReady => TriColour(s)
       case InsideAtomic => false
       case SweepAll =>
         (match s.sweepgc
          case Some(k) => k <= |s.allgc| && AllWhite(s, s.allgc[..k])
          case None => AllWhite(s, s.allgc))
       case SweepFinObj => AllWhite(s, s.allgc)
       case SweepToBeFnz => AllWhite(s, s.allgc)
       case SweepEnd => AllWhite(s, s.allgc)
       case CallFin => AllWhite(s, s.allgc) && AllWhite(s, [s.main])
       case Pause => AllWhite(s, s.allgc) && AllWhite(s, [s.main])
  }

  /** The safety property: everything the program can reach is allocated and will survive. */
  ghost predicate Safe(s: State) {
    forall x :: Reachable(s, x) ==> x in s.heap && !Dead(s, x)
  }

  lemma LiveIsClosed(s: State)
    requires WellFormed(s) && LiveRefs(s)
    ensures Closed(s, NonDead(s))
  {
    var S := NonDead(s);
    forall x, v | x in S && x in s.heap && StrongHolds(s.heap, s.heap[x], s.cells, v)
      ensures In(S, v)
    {
      assert Holds(s.heap[x], s.cells, v);
      assert Live(s, v);
    }
    forall x, e | x in S && x in s.heap && EphemeronEntry(s.heap[x], e)
      ensures In(S, e.val)
    {
      assert Holds(s.heap[x], s.cells, e.val);
      assert Live(s, e.val);
    }
  }

  /** The invariant guarantees safety in every collector state. */
  lemma InvImpliesSafe(s: State)
    requires Inv(s)
    ensures Safe(s)
  {
    LiveIsClosed(s);
    assert Closed(s, NonDead(s));
  }

  /** An accessible value is live whatever the collector is doing. */
  lemma AccessibleIsLive(s: State, v: Val)
    requires WellFormed(s) && LiveRefs(s) && Accessible(s, v)
    ensures Live(s, v)
  {
    LiveIsClosed(s);
  }
}
