/** Conjunction, disjunction, negation, comparison, and bringing a value home to a register. */
module CodeLogic {
  import opened Opcodes
  import opened CodeExec
  import opened CodeSem
  import opened CodeJumps

  // ---------- jumps to the end of the code ----------

  /** Pending jumps made to go to the end of the code (`luaK_patchtohere`). */
  function ToHere(c: Code, L: set<nat>): Code {
    c.(D := c.D + (map q | q in L :: |c.ops|))
  }

  lemma ToHereWF(c: Code, L: set<nat>)
    requires WF(c) && Pending(c, L)
    ensures WF(ToHere(c, L)) && Cut(ToHere(c, L), |c.ops|)
  {
    var d := ToHere(c, L);
    EndCut(c);
    forall q | q in d.D
      ensures TargetOk(d, q)
    {
      if q !in L {
        assert TargetOk(c, q);
      }
    }
    assert forall p :: 0 <= p < |c.ops| ==> OpOk(c, p) && OpOk(d, p);
    EndCut(d);
  }

  /** Tests of pending jumps have no register yet. */
  ghost predicate NoRegs(c: Code, L: set<nat>) {
    forall j :: j in L && 0 < j <= |c.ops| && c.ops[j - 1].TESTSET? ==> c.ops[j - 1].A == NO_REG
  }

  function EmptyOps(ops: seq<Instr>, L: set<nat>): (r: seq<Instr>)
    ensures |r| == |ops|
  {
    seq(|ops|, p requires 0 <= p < |ops| => if p + 1 in L && ops[p].TESTSET? then PatchTest(ops[p], NO_REG) else ops[p])
  }

  lemma ToHereRun(c: Code, L: set<nat>, R0: Regs)
    requires WF(c) && Pending(c, L) && NoRegs(c, L)
    ensures var d, r := ToHere(c, L), Run(c, |c.ops|, R0);
      Run(d, |d.ops|, R0) == if r.Exit? && r.j in L then Fall(r.R) else r
  {
    hide WF, Cut, Patched, Emptied, Pending, NoRegs;
    var d := ToHere(c, L);
    var e := d.(ops := EmptyOps(c.ops, L));
    ToHereEmptied(c, L);
    ToHereWF(c, L);
    EmptiedExec(d, e, L, 0, |c.ops|, R0);
    EmptiedWF(d, e, L);
    EndCut(c);
    PatchedExec(c, e, L, NO_REG, 0, |c.ops|, R0);
  }

  lemma ToHereEmptied(c: Code, L: set<nat>)
    requires Pending(c, L) && NoRegs(c, L)
    ensures var d := ToHere(c, L); var e := d.(ops := EmptyOps(c.ops, L));
      Emptied(d, e, L) && Patched(c, e, L, NO_REG) && forall q :: q in L ==> e.D[q] == |c.ops|
  {
    var d := ToHere(c, L);
    var e := d.(ops := EmptyOps(c.ops, L));
    forall p | 0 <= p < |c.ops|
      ensures EmptiedAt(d, e, L, p) && PatchedAt(c, e, L, NO_REG, p)
    {
      if p + 1 in L && c.ops[p].TESTSET? {
        assert Unset(c.ops[p]);
      }
    }
  }

  /** The jumps of the true list go on here, like control that falls through with a true value. */
  lemma TrueHere(a: Code, c: Code, T: set<nat>, F: set<nat>, x: Expr, fr: nat, b: bool)
    requires WF(c) && Sem(a, c, if b then T else F, if b then F else T, x, fr, Truth(b)) && T !! F
    requires Pending(c, T) && NoRegs(c, T) && (forall j :: j in T ==> NotIn(a, j))
    ensures Sem(a, ToHere(c, T), if b then {} else F, if b then F else {}, x, fr, Truth(b))
  {
    var d := ToHere(c, T);
    var U, V, U', V' := if b then T else F, if b then F else T, if b then {} else F, if b then F else {};
    forall R0: Regs
      ensures SemAt(a, d, U', V', x, fr, Truth(b), R0)
    {
      assert SemAt(a, c, U, V, x, fr, Truth(b), R0);
      ToHereRun(c, T, R0);
      var o, r := Run(a, |a.ops|, R0), Run(c, |c.ops|, R0);
      if o.Exit? {
        ExitPending(a, 0, |a.ops|, R0);
      }
    }
    hide WF, Pending, NoRegs, Run, Eval;
  }

  /** Jump `j` was not pending in `a`. */
  ghost predicate NotIn(a: Code, j: nat) {
    j >= |a.ops|
  }

  /** Control leaves only by jumps of the code. */
  lemma ExitPending(c: Code, p: nat, end: nat, R: Regs)
    ensures var r := Exec(c, p, end, R); r.Exit? ==> r.j < end && r.j < |c.ops|
    decreases if p < end then end - p else 0
  {
    if p < end && p < |c.ops| {
      var n := Effect(c.cmp, c.k, c.ops[p], p, R);
      if n.Go? {
        ExitPending(c, n.p, end, n.R);
      } else if n.Jump? && p in c.D && c.D[p] > p {
        ExitPending(c, c.D[p], end, n.R);
      }
    }
  }

  // ---------- and, or ----------

  /** `x and y` (`b` true) or `x or y` (`b` false): `y` is evaluated where `x` counted as `b`; the list of
      jumps taken because `x` did not joins the corresponding list of `y`. */
  lemma LogicSem(a: Code, m: Code, c: Code, L: set<nat>, T: set<nat>, F: set<nat>, x: Expr, y: Expr, fr: nat, k: Kind, b: bool)
    requires Sem(a, m, if b then {} else L, if b then L else {}, x, fr, Truth(b))
    requires Sem(m, c, T, F, y, fr, Value(k)) && UsesLocals(y, fr)
    requires SameControls(m, c, L) && L !! T && L !! F
    ensures Sem(a, c, if b then T else T + L, if b then F + L else F, if b then AndE(x, y) else OrE(x, y), fr, Value(k))
  {
    hide SemAt, SameControls, Eval, UsesLocals;
    var U, V, z := if b then T else T + L, if b then F + L else F, if b then AndE(x, y) else OrE(x, y);
    var M, N := if b then {} else L, if b then L else {};
    forall R0: Regs
      ensures SemAt(a, c, U, V, z, fr, Value(k), R0)
    {
      assert SemAt(a, m, M, N, x, fr, Truth(b), R0);
      assert SemAt(m, c, T, F, y, fr, Value(k), R0);
      LogicAt(a, m, c, L, T, F, x, y, fr, k, b, R0);
    }
  }

  lemma LogicAt(a: Code, m: Code, c: Code, L: set<nat>, T: set<nat>, F: set<nat>, x: Expr, y: Expr, fr: nat, k: Kind, b: bool, R0: Regs)
    requires m.cmp == a.cmp && c.cmp == a.cmp
    requires SemAt(a, m, if b then {} else L, if b then L else {}, x, fr, Truth(b), R0)
    requires SemAt(m, c, T, F, y, fr, Value(k), R0) && UsesLocals(y, fr)
    requires SameControls(m, c, L) && L !! T && L !! F
    ensures SemAt(a, c, if b then T else T + L, if b then F + L else F, if b then AndE(x, y) else OrE(x, y), fr, Value(k), R0)
  {
    hide Run, Base, ValOf, ShapeOk, UsesLocals, Agree;
    var o, r, s := Run(a, |a.ops|, R0), Run(m, |m.ops|, R0), Run(c, Base(c, k), R0);
    if o.Fall? {
      if r.Fall? {
        EvalAgree(a.cmp, y, fr, o.R, r.R);
        AgreeTrans(fr, o.R, r.R, s.R);
      }
    }
  }

  lemma AgreeTrans(n: nat, R: Regs, S: Regs, U: Regs)
    ensures Agree(n, R, S) && Agree(n, S, U) ==> Agree(n, R, U)
  {
  }

  // ---------- not ----------

  function NotKind(k: Kind): Kind
    requires k == VNIL || k == VFALSE || k == VTRUE || k.VK? || k.VNUM?
  {
    if k == VNIL || k == VFALSE then VTRUE else VFALSE
  }

  /** A constant is negated at once. */
  lemma NotConst(a: Code, c: Code, T: set<nat>, F: set<nat>, x: Expr, fr: nat, k: Kind)
    requires Sem(a, c, T, F, x, fr, Value(k)) && (k == VNIL || k == VFALSE || k == VTRUE || k.VK? || k.VNUM?)
    requires k.VK? ==> k.i < |c.k| && !Falsy(c.k[k.i])
    ensures SemNot(a, c, T, F, x, fr, Value(NotKind(k)))
  {
    hide Run, Eval, Kept;
    forall R0: Regs
      ensures SemNotAt(a, c, T, F, x, fr, Value(NotKind(k)), R0)
    {
      assert SemAt(a, c, T, F, x, fr, Value(k), R0);
    }
  }

  /** An inverted comparison. */
  lemma NotJmp(a: Code, c: Code, T: set<nat>, F: set<nat>, x: Expr, fr: nat, pc: nat)
    requires WF(c) && Sem(a, c, T, F, x, fr, Value(VJMP(pc))) && ShapeOk(c, VJMP(pc)) && Pending(c, T) && Pending(c, F)
    requires pc !in T && pc !in F
    ensures SemNot(a, Inverted(c, pc), T, F, x, fr, Value(VJMP(pc)))
  {
    hide WF, Pending, Run, Eval, Cut, ExitOk;
    var d := Inverted(c, pc);
    InvertedWF(c, pc);
    forall R0: Regs
      ensures SemNotAt(a, d, T, F, x, fr, Value(VJMP(pc)), R0)
    {
      assert SemAt(a, c, T, F, x, fr, Value(VJMP(pc)), R0);
      InvertedPrefix(c, pc, R0);
      var o, r := Run(a, |a.ops|, R0), Run(c, pc - 1, R0);
      if o.Fall? && r.Exit? {
        InvertedExit(c, pc, T, F, r.j, r.R, Eval(c.cmp, x, o.R));
      }
    }
  }

  lemma InvertedExit(c: Code, pc: nat, T: set<nat>, F: set<nat>, j: nat, R: Regs, v: Val)
    requires ExitOk(c, T, F, j, R, v) && Pending(c, T) && Pending(c, F) && ShapeOk(c, VJMP(pc)) && pc !in T && pc !in F
    ensures ExitOk(Inverted(c, pc), T, F, j, R, v)
  {
  }

  /** A value in a register: `NOT`, its result still to be given a register. */
  lemma NotReg(a: Code, c: Code, d: Code, T: set<nat>, F: set<nat>, x: Expr, fr: nat, r: nat)
    requires WF(c) && Sem(a, c, T, F, x, fr, Value(VNONRELOC(r))) && Emitted(c, d, [NOT(0, r)])
    requires Pending(c, T) && Pending(c, F)
    ensures MoreOk(c, [NOT(0, r)]) && ShapeOk(d, VRELOCABLE(|c.ops|)) && SemNot(a, d, T, F, x, fr, Value(VRELOCABLE(|c.ops|)))
  {
    var more, k := [NOT(0, r)], VRELOCABLE(|c.ops|);
    EmittedWF(c, d, more);
    assert d.ops[|c.ops| + 0] == more[0];
    forall R0: Regs
      ensures SemNotAt(a, d, T, F, x, fr, Value(k), R0)
    {
      assert SemAt(a, c, T, F, x, fr, Value(VNONRELOC(r)), R0);
      EmittedRun(c, d, more, 0, R0);
      var o, s := Run(a, |a.ops|, R0), Run(c, |c.ops|, R0);
      if o.Fall? && s.Exit? {
        SameExit(c, d, T, F, s.j, s.R, Eval(c.cmp, x, o.R));
      }
    }
    hide WF, Pending, Eval, Cut, ExitOk, Emitted;
  }

  /** As `Sem`, but the value at the end of the code is already negated; the values at the jumps are not. */
  ghost predicate SemNot(a: Code, c: Code, T: set<nat>, F: set<nat>, x: Expr, fr: nat, f: Final) {
    c.cmp == a.cmp && forall R0: Regs :: SemNotAt(a, c, T, F, x, fr, f, R0)
  }

  ghost predicate SemNotAt(a: Code, c: Code, T: set<nat>, F: set<nat>, x: Expr, fr: nat, f: Final, R0: Regs) {
    var o, r := Run(a, |a.ops|, R0), Run(c, EndOf(c, f), R0);
    if o.Exit? then r == o
    else
      var v := Eval(c.cmp, x, o.R);
      if r.Fall? then FinalOk(c, f, fr, o.R, r.R, Bool(Falsy(v))) else Agree(fr, o.R, r.R) && ExitOk(c, T, F, r.j, r.R, v)
  }

  /** The lists are swapped, and their values removed. */
  lemma SwapSem(a: Code, c: Code, d: Code, T: set<nat>, F: set<nat>, x: Expr, fr: nat, k: Kind)
    requires SemNot(a, c, T, F, x, fr, Value(k)) && Emptied(c, d, T + F) && ShapeOk(c, k) && WF(c)
    requires k.VJMP? ==> k.pc !in T && k.pc !in F
    ensures ShapeOk(d, k) && Sem(a, d, F, T, NotE(x), fr, Value(k)) && WF(d)
  {
    EmptiedWF(c, d, T + F);
    EmptiedShape(c, d, T, F, k);
    forall R0: Regs
      ensures SemAt(a, d, F, T, NotE(x), fr, Value(k), R0)
    {
      assert SemNotAt(a, c, T, F, x, fr, Value(k), R0);
      EmptiedExec(c, d, T + F, 0, Base(c, k), R0);
      var o, s := Run(a, |a.ops|, R0), Run(c, Base(c, k), R0);
      if o.Fall? && s.Exit? {
        SwappedExit(c, d, T, F, s.j, s.R, Eval(c.cmp, x, o.R));
      }
    }
    hide WF, Eval, ExitOk, Emptied, ShapeOk, Agree;
  }

  lemma SwappedExit(c: Code, d: Code, T: set<nat>, F: set<nat>, j: nat, R: Regs, v: Val)
    requires ExitOk(c, T, F, j, R, v) && Emptied(c, d, T + F)
    ensures ExitOk(d, F, T, j, R, Bool(Falsy(v)))
  {
    if 0 < j <= |c.ops| {
      assert EmptiedAt(c, d, T + F, j - 1);
    }
  }

  lemma EmptiedShape(c: Code, d: Code, T: set<nat>, F: set<nat>, k: Kind)
    requires Emptied(c, d, T + F) && ShapeOk(c, k)
    requires k.VJMP? ==> k.pc !in T && k.pc !in F
    ensures ShapeOk(d, k) && Base(d, k) == Base(c, k)
    ensures forall R: Regs :: ValOf(d, k, R) == ValOf(c, k, R)
  {
    match k
    case VRELOCABLE(pc) =>
      assert EmptiedAt(c, d, T + F, pc);
      if pc > 0 { assert EmptiedAt(c, d, T + F, pc - 1); }
    case VJMP(pc) =>
      assert EmptiedAt(c, d, T + F, pc) && EmptiedAt(c, d, T + F, pc - 1);
      if pc > 1 { assert EmptiedAt(c, d, T + F, pc - 2); }
    case _ =>
  }
}
