/** Comparisons, and bringing the value of an expression home to a register (`exp2reg`). */
module CodeHome {
  import opened Opcodes
  import opened CodeExec
  import opened CodeSem
  import opened CodeJumps
  import opened CodeLogic

  // ---------- comparisons ----------

  predicate Operand(k: Kind) {
    k.VK? || k.VNONRELOC?
  }

  /** The operand field for a value (`RKASK` for constants). */
  function AsRK(k: Kind): nat
    requires Operand(k)
  {
    if k.VK? then BITRK + k.i else k.r
  }

  /** `codecomp`: greater-than is less-than with its operands exchanged, unequal is equal, inverted. */
  function Comparison(op: RelOp, o1: nat, o2: nat): Instr {
    match op
    case Eq => COMPARE(EQ, true, o1, o2)
    case Ne => COMPARE(EQ, false, o1, o2)
    case Lt => COMPARE(LT, true, o1, o2)
    case Le => COMPARE(LE, true, o1, o2)
    case Gt => COMPARE(LT, true, o2, o1)
    case Ge => COMPARE(LE, true, o2, o1)
  }

  lemma OperandValue(c: Code, k: Kind, R: Regs)
    requires Operand(k) && ShapeOk(c, k) && (k.VNONRELOC? ==> k.r < MAXREGS)
    ensures RK(c.k, R, AsRK(k)) == ValOf(c, k, R)
  {
  }

  lemma RelSem(a: Code, b: Code, c: Code, d: Code, x: Expr, y: Expr, fr: nat, fr1: nat, k1: Kind, k2: Kind, op: RelOp)
    requires Sem(a, b, {}, {}, x, fr, Value(k1)) && Sem(b, c, {}, {}, y, fr1, Value(k2)) && WF(c)
    requires Operand(k1) && Operand(k2) && ShapeOk(b, k1) && ShapeOk(c, k2) && fr <= fr1 && UsesLocals(y, fr)
    requires (k1.VNONRELOC? ==> k1.r < fr1 && k1.r < MAXREGS) && (k2.VNONRELOC? ==> k2.r < MAXREGS) && b.k <= c.k
    requires Emitted(c, d, [Comparison(op, AsRK(k1), AsRK(k2)), JMP(0)])
    ensures MoreOk(c, [Comparison(op, AsRK(k1), AsRK(k2)), JMP(0)]) && WF(d) && ShapeOk(d, VJMP(|c.ops| + 1))
    ensures Sem(a, d, {}, {}, RelE(op, x, y), fr, Value(VJMP(|c.ops| + 1)))
  {
    var more, k := [Comparison(op, AsRK(k1), AsRK(k2)), JMP(0)], VJMP(|c.ops| + 1);
    assert ShapeOk(c, k1);
    EmittedWF(c, d, more);
    assert d.ops[|c.ops| + 0] == more[0] && d.ops[|c.ops| + 1] == more[1];
    assert forall q :: q in c.D ==> TargetOk(c, q);
    forall R0: Regs
      ensures SemAt(a, d, {}, {}, RelE(op, x, y), fr, Value(k), R0)
    {
      assert SemAt(a, b, {}, {}, x, fr, Value(k1), R0);
      assert SemAt(b, c, {}, {}, y, fr1, Value(k2), R0);
      EmittedRun(c, d, more, 0, R0);
      RelAt(a, b, c, d, x, y, fr, fr1, k1, k2, op, R0);
    }
    hide WF, Cut, Emitted, SemAt, MoreOk, ShapeOk, UsesLocals, AsRK;
  }

  lemma RelAt(a: Code, b: Code, c: Code, d: Code, x: Expr, y: Expr, fr: nat, fr1: nat, k1: Kind, k2: Kind, op: RelOp, R0: Regs)
    requires SemAt(a, b, {}, {}, x, fr, Value(k1), R0) && SemAt(b, c, {}, {}, y, fr1, Value(k2), R0)
    requires a.cmp == b.cmp == c.cmp == d.cmp && d.k == c.k
    requires Operand(k1) && Operand(k2) && ShapeOk(b, k1) && ShapeOk(c, k1) && ShapeOk(c, k2) && fr <= fr1 && UsesLocals(y, fr)
    requires (k1.VNONRELOC? ==> k1.r < fr1 && k1.r < MAXREGS) && (k2.VNONRELOC? ==> k2.r < MAXREGS) && b.k <= c.k
    requires |d.ops| == |c.ops| + 2 && ShapeOk(d, VJMP(|c.ops| + 1))
    requires d.ops[|c.ops|] == Comparison(op, AsRK(k1), AsRK(k2))
    requires Run(d, |c.ops|, R0) == Run(c, |c.ops|, R0)
    ensures SemAt(a, d, {}, {}, RelE(op, x, y), fr, Value(VJMP(|c.ops| + 1)), R0)
  {
    hide Run, UsesLocals, Eval, AsRK, RK, Compared, Relate, Cut, Comparison;
    var o, r, s := Run(a, |a.ops|, R0), Run(b, |b.ops|, R0), Run(c, |c.ops|, R0);
    if o.Fall? {
      assert r.Fall? && s.Fall?;
      EvalAgree(a.cmp, y, fr, o.R, r.R);
      AgreeTrans(fr, fr1, o.R, r.R, s.R);
      OperandStays(b, c, k1, fr1, r.R, s.R);
      OperandValue(c, k1, s.R);
      OperandValue(c, k2, s.R);
      RelValue(d, op, k1, k2, Eval(a.cmp, x, o.R), Eval(a.cmp, y, o.R), s.R);
      EvalRel(a.cmp, op, x, y, o.R);
    }
  }

  lemma AgreeTrans(n: nat, m: nat, R: Regs, S: Regs, T: Regs)
    requires Agree(n, R, S) && Agree(m, S, T) && n <= m
    ensures Agree(n, R, T)
  {
    hide Get;
  }

  lemma OperandStays(b: Code, c: Code, k: Kind, n: nat, R: Regs, S: Regs)
    requires Operand(k) && ShapeOk(b, k) && ShapeOk(c, k) && (k.VNONRELOC? ==> k.r < n) && b.k <= c.k && Agree(n, R, S)
    ensures ValOf(c, k, S) == ValOf(b, k, R)
  {
    hide Get;
  }

  lemma EvalRel(cmp: Compare, op: RelOp, x: Expr, y: Expr, R: Regs)
    ensures Eval(cmp, RelE(op, x, y), R) == Bool(Relate(cmp, op, Eval(cmp, x, R), Eval(cmp, y, R)))
  {
    hide Relate;
  }

  lemma RelValue(d: Code, op: RelOp, k1: Kind, k2: Kind, v: Val, w: Val, R: Regs)
    requires Operand(k1) && Operand(k2) && RK(d.k, R, AsRK(k1)) == v && RK(d.k, R, AsRK(k2)) == w
    ensures Compared(d, Comparison(op, AsRK(k1), AsRK(k2)), R) == Relate(d.cmp, op, v, w)
  {
  }

  // ---------- stepping over the loads of false and true ----------

  /** `c` with its jumps to the end pending again. */
  function Without(c: Code, J: set<nat>): Code {
    c.(D := c.D - J)
  }

  lemma WithoutRun(c: Code, J: set<nat>, R0: Regs)
    requires WF(c) && NoRegs(c, J) && (forall q :: q in J ==> q in c.D && c.D[q] == |c.ops|)
    ensures WF(Without(c, J)) && Pending(Without(c, J), J)
    ensures var r := Run(Without(c, J), |c.ops|, R0); Run(c, |c.ops|, R0) == if r.Exit? && r.j in J then Fall(r.R) else r
  {
    hide WF;
    var b := Without(c, J);
    WithoutWF(c, J);
    assert ToHere(b, J).D == c.D;
    assert ToHere(b, J) == c;
    ToHereRun(b, J, R0);
  }

  lemma WithoutWF(c: Code, J: set<nat>)
    requires WF(c) && (forall q :: q in J ==> q in c.D)
    ensures WF(Without(c, J)) && Pending(Without(c, J), J)
  {
    var b := Without(c, J);
    forall q | q in b.D
      ensures TargetOk(b, q)
    {
      assert TargetOk(c, q);
    }
    forall p | 0 <= p < |b.ops|
      ensures OpOk(b, p)
    {
      assert OpOk(c, p);
    }
    forall q | q in J
      ensures q < |b.ops| && b.ops[q].JMP? && q !in b.D
    {
      assert TargetOk(c, q);
    }
  }

  /** The two instructions that load false and true. */
  function Loaders(reg: nat): seq<Instr> {
    [LOADBOOL(reg, false, true), LOADBOOL(reg, true, false)]
  }

  /** `c` followed by a jump over the loaders, joined by the jumps `J` that went to its end. */
  function Skipped(c: Code, J: set<nat>, reg: nat): Code {
    var n := |c.ops|;
    c.(ops := c.ops + [JMP(0)] + Loaders(reg), D := (c.D - J) + (map q | q in J + {n} :: n + 3))
  }

  /** The steps that lead to `Skipped`. */
  lemma SkippedSteps(c: Code, J: set<nat>, reg: nat)
    requires WF(c) && NoRegs(c, J) && (forall q :: q in J ==> q in c.D && c.D[q] == |c.ops|)
    ensures var b := Without(c, J);
      var e := b.(ops := b.ops + [JMP(0)]);
      var f := e.(ops := e.ops + Loaders(reg));
      && WF(b) && WF(e) && WF(f) && Emitted(b, e, [JMP(0)]) && MoreOk(b, [JMP(0)]) && Emitted(e, f, Loaders(reg)) && MoreOk(e, Loaders(reg))
      && Pending(f, J + {|c.ops|}) && NoRegs(f, J + {|c.ops|}) && Skipped(c, J, reg) == ToHere(f, J + {|c.ops|})
      && |c.ops| !in e.D
  {
    hide WF, Pending, NoRegs, Skipped, ToHere, Emitted, MoreOk;
    var b := Without(c, J);
    WithoutWF(c, J);
    var e := b.(ops := b.ops + [JMP(0)]);
    Appended(b, [JMP(0)]);
    EmittedWF(b, e, [JMP(0)]);
    var f := e.(ops := e.ops + Loaders(reg));
    Appended(e, Loaders(reg));
    EmittedWF(e, f, Loaders(reg));
    WithoutTargets(c, J);
    SkippedPending(c, J, reg, f);
  }

  lemma Appended(c: Code, more: seq<Instr>)
    ensures Emitted(c, c.(ops := c.ops + more), more)
    ensures (more == [JMP(0)] || exists reg: nat :: more == Loaders(reg)) ==> MoreOk(c, more)
  {
  }

  lemma WithoutTargets(c: Code, J: set<nat>)
    requires WF(c)
    ensures forall q :: q in c.D ==> q < |c.ops|
    ensures |c.ops| > 0 ==> !c.ops[|c.ops| - 1].TESTSET?
  {
    forall q | q in c.D
      ensures q < |c.ops|
    {
      assert TargetOk(c, q);
    }
    EndCut(c);
  }

  lemma SkippedPending(c: Code, J: set<nat>, reg: nat, f: Code)
    requires WF(c) && NoRegs(c, J) && (forall q :: q in J ==> q in c.D && c.D[q] == |c.ops|)
    requires f == c.(ops := c.ops + [JMP(0)] + Loaders(reg), D := c.D - J)
    ensures Pending(f, J + {|c.ops|}) && NoRegs(f, J + {|c.ops|}) && Skipped(c, J, reg) == ToHere(f, J + {|c.ops|})
  {
    hide WF, Skipped, ToHere;
    WithoutTargets(c, J);
    WithoutWF(c, J);
    SkippedTargets(c, J, reg, f);
    assert forall p :: 0 <= p < |c.ops| ==> f.ops[p] == c.ops[p];
    assert f.ops[|c.ops|] == JMP(0);
  }

  lemma SkippedTargets(c: Code, J: set<nat>, reg: nat, f: Code)
    requires f == c.(ops := c.ops + [JMP(0)] + Loaders(reg), D := c.D - J)
    ensures Skipped(c, J, reg) == ToHere(f, J + {|c.ops|})
  {
  }

  /** Control that came to the end of `c` comes to the end of `Skipped`. */
  lemma SkippedRun(c: Code, J: set<nat>, reg: nat, R0: Regs)
    requires WF(c) && NoRegs(c, J) && (forall q :: q in J ==> q in c.D && c.D[q] == |c.ops|)
    ensures WF(Skipped(c, J, reg)) && Run(Skipped(c, J, reg), |c.ops| + 3, R0) == Run(c, |c.ops|, R0)
  {
    hide WF, Pending, NoRegs, Emitted, MoreOk, Skipped, ToHere, Exec;
    SkippedSteps(c, J, reg);
    var n, b := |c.ops|, Without(c, J);
    var e := b.(ops := b.ops + [JMP(0)]);
    var f := e.(ops := e.ops + Loaders(reg));
    WithoutRun(c, J, R0);
    EmittedSplit(b, e, [JMP(0)], R0);
    var r := Run(b, n, R0);
    JumpExits(b, if r.Fall? then r.R else R0);
    EmittedSplit(e, f, Loaders(reg), R0);
    ToHereWF(f, J + {n});
    ToHereRun(f, J + {n}, R0);
    ToHereLength(f, J + {n});
    ExitPending(b, 0, n, R0);
  }

  lemma ToHereLength(c: Code, L: set<nat>)
    ensures |ToHere(c, L).ops| == |c.ops|
  {
  }

  lemma JumpExits(b: Code, R: Regs)
    ensures var e, n := b.(ops := b.ops + [JMP(0)]), |b.ops|; n !in e.D ==> Exec(e, n, n + 1, R) == Exit(n, R)
  {
  }

  lemma SkippedSem(a: Code, c: Code, J: set<nat>, T: set<nat>, F: set<nat>, x: Expr, fr: nat, reg: nat)
    requires WF(c) && NoRegs(c, J) && (forall q :: q in J ==> q in c.D && c.D[q] == |c.ops|)
    requires Sem(a, c, T, F, x, fr, InReg(reg)) && Pending(c, T) && Pending(c, F)
    ensures WF(Skipped(c, J, reg)) && Sem(a, Skipped(c, J, reg), T, F, x, fr, InReg(reg))
  {
    hide WF, NoRegs, Pending, Run, Eval, ExitOk;
    var d := Skipped(c, J, reg);
    SkippedRun(c, J, reg, Zero());
    forall R0: Regs
      ensures SemAt(a, d, T, F, x, fr, InReg(reg), R0)
    {
      assert SemAt(a, c, T, F, x, fr, InReg(reg), R0);
      SkippedRun(c, J, reg, R0);
      var o, r := Run(a, |a.ops|, R0), Run(c, |c.ops|, R0);
      if o.Fall? && r.Exit? {
        SameExit(c, d, T, F, r.j, r.R, Eval(c.cmp, x, o.R));
      }
    }
  }

  function Zero(): Regs {
    seq(MAXREGS, _ => Nil)
  }

  /** A comparison that did not jump: its value, false, is loaded. */
  lemma KnownSem(a: Code, c: Code, d: Code, T: set<nat>, F: set<nat>, x: Expr, fr: nat, reg: nat)
    requires WF(c) && Sem(a, c, T, F, x, fr, Known(false)) && Emitted(c, d, Loaders(reg)) && reg < MAXREGS
    requires Pending(c, T) && Pending(c, F)
    ensures WF(d) && Sem(a, d, T, F, x, fr, InReg(reg))
  {
    assert MoreOk(c, Loaders(reg));
    EmittedWF(c, d, Loaders(reg));
    assert d.ops[|c.ops| + 0] == Loaders(reg)[0];
    forall R0: Regs
      ensures SemAt(a, d, T, F, x, fr, InReg(reg), R0)
    {
      assert SemAt(a, c, T, F, x, fr, Known(false), R0);
      EmittedSplit(c, d, Loaders(reg), R0);
      var o, r := Run(a, |a.ops|, R0), Run(c, |c.ops|, R0);
      if o.Fall? && r.Exit? {
        SameExit(c, d, T, F, r.j, r.R, Eval(c.cmp, x, o.R));
      } else if o.Fall? {
        Reassign(fr, reg, o.R, r.R, Bool(false));
        assert Effect(d.cmp, d.k, d.ops[|c.ops|], |c.ops|, r.R) == Go(|d.ops|, Set(r.R, reg, Bool(false)));
      }
    }
    hide WF, Pending, Run, Eval, ExitOk, Emitted, MoreOk, Agree, AgreeBut;
  }

  // ---------- patching the lists ----------

  /** From `p`, truth value `b` is loaded in register `reg`, and control comes to the end. */
  ghost predicate LoadsBool(c: Code, p: nat, reg: nat, b: bool) {
    p < |c.ops| && c.ops[p].LOADBOOL? && c.ops[p].A == reg && c.ops[p].b == b && (if c.ops[p].skip then p + 2 else p + 1) == |c.ops|
  }

  /** Where the jumps of a list go: those that bring a value to the end, the others to a loader. */
  ghost predicate Targets(c: Code, d: Code, L: set<nat>, reg: nat, b: bool) {
    forall j :: j in L ==> j in d.D && if 0 < j <= |c.ops| && c.ops[j - 1].TESTSET? then d.D[j] == |c.ops| else LoadsBool(d, d.D[j], reg, b)
  }

  lemma HomeAt(a: Code, c: Code, d: Code, T: set<nat>, F: set<nat>, x: Expr, fr: nat, reg: nat, b: bool, R0: Regs)
    requires WF(c) && WF(d) && reg < MAXREGS && SemAt(a, c, T, F, x, fr, InReg(reg), R0) && T !! F && d.cmp == c.cmp && |d.ops| == |c.ops|
    requires var L := if b then T else F;
      Targets(c, d, L, reg, b) && Run(d, |d.ops|, R0) == Resumed(c, d, L, reg, |c.ops|, Run(c, |c.ops|, R0))
    requires forall j :: j in T || j in F ==> j >= |a.ops|
    requires SameControls(c, d, if b then F else T)
    ensures SemAt(a, d, if b then {} else T, if b then F else {}, x, fr, InReg(reg), R0)
  {
    var L := if b then T else F;
    var o, r := Run(a, |a.ops|, R0), Run(c, |c.ops|, R0);
    ExitPending(a, 0, |a.ops|, R0);
    if o.Fall? && r.Exit? {
      var v := Eval(c.cmp, x, o.R);
      if r.j in L {
        HomeExit(c, d, T, F, reg, b, r.j, r.R, v);
        Reassign(fr, reg, o.R, r.R, v);
      }
    }
    hide WF, Run, Eval, Targets, Resumed, Exec;
  }

  lemma HomeExit(c: Code, d: Code, T: set<nat>, F: set<nat>, reg: nat, b: bool, j: nat, R: Regs, v: Val)
    requires reg < MAXREGS && |d.ops| == |c.ops| && T !! F && ExitOk(c, T, F, j, R, v)
    requires j in (if b then T else F) && Targets(c, d, if b then T else F, reg, b)
    ensures Resumed(c, d, if b then T else F, reg, |c.ops|, Exit(j, R)) == Fall(Set(R, reg, v))
  {
    if !(0 < j <= |c.ops| && c.ops[j - 1].TESTSET?) {
      var p := d.D[j];
      assert v == Bool(b);
      assert Effect(d.cmp, d.k, d.ops[p], p, R) == Go(|c.ops|, Set(R, reg, v));
      assert Exec(d, p, |c.ops|, R) == Exec(d, |c.ops|, |c.ops|, Set(R, reg, v));
    } else {
      assert Assign(c, j, reg, R) == Set(R, reg, v);
      assert d.D[j] == |c.ops|;
    }
  }

  /** One list is patched: its jumps bring the value home. */
  lemma HomeSem(a: Code, c: Code, d: Code, T: set<nat>, F: set<nat>, x: Expr, fr: nat, reg: nat, b: bool)
    requires WF(c) && WF(d) && reg < MAXREGS && Sem(a, c, T, F, x, fr, InReg(reg)) && T !! F
    requires var L := if b then T else F; Targets(c, d, L, reg, b) && Patched(c, d, L, reg)
    requires forall j :: j in T || j in F ==> j >= |a.ops|
    requires SameControls(c, d, if b then F else T)
    ensures Sem(a, d, if b then {} else T, if b then F else {}, x, fr, InReg(reg))
  {
    var L, T', F' := if b then T else F, if b then {} else T, if b then F else {};
    EndCut(c);
    forall R0: Regs
      ensures SemAt(a, d, T', F', x, fr, InReg(reg), R0)
    {
      assert SemAt(a, c, T, F, x, fr, InReg(reg), R0);
      PatchedExec(c, d, L, reg, 0, |c.ops|, R0);
      HomeAt(a, c, d, T, F, x, fr, reg, b, R0);
    }
    hide WF, Patched, SemAt, SameControls, Targets, Cut;
  }
}
