/** Jumps on the value of an expression: what each step of the generator means for the runs. */
module CodeJumps {
  import opened Opcodes
  import opened CodeExec
  import opened CodeSem

  // ---------- ending a condition with a jump ----------

  /** The jump at the end of `d` is taken if the value of `c` counts as `b`. */
  ghost predicate JumpsIf(c: Code, k: Kind, d: Code, base: nat, b: bool)
    requires ShapeOk(c, k)
  {
    && |d.ops| == base + 2 && d.cmp == c.cmp && IsTest(d.ops[base]) && d.ops[base + 1].JMP? && base + 1 !in d.D && Cut(d, base)
    && forall R: Regs :: JumpsAt(c, k, d, base, b, R)
  }

  ghost predicate JumpsAt(c: Code, k: Kind, d: Code, base: nat, b: bool, R: Regs)
    requires ShapeOk(c, k) && base < |d.ops|
  {
    var v := ValOf(c, k, R);
    var n := Effect(d.cmp, d.k, d.ops[base], base, R);
    && n.Go? && n.p == (if Falsy(v) == !b then base + 1 else base + 2) && n.R == R
    && Kept(d, base + 1, R, v)
  }

  /** Runs up to `base` are the same in both. */
  ghost predicate SamePrefix(c: Code, d: Code, base: nat) {
    forall R0: Regs :: Run(d, base, R0) == Run(c, base, R0)
  }

  function WithJump(L: set<nat>, here: bool, j: nat): set<nat> {
    if here then L + {j} else L
  }

  /** A value that jumped if it counted as `b`, and did not. */
  function Otherwise(k: Kind, b: bool): Final {
    if k.VJMP? then Known(!b) else Truth(!b)
  }

  lemma JumpSem(a: Code, c: Code, d: Code, T: set<nat>, F: set<nat>, x: Expr, fr: nat, k: Kind, b: bool)
    requires Sem(a, c, T, F, x, fr, Value(k)) && WF(d) && ShapeOk(c, k) && JumpsIf(c, k, d, Base(c, k), b)
    requires SameControls(c, d, T) && SameControls(c, d, F)
    requires Base(c, k) + 1 !in T && Base(c, k) + 1 !in F
    requires SamePrefix(c, d, Base(c, k))
    ensures var j := Base(c, k) + 1; Sem(a, d, WithJump(T, b, j), WithJump(F, !b, j), x, fr, Otherwise(k, b))
  {
    var j := Base(c, k) + 1;
    var T', F', f := WithJump(T, b, j), WithJump(F, !b, j), Otherwise(k, b);
    forall R0: Regs
      ensures SemAt(a, d, T', F', x, fr, f, R0)
    {
      assert SemAt(a, c, T, F, x, fr, Value(k), R0);
      assert Run(d, Base(c, k), R0) == Run(c, Base(c, k), R0);
      JumpSemAt(a, c, d, T, F, x, fr, k, b, R0);
    }
    hide SemAt, WF, JumpsIf, SameControls, Base;
  }

  lemma JumpSemAt(a: Code, c: Code, d: Code, T: set<nat>, F: set<nat>, x: Expr, fr: nat, k: Kind, b: bool, R0: Regs)
    requires SemAt(a, c, T, F, x, fr, Value(k), R0) && WF(d) && ShapeOk(c, k) && JumpsIf(c, k, d, Base(c, k), b)
    requires SameControls(c, d, T) && SameControls(c, d, F)
    requires Base(c, k) + 1 !in T && Base(c, k) + 1 !in F
    requires Run(d, Base(c, k), R0) == Run(c, Base(c, k), R0)
    ensures var j := Base(c, k) + 1; SemAt(a, d, WithJump(T, b, j), WithJump(F, !b, j), x, fr, Otherwise(k, b), R0)
  {
    var base := Base(c, k);
    var o, r := Run(a, |a.ops|, R0), Run(c, base, R0);
    JumpEnd(c, k, d, base, b, R0);
    if o.Fall? {
      var v := Eval(c.cmp, x, o.R);
      if r.Fall? {
        assert JumpsAt(c, k, d, base, b, r.R) && v == ValOf(c, k, r.R);
      } else {
        JumpExit(c, d, T, F, b, base + 1, r.j, r.R, v);
      }
    }
    hide WF, JumpsIf, JumpsAt, Run, Eval, Base, SameControls, Agree;
  }

  lemma JumpExit(c: Code, d: Code, T: set<nat>, F: set<nat>, b: bool, n: nat, j: nat, R: Regs, v: Val)
    requires ExitOk(c, T, F, j, R, v) && SameControls(c, d, T) && SameControls(c, d, F) && n !in T && n !in F
    ensures ExitOk(d, WithJump(T, b, n), WithJump(F, !b, n), j, R, v)
  {
  }

  /** A run through the new test and jump. */
  lemma JumpEnd(c: Code, k: Kind, d: Code, base: nat, b: bool, R0: Regs)
    requires WF(d) && ShapeOk(c, k) && JumpsIf(c, k, d, base, b)
    ensures var r := Run(d, base, R0);
      Run(d, |d.ops|, R0) ==
        if r.Exit? then r else if Falsy(ValOf(c, k, r.R)) == !b then Exit(base + 1, r.R) else Fall(r.R)
    ensures var r := Run(d, base, R0); r.Fall? ==> Kept(d, base + 1, r.R, ValOf(c, k, r.R))
  {
    hide WF, Cut;
    ExecSplit(d, 0, base, |d.ops|, R0);
    var r := Run(d, base, R0);
    if r.Fall? {
      assert JumpsAt(c, k, d, base, b, r.R);
      var n := Effect(d.cmp, d.k, d.ops[base], base, r.R);
      assert Exec(d, base, |d.ops|, r.R) == Exec(d, n.p, |d.ops|, r.R);
    }
  }

  /** A comparison, as it is, jumps if it holds. */
  lemma CompareJumps(c: Code, pc: nat)
    requires WF(c) && ShapeOk(c, VJMP(pc))
    ensures JumpsIf(c, VJMP(pc), c, pc - 1, true)
  {
    hide WF, Cut;
    var base: nat := pc - 1;
    forall R: Regs
      ensures JumpsAt(c, VJMP(pc), c, base, true, R)
    {
    }
  }

  /** `invertjump`. */
  function Inverted(c: Code, pc: nat): Code
    requires 0 < pc <= |c.ops| && c.ops[pc - 1].COMPARE?
  {
    var i := c.ops[pc - 1];
    c.(ops := c.ops[pc - 1 := COMPARE(i.rel, !i.want, i.B, i.C)])
  }

  lemma InvertedWF(c: Code, pc: nat)
    requires WF(c) && ShapeOk(c, VJMP(pc))
    ensures WF(Inverted(c, pc)) && ShapeOk(Inverted(c, pc), VJMP(pc))
  {
    var d := Inverted(c, pc);
    forall p | 0 <= p < |d.ops|
      ensures OpOk(d, p)
    {
      assert OpOk(c, p);
    }
    forall q | q in d.D
      ensures TargetOk(d, q)
    {
      assert TargetOk(c, q);
    }
  }

  lemma InvertedPrefix(c: Code, pc: nat, R0: Regs)
    requires WF(c) && ShapeOk(c, VJMP(pc))
    ensures Run(Inverted(c, pc), pc - 1, R0) == Run(c, pc - 1, R0)
  {
    ExecSame(c, Inverted(c, pc), 0, pc - 1, R0);
  }

  lemma InvertedJumps(c: Code, pc: nat)
    requires WF(c) && ShapeOk(c, VJMP(pc))
    ensures JumpsIf(c, VJMP(pc), Inverted(c, pc), pc - 1, false)
  {
    hide WF, Cut;
    InvertedWF(c, pc);
    var d := Inverted(c, pc);
    var base: nat := pc - 1;
    forall R: Regs
      ensures JumpsAt(c, VJMP(pc), d, base, false, R)
    {
    }
  }

  /** A value in a register: `TESTSET` and a jump. */
  lemma TestSetJumps(c: Code, d: Code, r: nat, b: bool)
    requires WF(c) && Emitted(c, d, [TESTSET(NO_REG, r, b), JMP(0)])
    ensures MoreOk(c, [TESTSET(NO_REG, r, b), JMP(0)]) && WF(d) && JumpsIf(c, VNONRELOC(r), d, |c.ops|, b)
    ensures SamePrefix(c, d, |c.ops|)
  {
    var more := [TESTSET(NO_REG, r, b), JMP(0)];
    EmittedWF(c, d, more);
    assert d.ops[|c.ops| + 0] == more[0] && d.ops[|c.ops| + 1] == more[1];
    forall R: Regs
      ensures JumpsAt(c, VNONRELOC(r), d, |c.ops|, b, R)
    {
      SetSame(R, r);
    }
    assert forall q :: q in c.D ==> TargetOk(c, q);
    forall R0: Regs
      ensures Run(d, |c.ops|, R0) == Run(c, |c.ops|, R0)
    {
      EmittedRun(c, d, more, 0, R0);
    }
    hide WF, Cut, Emitted, MoreOk;
  }

  /** `jumponcond` on a `NOT`: the instruction is removed, and `TEST` takes its place. */
  function NotRemoved(c: Code, pc: nat, b: bool): Code
    requires pc < |c.ops| && c.ops[pc].NOT?
  {
    c.(ops := c.ops[..pc] + [TEST(c.ops[pc].B, !b), JMP(0)])
  }

  lemma NotRemovedWF(c: Code, pc: nat, b: bool)
    requires WF(c) && ShapeOk(c, VRELOCABLE(pc))
    ensures WF(NotRemoved(c, pc, b)) && Cut(NotRemoved(c, pc, b), pc) && pc + 1 !in c.D
  {
    var d := NotRemoved(c, pc, b);
    forall p | 0 <= p < |d.ops|
      ensures OpOk(d, p)
    {
      if p < pc {
        assert OpOk(c, p);
      }
    }
    assert forall q :: q in c.D ==> TargetOk(c, q);
    forall q | q in d.D
      ensures TargetOk(d, q) && q < pc
    {
      assert TargetOk(c, q);
    }
  }

  lemma NotJumps(c: Code, pc: nat, b: bool)
    requires WF(c) && ShapeOk(c, VRELOCABLE(pc))
    ensures WF(NotRemoved(c, pc, b)) && JumpsIf(c, VRELOCABLE(pc), NotRemoved(c, pc, b), pc, b)
    ensures SamePrefix(c, NotRemoved(c, pc, b), pc)
  {
    hide Cut;
    NotRemovedWF(c, pc, b);
    var d := NotRemoved(c, pc, b);
    forall R: Regs
      ensures JumpsAt(c, VRELOCABLE(pc), d, pc, b, R)
    {
    }
    forall R0: Regs
      ensures Run(d, pc, R0) == Run(c, pc, R0)
    {
      ExecSame(c, d, 0, pc, R0);
    }
  }
}
