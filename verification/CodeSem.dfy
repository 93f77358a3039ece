/** What the code of an expression has to do, while it is being generated. */
module CodeSem {
  import opened Opcodes
  import opened CodeExec

  /** Where the value of an expression is (`expkind`). `VNUM` stands for `VKINT` and `VKFLT`. */
  datatype Kind =
    | VNIL | VTRUE | VFALSE | VK(i: nat) | VNUM(n: int) | VLOCAL(r: nat)
    | VNONRELOC(r: nat) | VRELOCABLE(pc: nat) | VJMP(pc: nat)

  /** What holds when control falls through at the end of the code. */
  datatype Final =
    | Value(k: Kind)    // the value is where `k` says; the last instructions of `k` are still to run
    | InReg(reg: nat)   // the value has been put in register `reg`
    | Known(b: bool)    // the value is the boolean `b`
    | Truth(b: bool)    // the value counts as `b`

  /** The code before the instructions that belong to the value itself. */
  ghost function Base(c: Code, k: Kind): nat {
    match k
    case VRELOCABLE(pc) => pc
    case VJMP(pc) => if pc > 0 then pc - 1 else 0
    case _ => |c.ops|
  }

  ghost predicate ShapeOk(c: Code, k: Kind) {
    match k
    case VRELOCABLE(pc) => pc + 1 == |c.ops| && c.ops[pc].NOT? && Cut(c, pc)
    case VJMP(pc) =>
      pc > 0 && pc + 1 == |c.ops| && c.ops[pc - 1].COMPARE? && c.ops[pc].JMP? && pc !in c.D && Cut(c, pc - 1)
    case VK(i) => i < |c.k|
    case _ => true
  }

  function Compared(c: Code, i: Instr, R: Regs): bool
    requires i.COMPARE?
  {
    c.cmp(i.rel, RK(c.k, R, i.B), RK(c.k, R, i.C)) == i.want
  }

  ghost function ValOf(c: Code, k: Kind, R: Regs): Val
    requires ShapeOk(c, k)
  {
    match k
    case VNIL => Nil
    case VTRUE => Bool(true)
    case VFALSE => Bool(false)
    case VK(i) => c.k[i]
    case VNUM(n) => NumVal(n)
    case VLOCAL(r) => Get(R, r)
    case VNONRELOC(r) => Get(R, r)
    case VRELOCABLE(pc) => Bool(Falsy(Get(R, c.ops[pc].B)))
    case VJMP(pc) => Bool(Compared(c, c.ops[pc - 1], R))
  }

  /** A pending jump knows the value: in the register that its `TESTSET` tests, or as a boolean. */
  ghost predicate Kept(c: Code, j: nat, R: Regs, v: Val) {
    if 0 < j <= |c.ops| && c.ops[j - 1].TESTSET? then v == Get(R, c.ops[j - 1].B) else v.Bool?
  }

  /** Control may leave by jump `j`: of the list `T` if the value is true, of `F` if it is false. */
  ghost predicate ExitOk(c: Code, T: set<nat>, F: set<nat>, j: nat, R: Regs, v: Val) {
    (j in T || j in F) && (j in T ==> !Falsy(v)) && (j in F ==> Falsy(v)) && Kept(c, j, R, v)
  }

  ghost predicate AgreeBut(n: nat, reg: nat, R: Regs, S: Regs) {
    forall i :: 0 <= i < n && i != reg ==> Get(S, i) == Get(R, i)
  }

  ghost predicate FinalOk(c: Code, f: Final, fr: nat, R: Regs, S: Regs, v: Val) {
    match f
    case Value(k) => Agree(fr, R, S) && ShapeOk(c, k) && ValOf(c, k, S) == v
    case InReg(reg) => AgreeBut(fr, reg, R, S) && Get(S, reg) == v
    case Known(b) => Agree(fr, R, S) && v == Bool(b)
    case Truth(b) => Agree(fr, R, S) && Falsy(v) == !b
  }

  ghost function EndOf(c: Code, f: Final): nat {
    if f.Value? then Base(c, f.k) else |c.ops|
  }

  ghost predicate Reached(c: Code, T: set<nat>, F: set<nat>, x: Expr, fr: nat, f: Final, R: Regs, r: Res) {
    var v := Eval(c.cmp, x, R);
    if r.Fall? then FinalOk(c, f, fr, R, r.R, v) else Agree(fr, R, r.R) && ExitOk(c, T, F, r.j, r.R, v)
  }

  ghost predicate SemAt(a: Code, c: Code, T: set<nat>, F: set<nat>, x: Expr, fr: nat, f: Final, R0: Regs) {
    var o, r := Run(a, |a.ops|, R0), Run(c, EndOf(c, f), R0);
    if o.Exit? then r == o else Reached(c, T, F, x, fr, f, o.R, r)
  }

  /** Code `a` has been extended to `c`, which evaluates expression `x`. On every run, control that left
      `a` by a pending jump still does so; control that came to the end of `a` now comes to the end of
      `c` as `f` says, or leaves by a jump of `T` (`x` is true) or `F` (`x` is false). Registers below
      `fr` are unchanged. */
  ghost predicate Sem(a: Code, c: Code, T: set<nat>, F: set<nat>, x: Expr, fr: nat, f: Final) {
    c.cmp == a.cmp && forall R0: Regs :: SemAt(a, c, T, F, x, fr, f, R0)
  }

  ghost predicate Pending(c: Code, L: set<nat>) {
    forall j :: j in L ==> j < |c.ops| && c.ops[j].JMP? && j !in c.D
  }

  /** The controls of the jumps `L` are the same in `d`. */
  ghost predicate SameControls(c: Code, d: Code, L: set<nat>) {
    |c.ops| <= |d.ops| && forall j :: j in L && 0 < j ==> j <= |c.ops| && d.ops[j - 1] == c.ops[j - 1]
  }

  // ---------- nothing or one instruction puts a value in a register ----------

  lemma Reassign(n: nat, reg: nat, R: Regs, S: Regs, v: Val)
    requires Agree(n, R, S) && reg < MAXREGS
    ensures AgreeBut(n, reg, R, Set(S, reg, v)) && Get(Set(S, reg, v), reg) == v
  {
  }

  /** Instruction `i` puts the value in register `reg`. */
  ghost predicate Loads(c: Code, k: Kind, i: Instr, reg: nat)
    requires ShapeOk(c, k)
  {
    forall p: nat, R: Regs :: Effect(c.cmp, c.k, i, p, R) == Go(p + 1, Set(R, reg, ValOf(c, k, R)))
  }

  lemma LoadSem(a: Code, c: Code, d: Code, T: set<nat>, F: set<nat>, x: Expr, fr: nat, k: Kind, i: Instr, reg: nat)
    requires Sem(a, c, T, F, x, fr, Value(k)) && WF(c) && ShapeOk(c, k) && !k.VRELOCABLE? && !k.VJMP?
    requires Emitted(c, d, [i]) && MoreOk(c, [i]) && Loads(c, k, i, reg) && reg < MAXREGS
    requires Pending(c, T) && Pending(c, F)
    ensures Sem(a, d, T, F, x, fr, InReg(reg))
  {
    forall R0: Regs
      ensures SemAt(a, d, T, F, x, fr, InReg(reg), R0)
    {
      assert SemAt(a, c, T, F, x, fr, Value(k), R0);
      LoadAt(a, c, d, T, F, x, fr, k, i, reg, R0);
    }
    hide SemAt, WF, Emitted, MoreOk, Loads, Pending;
  }

  lemma LoadAt(a: Code, c: Code, d: Code, T: set<nat>, F: set<nat>, x: Expr, fr: nat, k: Kind, i: Instr, reg: nat, R0: Regs)
    requires SemAt(a, c, T, F, x, fr, Value(k), R0) && WF(c) && ShapeOk(c, k) && !k.VRELOCABLE? && !k.VJMP?
    requires Emitted(c, d, [i]) && MoreOk(c, [i]) && Loads(c, k, i, reg) && reg < MAXREGS
    requires Pending(c, T) && Pending(c, F)
    ensures SemAt(a, d, T, F, x, fr, InReg(reg), R0)
  {
    EmittedSplit(c, d, [i], R0);
    var o, r := Run(a, |a.ops|, R0), Run(c, |c.ops|, R0);
    if o.Fall? {
      if r.Fall? {
        var v := ValOf(c, k, r.R);
        assert d.ops[|c.ops| + 0] == [i][0];
        assert Effect(d.cmp, d.k, i, |c.ops|, r.R) == Go(|d.ops|, Set(r.R, reg, v));
        Reassign(fr, reg, o.R, r.R, v);
      } else {
        SameExit(c, d, T, F, r.j, r.R, Eval(c.cmp, x, o.R));
      }
    }
    hide WF, MoreOk, Loads, Eval, Run;
  }

  /** New code does not change what is known at a pending jump. */
  lemma SameExit(c: Code, d: Code, T: set<nat>, F: set<nat>, j: nat, R: Regs, v: Val)
    requires ExitOk(c, T, F, j, R, v) && Pending(c, T) && Pending(c, F)
    requires |c.ops| <= |d.ops|
    requires forall p :: 0 <= p < |c.ops| ==> d.ops[p] == c.ops[p] || (p + 1 in c.D)
    ensures ExitOk(d, T, F, j, R, v)
  {
  }

  /** The instruction that makes the value gets its register. */
  lemma RelocAt(a: Code, c: Code, d: Code, T: set<nat>, F: set<nat>, x: Expr, fr: nat, pc: nat, reg: nat, R0: Regs)
    requires SemAt(a, c, T, F, x, fr, Value(VRELOCABLE(pc)), R0) && WF(c) && WF(d) && ShapeOk(c, VRELOCABLE(pc)) && reg < MAXREGS
    requires d == c.(ops := c.ops[pc := NOT(reg, c.ops[pc].B)]) && Pending(c, T) && Pending(c, F)
    ensures SemAt(a, d, T, F, x, fr, InReg(reg), R0)
  {
    hide WF, Cut, Eval;
    RelocCut(c, d, pc, reg);
    ExecSame(c, d, 0, pc, R0);
    ExecSplit(d, 0, pc, |d.ops|, R0);
    var o, r := Run(a, |a.ops|, R0), Run(c, pc, R0);
    if o.Fall? {
      if r.Fall? {
        var v := ValOf(c, VRELOCABLE(pc), r.R);
        assert Effect(d.cmp, d.k, d.ops[pc], pc, r.R) == Go(|d.ops|, Set(r.R, reg, v));
        Reassign(fr, reg, o.R, r.R, v);
      }
    }
  }

  lemma RelocCut(c: Code, d: Code, pc: nat, reg: nat)
    requires WF(c) && WF(d) && ShapeOk(c, VRELOCABLE(pc)) && d == c.(ops := c.ops[pc := NOT(reg, c.ops[pc].B)])
    ensures Cut(d, pc) && forall p :: 0 <= p < pc ==> OpOk(c, p)
  {
  }

  lemma RelocWF(c: Code, d: Code, pc: nat, reg: nat)
    requires WF(c) && ShapeOk(c, VRELOCABLE(pc)) && d == c.(ops := c.ops[pc := NOT(reg, c.ops[pc].B)])
    ensures WF(d)
  {
    forall p | 0 <= p < |d.ops|
      ensures OpOk(d, p)
    {
      assert OpOk(c, p);
    }
    forall q | q in d.D
      ensures TargetOk(d, q)
    {
      assert TargetOk(c, q);
    }
  }

  lemma RelocSem(a: Code, c: Code, d: Code, T: set<nat>, F: set<nat>, x: Expr, fr: nat, pc: nat, reg: nat)
    requires Sem(a, c, T, F, x, fr, Value(VRELOCABLE(pc))) && WF(c) && ShapeOk(c, VRELOCABLE(pc)) && reg < MAXREGS
    requires d == c.(ops := c.ops[pc := NOT(reg, c.ops[pc].B)]) && Pending(c, T) && Pending(c, F)
    ensures Sem(a, d, T, F, x, fr, InReg(reg)) && WF(d)
  {
    hide SemAt, WF, Pending;
    RelocWF(c, d, pc, reg);
    forall R0: Regs
      ensures SemAt(a, d, T, F, x, fr, InReg(reg), R0)
    {
      assert SemAt(a, c, T, F, x, fr, Value(VRELOCABLE(pc)), R0);
      RelocAt(a, c, d, T, F, x, fr, pc, reg, R0);
    }
  }

  /** A value in a register that is not a local's stays there. */
  lemma InRegValue(a: Code, c: Code, T: set<nat>, F: set<nat>, x: Expr, fr: nat, reg: nat)
    requires Sem(a, c, T, F, x, fr, InReg(reg)) && reg >= fr
    ensures Sem(a, c, T, F, x, fr, Value(VNONRELOC(reg)))
  {
    hide Eval, Run, Kept;
    forall R0: Regs
      ensures SemAt(a, c, T, F, x, fr, Value(VNONRELOC(reg)), R0)
    {
      assert SemAt(a, c, T, F, x, fr, InReg(reg), R0);
    }
  }

  /** The value is already in the register wanted. */
  lemma AlreadyInReg(a: Code, c: Code, T: set<nat>, F: set<nat>, x: Expr, fr: nat, reg: nat)
    requires Sem(a, c, T, F, x, fr, Value(VNONRELOC(reg)))
    ensures Sem(a, c, T, F, x, fr, InReg(reg))
  {
    hide Eval, Run, Kept;
    forall R0: Regs
      ensures SemAt(a, c, T, F, x, fr, InReg(reg), R0)
    {
      assert SemAt(a, c, T, F, x, fr, Value(VNONRELOC(reg)), R0);
    }
  }

  // ---------- merging LOADNIL ----------

  /** `d` is `c` with the `LOADNIL` at its end extended to register `reg`. */
  ghost predicate Merged(c: Code, d: Code, reg: nat) {
    && |c.ops| > 0 && c.ops[|c.ops| - 1].LOADNIL?
    && (forall q :: q in c.D ==> c.D[q] < |c.ops|)
    && var i := c.ops[|c.ops| - 1];
    && i.A <= reg + 1 && reg <= i.A + i.n + 1
    && var from, last := if reg < i.A then reg else i.A, if reg > i.A + i.n then reg else i.A + i.n;
    && d == c.(ops := c.ops[|c.ops| - 1 := LOADNIL(from, last - from)])
  }

  lemma MergedWF(c: Code, d: Code, reg: nat)
    requires WF(c) && Merged(c, d, reg)
    ensures WF(d) && Cut(c, |c.ops| - 1) && Cut(d, |c.ops| - 1)
  {
    forall p | 0 <= p < |d.ops|
      ensures OpOk(d, p)
    {
      assert OpOk(c, p);
    }
    forall q | q in d.D
      ensures TargetOk(d, q)
    {
      assert TargetOk(c, q);
    }
    if |c.ops| > 1 {
      assert OpOk(c, |c.ops| - 2);
    }
  }

  lemma MergedRun(c: Code, d: Code, reg: nat, R0: Regs)
    requires WF(c) && Merged(c, d, reg) && reg < MAXREGS
    ensures var r := Run(c, |c.ops|, R0); Run(d, |d.ops|, R0) == if r.Fall? then Fall(Set(r.R, reg, Nil)) else r
  {
    var n := |c.ops| - 1;
    MergedWF(c, d, reg);
    MergedPrefix(c, d, n, reg);
    ExecSame(c, d, 0, n, R0);
    ExecSplit(c, 0, n, n + 1, R0);
    ExecSplit(d, 0, n, n + 1, R0);
    var r := Run(c, n, R0);
    if r.Fall? {
      var i, m := c.ops[n], d.ops[n];
      assert SetNil(r.R, m.A, m.A + m.n) == Set(SetNil(r.R, i.A, i.A + i.n), reg, Nil);
      assert Effect(c.cmp, c.k, i, n, r.R) == Go(n + 1, SetNil(r.R, i.A, i.A + i.n));
      assert Effect(d.cmp, d.k, m, n, r.R) == Go(n + 1, SetNil(r.R, m.A, m.A + m.n));
    }
    hide WF, Cut, SetNil;
  }

  lemma MergedPrefix(c: Code, d: Code, n: nat, reg: nat)
    requires WF(c) && Merged(c, d, reg) && n == |c.ops| - 1
    ensures forall x :: 0 <= x < n ==> c.ops[x] == d.ops[x] && OpOk(c, x)
  {
  }

  lemma MergedSem(a: Code, c: Code, d: Code, T: set<nat>, F: set<nat>, x: Expr, fr: nat, reg: nat)
    requires Sem(a, c, T, F, x, fr, Value(VNIL)) && WF(c) && Merged(c, d, reg) && reg < MAXREGS
    requires Pending(c, T) && Pending(c, F)
    ensures Sem(a, d, T, F, x, fr, InReg(reg))
  {
    forall R0: Regs
      ensures SemAt(a, d, T, F, x, fr, InReg(reg), R0)
    {
      assert SemAt(a, c, T, F, x, fr, Value(VNIL), R0);
      MergedRun(c, d, reg, R0);
      var o, r := Run(a, |a.ops|, R0), Run(c, |c.ops|, R0);
      if o.Fall? && r.Fall? {
        Reassign(fr, reg, o.R, r.R, Nil);
      }
      if o.Fall? && r.Exit? {
        MergedExit(c, d, T, F, reg, r.j, r.R, Eval(c.cmp, x, o.R));
      }
    }
    hide WF, Pending, Eval, Run, Merged, ExitOk, Agree, AgreeBut;
  }

  lemma MergedExit(c: Code, d: Code, T: set<nat>, F: set<nat>, reg: nat, j: nat, R: Regs, v: Val)
    requires ExitOk(c, T, F, j, R, v) && Pending(c, T) && Pending(c, F) && Merged(c, d, reg)
    ensures ExitOk(d, T, F, j, R, v)
  {
  }
}
