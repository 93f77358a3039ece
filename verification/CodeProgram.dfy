/** Whole functions: assignments to local variables, and a result. */
module CodeProgram {
  import opened Opcodes
  import opened CodeMeaning
  import opened CodeExec
  import opened CodeSem
  import opened CodeLists
  import opened CodeState
  import opened CodeMoves
  import opened CodeEdits
  import opened CodeGlue
  import opened CodeTies
  import opened CodeConds
  import opened CodeOps
  import opened CodeRegs
  import opened CodeGen

  /** `r = x`. */
  datatype Stmt = Assign(r: nat, x: Expr)

  /** What a sequence of assignments means. */
  function Interp(cmp: Compare, stmts: seq<Stmt>, R: Regs): Regs {
    if stmts == [] then R
    else
      var i := |stmts| - 1;
      var S := Interp(cmp, stmts[..i], R);
      Set(S, stmts[i].r, Eval(cmp, stmts[i].x, S))
  }

  /** Assignments are made in order: the last one changes its local variable and no other. */
  lemma Assigned(cmp: Compare, stmts: seq<Stmt>, r: nat, x: Expr, R: Regs)
    ensures Interp(cmp, [], R) == R
    ensures r < 255 ==> var S := Interp(cmp, stmts, R); Interp(cmp, stmts + [Assign(r, x)], R) == S[r := Eval(cmp, x, S)]
  {
    assert (stmts + [Assign(r, x)])[..|stmts|] == stmts;
  }

  predicate StmtsOk(stmts: seq<Stmt>, n: nat) {
    forall i :: 0 <= i < |stmts| ==> stmts[i].r < n && UsesLocals(stmts[i].x, n)
  }

  /** The code so far does what the assignments mean. */
  ghost predicate Progress(s: FS, cmp: Compare, n: nat, stmts: seq<Stmt>) {
    && Inv(s, cmp, n) && PendingSet(s) == {} && s.freereg == n
    && forall R0: Regs :: ProgressAt(s, cmp, n, stmts, R0)
  }

  ghost predicate ProgressAt(s: FS, cmp: Compare, n: nat, stmts: seq<Stmt>, R0: Regs) {
    var r := Run(Abs(s, cmp), |s.code|, R0);
    r.Fall? && Agree(n, Interp(cmp, stmts, R0), r.R)
  }

  lemma ProgressStep(s0: FS, s: FS, cmp: Compare, n: nat, stmts: seq<Stmt>, st: Stmt)
    requires Progress(s0, cmp, n, stmts) && st.r < n && n < MAXREGS && UsesLocals(st.x, n)
    requires Tied(s0, s, NO_JUMP, NO_JUMP, st.x, n, InReg(st.r), cmp, n) && s.freereg == n
    ensures Progress(s, cmp, n, stmts + [st])
  {
    hide Inv, Run, UsesLocals, Eval, PendingSet, SameJumps;
    NoElems(s.code);
    StepPending(s0, s);
    assert (stmts + [st])[..|stmts|] == stmts;
    forall R0: Regs
      ensures ProgressAt(s, cmp, n, stmts + [st], R0)
    {
      assert ProgressAt(s0, cmp, n, stmts, R0);
      assert SemAt(Abs(s0, cmp), Abs(s, cmp), {}, {}, st.x, n, InReg(st.r), R0);
      var o := Run(Abs(s0, cmp), |s0.code|, R0);
      EvalAgree(cmp, st.x, n, Interp(cmp, stmts, R0), o.R);
    }
  }

  lemma StepPending(s0: FS, s: FS)
    requires PendingSet(s0) == {} && Framed(s0, s, Elems(s.code, NO_JUMP) + Elems(s.code, NO_JUMP))
    ensures PendingSet(s) == {}
  {
    hide PendingSet, SameJumps;
    NoElems(s.code);
  }

  // ---------- the machine ----------

  /** The machine follows the code under construction, once all its jumps are patched. */
  lemma {:induction false} MachineFollows(c: Code, code: seq<Instr>, end: nat, p: nat, R: Regs)
    requires WF(c) && end <= |c.ops| && end <= |code| && Cut(c, end)
    requires forall q :: 0 <= q < end ==> Erase(code[q]) == c.ops[q] && (code[q].JMP? ==> q in c.D && code[q].sBx == c.D[q] - (q + 1))
    requires p <= end
    ensures var r := Exec(c, p, end, R); r.Fall? && Machine(c.cmp, c.k, code, p, R) == Machine(c.cmp, c.k, code, end, r.R)
    decreases end - p
  {
    if p < end {
      assert OpOk(c, p) && (p in c.D ==> TargetOk(c, p));
      var n := Effect(c.cmp, c.k, c.ops[p], p, R);
      assert n == Effect(c.cmp, c.k, code[p], p, R);
      if n.Go? {
        MachineFollows(c, code, end, n.p, n.R);
      } else {
        MachineFollows(c, code, end, c.D[p], n.R);
      }
    }
  }

  /** After the return instruction, no jump is pending, and all have their offsets. */
  lemma FinalCode(s: FS, cmp: Compare, n: nat, reg: nat)
    requires Inv(s, cmp, n) && PendingSet(s) == {}
    ensures var u := Emit(s, [RETURN(reg, 2)]);
      var d := Abs(u, cmp);
      && |u.code| == |s.code| + 1 && u.code[|s.code|] == RETURN(reg, 2) && Emitted(Abs(s, cmp), d, [RETURN(reg, 2)])
      && forall q :: 0 <= q < |s.code| ==> Erase(u.code[q]) == d.ops[q] && (u.code[q].JMP? ==> q in d.D && u.code[q].sBx == d.D[q] - (q + 1))
  {
    hide WF, Emitted, LabelsOk;
    var u := Emit(s, [RETURN(reg, 2)]);
    assert EraseAll([RETURN(reg, 2)]) == [RETURN(reg, 2)];
    EmitEmitted(s, [RETURN(reg, 2)], cmp, n);
    ElemsIn(s.code, s.jpc);
    forall q | 0 <= q < |s.code| && u.code[q].JMP?
      ensures q in u.D && u.code[q].sBx == u.D[q] - (q + 1)
    {
      assert u.code[q] == PatchAt(s.code, Here(s), |s.code|, NO_REG, |s.code|, q);
      assert s.code[q].JMP? && JumpOk(s, q);
      assert q !in PendingSet(s);
    }
  }

  /** The code before the return instruction, as it is then. */
  function Front(d: Code, n: nat): Code
    requires n <= |d.ops|
  {
    d.(ops := d.ops[..n])
  }

  lemma FrontRuns(c: Code, d: Code, i: Instr, R: Regs)
    requires WF(c) && Emitted(c, d, [i])
    ensures |d.ops| == |c.ops| + 1
    ensures var e := Front(d, |c.ops|); WF(e) && Cut(e, |c.ops|) && Run(e, |c.ops|, R) == Run(c, |c.ops|, R)
  {
    hide WF;
    var e := Front(d, |c.ops|);
    assert Emitted(c, e, []);
    EmittedWF(c, e, []);
    EmittedRun(c, e, [], 0, R);
  }

  /** A function returns the value of its result expression, whatever its registers hold at first. */
  lemma ReturnsValue(s: FS, cmp: Compare, n: nat, stmts: seq<Stmt>, s1: FS, x: Expr, reg: nat, R0: Regs)
    requires Progress(s, cmp, n, stmts) && UsesLocals(x, n) && n < MAXREGS
    requires Compiled(s, s1, Exp(VNONRELOC(reg), NO_JUMP, NO_JUMP), x, cmp, n)
    ensures var u := Emit(s1, [RETURN(reg, 2)]);
      Machine(cmp, u.k, u.code, 0, R0) == Returned(Eval(cmp, x, Interp(cmp, stmts, R0)))
  {
    hide Progress, Compiled, Inv, Sem, PendingSet, WF, Emitted, Cut, Exec, Eval, Interp, Machine, UsesLocals;
    var u := Emit(s1, [RETURN(reg, 2)]);
    ReturnState(s, cmp, n, stmts, s1, x, reg, R0);
    FinalCode(s1, cmp, n, reg);
    var c, d := Abs(s1, cmp), Abs(u, cmp);
    FrontRuns(c, d, RETURN(reg, 2), R0);
    MachineFollows(Front(d, |c.ops|), u.code, |c.ops|, 0, R0);
    ReturnStep(cmp, u.k, u.code, |c.ops|, Run(c, |c.ops|, R0).R, reg);
  }

  lemma ReturnStep(cmp: Compare, k: seq<Val>, code: seq<Instr>, p: nat, R: Regs, reg: nat)
    requires p < |code| && code[p] == RETURN(reg, 2)
    ensures Machine(cmp, k, code, p, R) == Returned(Get(R, reg))
  {
  }

  lemma ReturnState(s: FS, cmp: Compare, n: nat, stmts: seq<Stmt>, s1: FS, x: Expr, reg: nat, R0: Regs)
    requires Progress(s, cmp, n, stmts) && UsesLocals(x, n) && n < MAXREGS
    requires Compiled(s, s1, Exp(VNONRELOC(reg), NO_JUMP, NO_JUMP), x, cmp, n)
    ensures Inv(s1, cmp, n) && PendingSet(s1) == {} && WF(Abs(s1, cmp))
    ensures var r := Run(Abs(s1, cmp), |s1.code|, R0); r.Fall? && Get(r.R, reg) == Eval(cmp, x, Interp(cmp, stmts, R0))
  {
    hide Run, Exec, Eval, Interp, Machine, UsesLocals;
    ReadyTies(s, s1, Exp(VNONRELOC(reg), NO_JUMP, NO_JUMP), x, n, cmp, n);
    NoElems(s1.code);
    StepPending(s, s1);
    InvParts(s1, cmp, n);
    ReturnRun(s, cmp, n, stmts, s1, x, reg, R0);
  }

  lemma ReturnRun(s: FS, cmp: Compare, n: nat, stmts: seq<Stmt>, s1: FS, x: Expr, reg: nat, R0: Regs)
    requires Progress(s, cmp, n, stmts) && UsesLocals(x, n) && n < MAXREGS
    requires Sem(Abs(s, cmp), Abs(s1, cmp), {}, {}, x, n, Value(VNONRELOC(reg)))
    ensures var r := Run(Abs(s1, cmp), |s1.code|, R0); r.Fall? && Get(r.R, reg) == Eval(cmp, x, Interp(cmp, stmts, R0))
  {
    hide Inv, Run, Eval, UsesLocals, Interp;
    assert ProgressAt(s, cmp, n, stmts, R0);
    assert SemAt(Abs(s, cmp), Abs(s1, cmp), {}, {}, x, n, Value(VNONRELOC(reg)), R0);
    var o := Run(Abs(s, cmp), |s.code|, R0);
    EvalAgree(cmp, x, n, Interp(cmp, stmts, R0), o.R);
  }

  // ---------- when a body compiles ----------

  /** At most so many instructions and constants are made of the assignments. */
  function CodeOf(stmts: seq<Stmt>): nat {
    if stmts == [] then 0 else CodeOf(stmts[..|stmts| - 1]) + CodeFor(stmts[|stmts| - 1].x) + 4
  }

  function ConstantsOf(stmts: seq<Stmt>): nat {
    if stmts == [] then 0 else ConstantsOf(stmts[..|stmts| - 1]) + ConstantsFor(stmts[|stmts| - 1].x) + 1
  }

  /** The temporary registers of every expression fit above the `n` local variables. */
  predicate RegistersFit(n: nat, stmts: seq<Stmt>, result: Expr) {
    (forall i :: 0 <= i < |stmts| ==> n + Registers(stmts[i].x) < MAXREGS) && n + Registers(result) < MAXREGS
  }

  /** A body that stays below all limits of the instruction format. */
  predicate Moderate(n: nat, stmts: seq<Stmt>, result: Expr) {
    && RegistersFit(n, stmts, result)
    && CodeOf(stmts) + CodeFor(result) + 5 < MAXARG_SBX
    && ConstantsOf(stmts) + ConstantsFor(result) + 1 <= MAXARG_BX
  }

  /** The nodes of the expressions of a body. */
  function Nodes(stmts: seq<Stmt>): nat {
    if stmts == [] then 0 else Nodes(stmts[..|stmts| - 1]) + Size(stmts[|stmts| - 1].x)
  }

  /** A body of up to 5000 nodes, none of whose expressions alone could fill the registers above the `n` locals, stays
      below all limits. */
  lemma SmallBodies(n: nat, stmts: seq<Stmt>, result: Expr)
    requires Nodes(stmts) + Size(result) <= 5000
    requires n + Size(result) < 255 && forall i :: 0 <= i < |stmts| ==> n + Size(stmts[i].x) < 255
    ensures Moderate(n, stmts, result)
  {
    hide CodeOf, ConstantsOf, Nodes, Size, Registers;
    NodesBound(stmts);
    FewRegisters(result);
    forall i | 0 <= i < |stmts|
      ensures n + Registers(stmts[i].x) < MAXREGS
    {
      FewRegisters(stmts[i].x);
    }
  }

  lemma {:induction false} NodesBound(stmts: seq<Stmt>)
    ensures CodeOf(stmts) <= 22 * Nodes(stmts) && ConstantsOf(stmts) <= 7 * Nodes(stmts)
    decreases |stmts|
  {
    hide Size;
    if stmts != [] {
      NodesBound(stmts[..|stmts| - 1]);
    }
  }

  lemma {:induction false} FewRegisters(x: Expr)
    ensures Registers(x) <= Size(x)
  {
    match x
    case NotE(y) => FewRegisters(y);
    case AndE(y, z) => FewRegisters(y); FewRegisters(z);
    case OrE(y, z) => FewRegisters(y); FewRegisters(z);
    case RelE(_, y, z) => FewRegisters(y); FewRegisters(z);
    case Paren(y) => FewRegisters(y);
    case _ =>
  }

  lemma {:induction false} PartOf(stmts: seq<Stmt>, i: nat)
    requires i <= |stmts|
    ensures CodeOf(stmts[..i]) <= CodeOf(stmts) && ConstantsOf(stmts[..i]) <= ConstantsOf(stmts)
    decreases |stmts|
  {
    hide CodeFor, ConstantsFor;
    if i < |stmts| {
      PartOf(stmts[..|stmts| - 1], i);
      assert stmts[..|stmts| - 1][..i] == stmts[..i];
    } else {
      assert stmts[..i] == stmts;
    }
  }

  lemma NextPart(stmts: seq<Stmt>, i: nat)
    requires i < |stmts|
    ensures stmts[..i + 1] == stmts[..i] + [stmts[i]]
    ensures CodeOf(stmts[..i]) + CodeFor(stmts[i].x) + 4 == CodeOf(stmts[..i + 1]) <= CodeOf(stmts)
    ensures ConstantsOf(stmts[..i]) + ConstantsFor(stmts[i].x) + 1 == ConstantsOf(stmts[..i + 1]) <= ConstantsOf(stmts)
  {
    hide CodeFor, ConstantsFor;
    assert stmts[..i + 1][..i] == stmts[..i];
    PartOf(stmts, i + 1);
  }

  /** The first assignments of a body. */
  method CompileStmts(fs: FuncState, n: nat, stmts: seq<Stmt>, ghost result: Expr) returns (r: Status)
    requires StmtsOk(stmts, n) && fs.nactvar == n && fs.maxstacksize < MAXREGS && Progress(fs.View(), fs.cmp, n, []) && fs.code == [] && fs.k == []
    modifies fs
    ensures fs.maxstacksize < MAXREGS
    ensures |fs.code| <= CodeOf(stmts) && |fs.k| <= ConstantsOf(stmts)
    ensures Limit(r, |fs.code|, |fs.k|, 0) || (r.TooManyRegisters? && !RegistersFit(n, stmts, result))
    ensures r.Ok? ==> Progress(fs.View(), fs.cmp, n, stmts)
  {
    hide Progress, Compiled, Tied, Inv, UsesLocals, CodeOf, ConstantsOf, CodeFor, ConstantsFor, Registers;
    CodeOfNone();
    var i := 0;
    assert stmts[..0] == [];
    while i < |stmts|
      invariant 0 <= i <= |stmts| && fs.maxstacksize < MAXREGS && Progress(fs.View(), fs.cmp, n, stmts[..i])
      invariant |fs.code| <= CodeOf(stmts[..i]) && |fs.k| <= ConstantsOf(stmts[..i])
    {
      NextPart(stmts, i);
      :- CompileStmt(fs, n, stmts[..i], stmts[i]);
      i := i + 1;
    }
    assert stmts[..i] == stmts;
    return Ok;
  }

  lemma CodeOfNone()
    ensures CodeOf([]) == 0 && ConstantsOf([]) == 0
  {
  }

  /** One assignment to a local variable. */
  method CompileStmt(fs: FuncState, n: nat, ghost before: seq<Stmt>, st: Stmt) returns (r: Status)
    requires st.r < n && UsesLocals(st.x, n) && fs.nactvar == n && fs.maxstacksize < MAXREGS && Progress(fs.View(), fs.cmp, n, before)
    modifies fs
    ensures fs.maxstacksize < MAXREGS
    ensures |fs.code| <= |old(fs.code)| + CodeFor(st.x) + 4 && |fs.k| <= |old(fs.k)| + ConstantsFor(st.x) + 1
    ensures Limit(r, |fs.code|, |fs.k|, n + Registers(st.x) - 1)
    ensures r.Ok? ==> Progress(fs.View(), fs.cmp, n, before + [st])
  {
    hide Progress, Compiled, Tied, Inv, UsesLocals, CodeFor, ConstantsFor, Registers;
    ghost var s0 := fs.View();
    ProgressParts(s0, fs.cmp, n, before);
    var e :- fs.CompileExpr(st.x);
    :- fs.StoreLocal(st.r, e, s0, st.x);
    ProgressStep(s0, fs.View(), fs.cmp, n, before, st);
    return Ok;
  }

  /** The result, and the instruction that returns it. */
  method CompileResult(fs: FuncState, n: nat, ghost stmts: seq<Stmt>, result: Expr) returns (r: Status)
    requires UsesLocals(result, n) && fs.nactvar == n && fs.maxstacksize < MAXREGS && Progress(fs.View(), fs.cmp, n, stmts)
    modifies fs
    ensures |fs.code| <= |old(fs.code)| + CodeFor(result) + 5 && |fs.k| <= |old(fs.k)| + ConstantsFor(result) + 1
    ensures Limit(r, |fs.code|, |fs.k|, n + Registers(result) - 1)
    ensures r.Ok? ==> forall R0: Regs :: Machine(fs.cmp, fs.k, fs.code, 0, R0) == Returned(Eval(fs.cmp, result, Interp(fs.cmp, stmts, R0)))
  {
    hide Progress, Compiled, Tied, Inv, Listed, UsesLocals, CodeFor, ConstantsFor, Registers, Machine, Eval, Interp;
    ghost var s := fs.View();
    ProgressParts(s, fs.cmp, n, stmts);
    var e :- fs.CompileExpr(result);
    e :- fs.Exp2AnyReg(e, s, result);
    ghost var s1 := fs.View();
    CompiledListed(s, s1, e, result, fs.cmp, n);
    :- fs.Ret(e.k.r);
    forall R0: Regs
      ensures Machine(fs.cmp, fs.k, fs.code, 0, R0) == Returned(Eval(fs.cmp, result, Interp(fs.cmp, stmts, R0)))
    {
      ReturnsValue(s, fs.cmp, n, stmts, s1, result, e.k.r, R0);
    }
    return Ok;
  }

  /** Compiles a function body; the machine, run on the code, returns what the body means. A failure shows that
      the code, its constants or its registers have reached the limit reported; a body below these limits compiles. */
  method CompileBody(n: nat, stmts: seq<Stmt>, result: Expr, ghost cmp: Compare) returns (r: Status, code: seq<Instr>, k: seq<Val>)
    requires n <= 200 && StmtsOk(stmts, n) && UsesLocals(result, n)
    ensures r.Ok? ==> forall R0: Regs :: Machine(cmp, k, code, 0, R0) == Returned(Eval(cmp, result, Interp(cmp, stmts, R0)))
    ensures r.Ok? ==> forall R0: Regs :: Returns(cmp, result, Interp(cmp, stmts, R0), Machine(cmp, k, code, 0, R0))
    ensures Limit(r, |code|, |k|, 0) || (r.TooManyRegisters? && !RegistersFit(n, stmts, result))
    ensures Moderate(n, stmts, result) ==> r.Ok?
    ensures (r.TooLong? ==> |code| >= 131071) && (r.TooManyConstants? ==> |k| >= 262144)
  {
    hide Progress, Inv, UsesLocals, CodeOf, ConstantsOf, CodeFor, ConstantsFor, Registers, Machine, Eval, Interp, Returns;
    var fs := new FuncState(n, cmp);
    StartProgress(fs.View(), cmp, n);
    r := CompileStmts(fs, n, stmts, result);
    if r.Ok? {
      r := CompileResult(fs, n, stmts, result);
    }
    forall R0: Regs
      ensures Returns(cmp, result, Interp(cmp, stmts, R0), Returned(Eval(cmp, result, Interp(cmp, stmts, R0))))
    {
      EvalReturns(cmp, result, Interp(cmp, stmts, R0));
    }
    return r, fs.code, fs.k;
  }

  lemma StartProgress(s: FS, cmp: Compare, n: nat)
    requires Inv(s, cmp, n) && s.code == [] && s.freereg == n
    ensures Progress(s, cmp, n, [])
  {
    forall R0: Regs
      ensures ProgressAt(s, cmp, n, [], R0)
    {
    }
  }

  lemma ProgressParts(s: FS, cmp: Compare, n: nat, stmts: seq<Stmt>)
    requires Progress(s, cmp, n, stmts)
    ensures Inv(s, cmp, n) && s.freereg == n && n < MAXREGS
  {
    hide Inv;
    InvParts(s, cmp, n);
  }

  lemma CompiledListed(s0: FS, s: FS, e: Exp, x: Expr, cmp: Compare, n: nat)
    requires Compiled(s0, s, e, x, cmp, n)
    ensures Listed(s.code, s.jpc)
  {
    hide Compiled, Inv;
    ReadyRegs(s0, s, e, x, cmp, n);
    InvParts(s, cmp, n);
  }
}
