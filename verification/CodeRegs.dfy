/** Registers, labels and simple expressions. */
module CodeRegs {
  import opened Opcodes
  import opened CodeExec
  import opened CodeSem
  import opened CodeJumps
  import opened CodeLogic
  import opened CodeHome
  import opened CodeLists
  import opened CodeState
  import opened CodeMoves
  import opened CodeEdits
  import opened CodeGlue
  import opened CodeTies
  import opened CodeConds
  import opened CodeOps

  lemma FreeInv(s: FS, v: nat, cmp: Compare, n: nat)
    requires Inv(s, cmp, n) && n <= v < MAXREGS
    ensures Inv(s.(freereg := v), cmp, n) && PendingSet(s.(freereg := v)) == PendingSet(s) && Abs(s.(freereg := v), cmp) == Abs(s, cmp)
  {
    var u := s.(freereg := v);
    assert forall q :: 0 <= q < |s.code| && s.code[q].JMP? && JumpOk(s, q) ==> JumpOk(u, q);
    hide WF, Here;
  }

  lemma FreeReady(s0: FS, s: FS, e: Exp, x: Expr, fr: nat, v: nat, cmp: Compare, n: nat)
    requires Ready(s0, s, e, x, fr, cmp, n) && n <= v < MAXREGS
    ensures Ready(s0, s.(freereg := v), e, x, fr, cmp, n)
  {
    hide Inv, Sem, SameJumps, PendingSet, WF, ShapeOk;
    FreeInv(s, v, cmp, n);
  }

  lemma LabelTied(s0: FS, s: FS, t: int, f: int, x: Expr, fr: nat, fin: Final, cmp: Compare, n: nat)
    requires Tied(s0, s, t, f, x, fr, fin, cmp, n)
    ensures Tied(s0, s.(lasttarget := |s.code|), t, f, x, fr, fin, cmp, n)
  {
    hide Inv, Sem, SameJumps, PendingSet, WF;
    LabelInv(s, cmp, n);
  }

  /** A value in a temporary register. */
  lemma TiedReady(s0: FS, s: FS, t: int, f: int, x: Expr, fr: nat, reg: nat, cmp: Compare, n: nat)
    requires Tied(s0, s, t, f, x, fr, InReg(reg), cmp, n) && reg >= fr
    ensures Ready(s0, s, Exp(VNONRELOC(reg), t, f), x, fr, cmp, n)
  {
    hide Inv, Sem, SameJumps, PendingSet, WF, Framed, Elems;
    var T, F := Elems(s.code, t), Elems(s.code, f);
    InRegValue(Abs(s0, cmp), Abs(s, cmp), T, F, x, fr, reg);
    assert T + F + {} == T + F;
  }

  /** `hasjumps` compares the lists; they are disjoint. */
  lemma NoJumps(s: FS, t: int, f: int)
    requires Lists(s, t, f) && t == f
    ensures t == NO_JUMP && f == NO_JUMP && Elems(s.code, t) == {}
  {
    NoElems(s.code);
    ElemsIn(s.code, t);
  }

  /** A comparison joins the true list; control falls through if it does not hold. */
  lemma JmpStep(s0: FS, s: FS, e: Exp, code': seq<Instr>, l: int, x: Expr, fr: nat, cmp: Compare, n: nat)
    requires Ready(s0, s, e, x, fr, cmp, n) && e.k.VJMP? && Joined(s.code, code', e.t, e.k.pc, l)
    ensures Tied(s0, s.(code := code'), l, e.f, x, fr, Known(false), cmp, n)
  {
    hide Ready, Loose, Tied, Joined;
    LooseCompare(s0, s, e, true, x, fr, cmp, n);
    JoinStep(s0, s, code', e.t, e.f, e.k.pc, l, true, x, fr, Known(false), cmp, n);
  }

  // ---------- simple expressions ----------

  /** The description of a simple expression; `i` is the index of a string. */
  function Simple(x: Expr, i: nat): Kind
    requires x.Local? || x.NilE? || x.TrueE? || x.FalseE? || x.Num? || x.Str?
  {
    match x
    case Local(r) => VLOCAL(r)
    case NilE => VNIL
    case TrueE => VTRUE
    case FalseE => VFALSE
    case Num(v) => VNUM(v)
    case Str(_) => VK(i)
  }

  /** Nothing has been emitted yet. */
  lemma SimpleReady(s0: FS, s: FS, x: Expr, i: nat, cmp: Compare, n: nat)
    requires Inv(s0, cmp, n) && s == s0.(k := s.k) && s0.k <= s.k && |s.k| <= MAXARG_BX + 1 && UsesLocals(x, n)
    requires x.Local? || x.NilE? || x.TrueE? || x.FalseE? || x.Num? || (x.Str? && i < |s.k| && s.k[i] == StrVal(x.s))
    ensures Compiled(s0, s, Exp(Simple(x, i), NO_JUMP, NO_JUMP), x, cmp, n)
  {
    var k := Simple(x, i);
    MoreKInv(s0, s.k, cmp, n);
    NoElems(s.code);
    SimpleSem(Abs(s0, cmp), Abs(s, cmp), x, i, s0.freereg);
    SimpleFrame(s0, s);
    hide Inv, Sem, WF, SameJumps;
  }

  lemma SimpleFrame(s0: FS, s: FS)
    requires s == s0.(k := s.k) && s0.k <= s.k
    ensures Framed(s0, s, {})
  {
  }

  lemma SimpleSem(a: Code, c: Code, x: Expr, i: nat, fr: nat)
    requires WF(a) && c == a.(k := c.k) && a.k <= c.k
    requires x.Local? || x.NilE? || x.TrueE? || x.FalseE? || x.Num? || (x.Str? && i < |c.k| && c.k[i] == StrVal(x.s))
    ensures Sem(a, c, {}, {}, x, fr, Value(Simple(x, i)))
  {
    var k := Simple(x, i);
    forall R0: Regs
      ensures SemAt(a, c, {}, {}, x, fr, Value(k), R0)
    {
      ExecSame(a, c, 0, |a.ops|, R0);
    }
    hide WF, Exec;
  }

  // ---------- operands ----------

  /** An expression without jumps whose value is a constant or in a register. */
  lemma OperandReady(s0: FS, s: FS, e: Exp, x: Expr, fr: nat, cmp: Compare, n: nat)
    requires Ready(s0, s, e, x, fr, cmp, n) && Operand(e.k) && e.t == NO_JUMP && e.f == NO_JUMP
    ensures ReadyOp(s0, s, e.k, x, fr, cmp, n)
  {
    hide Inv, Sem, WF, SameJumps, PendingSet;
    NoElems(s.code);
    var none: set<nat> := {};
    assert none + none + none == none;
  }

  /** Nil and the booleans become constants. */
  lemma ConstOperand(s0: FS, s: FS, e: Exp, x: Expr, fr: nat, i: nat, v: Val, cmp: Compare, n: nat)
    requires Ready(s0, s, e, x, fr, cmp, n) && e.t == NO_JUMP && e.f == NO_JUMP && i < |s.k| && s.k[i] == v
    requires (e.k == VNIL && v == Nil) || (e.k == VTRUE && v == Bool(true)) || (e.k == VFALSE && v == Bool(false))
    ensures ReadyOp(s0, s, VK(i), x, fr, cmp, n)
  {
    hide Inv, Sem, WF, SameJumps, PendingSet;
    NoElems(s.code);
    var none: set<nat> := {};
    assert none + none + none == none;
    SameValueSem(Abs(s0, cmp), Abs(s, cmp), {}, {}, x, fr, e.k, VK(i));
  }
}
