/** Edits of instructions already emitted, and new constants. */
module CodeEdits {
  import opened Opcodes
  import opened CodeExec
  import opened CodeSem
  import opened CodeJumps
  import opened CodeLogic
  import opened CodeHome
  import opened CodeLists
  import opened CodeState
  import opened CodeMoves

  lemma EmitInv(s: FS, more: seq<Instr>, cmp: Compare, n: nat)
    requires Inv(s, cmp, n) && NewOk(more) && MoreOk(Abs(s, cmp), EraseAll(more))
    ensures Inv(Emit(s, more), cmp, n) && Emitted(Abs(s, cmp), Abs(Emit(s, more), cmp), EraseAll(more))
    ensures SameJumps(s.code, Emit(s, more).code, PendingSet(s))
    ensures PendingSet(Emit(s, more)) == PendingSet(s) + (set i | 0 <= i < |more| && more[i].JMP? :: |s.code| + i)
  {
    hide WF, JumpsOk, PendingSet, SameJumps, MoreOk, NewOk, Emitted;
    EmitEmitted(s, more, cmp, n);
    EmittedWF(Abs(s, cmp), Abs(Emit(s, more), cmp), EraseAll(more));
    WithoutTargets(Abs(s, cmp), {});
    EmitJumps(s, more, cmp, n);
    EmitKeeps(s, more);
    hide Emit;
    forall i | 0 <= i < |more| && more[i].JMP?
      ensures |s.code| + i !in s.D
    {
      assert |s.code| + i !in Abs(s, cmp).D;
    }
    assert (set i | 0 <= i < |more| && more[i].JMP? && |s.code| + i !in s.D :: |s.code| + i) == (set i | 0 <= i < |more| && more[i].JMP? :: |s.code| + i);
  }

  // ---------- edits ----------

  /** Jumps stay, and a test that still carries a value is unchanged. */
  ghost predicate Edited(code: seq<Instr>, code': seq<Instr>) {
    && |code'| == |code|
    && forall p :: 0 <= p < |code| ==>
      (code[p].JMP? || code'[p].JMP? || code'[p].TESTSET? ==> code'[p] == code[p])
  }

  lemma EditedInv(s: FS, code': seq<Instr>, cmp: Compare, n: nat)
    requires Inv(s, cmp, n) && Edited(s.code, code') && WF(Abs(s.(code := code'), cmp))
    ensures Inv(s.(code := code'), cmp, n) && PendingSet(s.(code := code')) == PendingSet(s)
  {
    var u := s.(code := code');
    ElemsIn(s.code, s.jpc);
    assert forall q :: 0 <= q < |code'| && (code'[q].JMP? || s.code[q].JMP?) ==> code'[q] == s.code[q];
    ElemsSame(s.code, code', s.jpc);
    forall q | 0 <= q < |u.code| && u.code[q].JMP?
      ensures JumpOk(u, q)
    {
      assert JumpOk(s, q);
    }
    hide WF, Here;
  }

  /** An edit of one instruction that controls no jump of `L`. */
  lemma EditedJumps(code: seq<Instr>, p: nat, i: Instr, L: set<nat>)
    requires p < |code| && !code[p].JMP? && p + 1 !in L && forall q :: q in L ==> q < |code| && code[q].JMP?
    ensures SameJumps(code, code[p := i], L)
  {
  }

  lemma EraseEdit(s: FS, cmp: Compare, p: nat, i: Instr)
    requires p < |s.code| && !i.JMP?
    ensures Abs(s.(code := s.code[p := i]), cmp) == Abs(s, cmp).(ops := Abs(s, cmp).ops[p := i])
  {
    assert EraseAll(s.code[p := i]) == EraseAll(s.code)[p := i];
  }

  function InvertFS(s: FS, pc: nat): FS
    requires 0 < pc <= |s.code| && s.code[pc - 1].COMPARE?
  {
    var i := s.code[pc - 1];
    s.(code := s.code[pc - 1 := COMPARE(i.rel, !i.want, i.B, i.C)])
  }

  lemma InvertInv(s: FS, pc: nat, cmp: Compare, n: nat)
    requires Inv(s, cmp, n) && ShapeOk(Abs(s, cmp), VJMP(pc))
    ensures s.code[pc - 1].COMPARE? && Inv(InvertFS(s, pc), cmp, n) && Abs(InvertFS(s, pc), cmp) == Inverted(Abs(s, cmp), pc)
    ensures PendingSet(InvertFS(s, pc)) == PendingSet(s) && SameJumps(s.code, InvertFS(s, pc).code, PendingSet(s) - {pc})
  {
    hide WF, JumpsOk;
    var i := s.code[pc - 1];
    InvertedWF(Abs(s, cmp), pc);
    EraseEdit(s, cmp, pc - 1, COMPARE(i.rel, !i.want, i.B, i.C));
    EditedInv(s, InvertFS(s, pc).code, cmp, n);
    EditedJumps(s.code, pc - 1, COMPARE(i.rel, !i.want, i.B, i.C), PendingSet(s) - {pc});
  }

  function RelocFS(s: FS, pc: nat, reg: nat): FS
    requires pc < |s.code| && s.code[pc].NOT?
  {
    s.(code := s.code[pc := NOT(reg, s.code[pc].B)])
  }

  lemma RelocInv(s: FS, pc: nat, reg: nat, cmp: Compare, n: nat)
    requires Inv(s, cmp, n) && ShapeOk(Abs(s, cmp), VRELOCABLE(pc))
    ensures s.code[pc].NOT? && Inv(RelocFS(s, pc, reg), cmp, n)
    ensures var c := Abs(s, cmp); Abs(RelocFS(s, pc, reg), cmp) == c.(ops := c.ops[pc := NOT(reg, c.ops[pc].B)])
    ensures PendingSet(RelocFS(s, pc, reg)) == PendingSet(s) && SameJumps(s.code, RelocFS(s, pc, reg).code, PendingSet(s))
  {
    hide WF, JumpsOk;
    var c, i := Abs(s, cmp), NOT(reg, s.code[pc].B);
    RelocWF(c, c.(ops := c.ops[pc := i]), pc, reg);
    EraseEdit(s, cmp, pc, i);
    EditedInv(s, RelocFS(s, pc, reg).code, cmp, n);
    EditedJumps(s.code, pc, i, PendingSet(s));
  }

  /** `luaK_nil` extends the `LOADNIL` before it. */
  function MergeFS(s: FS, reg: nat): FS
    requires |s.code| > 0 && s.code[|s.code| - 1].LOADNIL?
  {
    var i := s.code[|s.code| - 1];
    var from, last := if reg < i.A then reg else i.A, if reg > i.A + i.n then reg else i.A + i.n;
    s.(code := s.code[|s.code| - 1 := LOADNIL(from, last - from)])
  }

  lemma MergeInv(s: FS, reg: nat, cmp: Compare, n: nat)
    requires Inv(s, cmp, n) && |s.code| > s.lasttarget && s.code[|s.code| - 1].LOADNIL?
    requires var i := s.code[|s.code| - 1]; i.A <= reg + 1 && reg <= i.A + i.n + 1
    ensures Inv(MergeFS(s, reg), cmp, n) && Merged(Abs(s, cmp), Abs(MergeFS(s, reg), cmp), reg)
    ensures PendingSet(MergeFS(s, reg)) == PendingSet(s) && SameJumps(s.code, MergeFS(s, reg).code, PendingSet(s))
  {
    hide WF, JumpsOk;
    var u, p := MergeFS(s, reg), |s.code| - 1;
    EraseEdit(s, cmp, p, u.code[p]);
    MergedWF(Abs(s, cmp), Abs(u, cmp), reg);
    EditedInv(s, u.code, cmp, n);
    EditedJumps(s.code, p, u.code[p], PendingSet(s));
  }

  /** `removevalues`. */
  function EmptyFS(s: FS, L: set<nat>): FS {
    s.(code := EmptyCode(s.code, L))
  }

  lemma EmptyInv(s: FS, L: set<nat>, cmp: Compare, n: nat)
    requires Inv(s, cmp, n) && L <= PendingSet(s)
    ensures Inv(EmptyFS(s, L), cmp, n) && Emptied(Abs(s, cmp), Abs(EmptyFS(s, L), cmp), L)
    ensures PendingSet(EmptyFS(s, L)) == PendingSet(s) && SameJumps(s.code, EmptyFS(s, L).code, PendingSet(s) - L)
  {
    var u := EmptyFS(s, L);
    assert forall p :: 0 <= p < |s.code| ==> u.code[p] == EmptyAt(s.code, L, p);
    forall p | 0 <= p < |s.code|
      ensures EmptiedAt(Abs(s, cmp), Abs(u, cmp), L, p)
    {
      assert u.code[p] == EmptyAt(s.code, L, p);
      if p + 1 in L && s.code[p].TESTSET? {
        assert p + 1 in PendingSet(s);
        assert JumpOk(s, p + 1);
      }
    }
    EmptiedWF(Abs(s, cmp), Abs(u, cmp), L);
    hide WF, JumpsOk;
    EditedInv(s, u.code, cmp, n);
  }

  lemma EmptyList(code: seq<Instr>, L: set<nat>, l: int)
    requires Listed(code, l)
    ensures Listed(EmptyCode(code, L), l) && Elems(EmptyCode(code, L), l) == Elems(code, l)
  {
    ElemsIn(code, l);
    assert forall p :: 0 <= p < |code| ==> EmptyCode(code, L)[p] == EmptyAt(code, L, p);
    ElemsSame(code, EmptyCode(code, L), l);
  }

  /** The `NOT` at the end is replaced by a test and a jump. */
  function NotFS(s: FS, pc: nat, b: bool): FS
    requires pc < |s.code| && s.code[pc].NOT?
  {
    s.(code := s.code[..pc] + [TEST(s.code[pc].B, !b), JMP(NO_JUMP)])
  }

  lemma NotInv(s: FS, pc: nat, b: bool, cmp: Compare, n: nat)
    requires Inv(s, cmp, n) && ShapeOk(Abs(s, cmp), VRELOCABLE(pc)) && s.jpc == NO_JUMP && s.lasttarget <= pc
    ensures s.code[pc].NOT? && Inv(NotFS(s, pc, b), cmp, n) && Abs(NotFS(s, pc, b), cmp) == NotRemoved(Abs(s, cmp), pc, b)
    ensures PendingSet(NotFS(s, pc, b)) == PendingSet(s) + {pc + 1} && SameJumps(s.code, NotFS(s, pc, b).code, PendingSet(s))
  {
    hide WF;
    var u := NotFS(s, pc, b);
    assert Abs(u, cmp).ops == NotRemoved(Abs(s, cmp), pc, b).ops;
    NotRemovedWF(Abs(s, cmp), pc, b);
    NoElems(s.code);
    NoElems(u.code);
    assert forall q :: 0 <= q < pc ==> u.code[q] == s.code[q];
    forall q | 0 <= q < |u.code| && u.code[q].JMP?
      ensures JumpOk(u, q)
    {
      if q < pc {
        assert JumpOk(s, q);
      }
    }
    NotPending(s, pc, b);
  }

  lemma NotPending(s: FS, pc: nat, b: bool)
    requires pc + 1 == |s.code| && s.code[pc].NOT? && pc + 1 !in s.D
    ensures PendingSet(NotFS(s, pc, b)) == PendingSet(s) + {pc + 1} && SameJumps(s.code, NotFS(s, pc, b).code, PendingSet(s))
  {
    var u := NotFS(s, pc, b);
    assert forall q :: 0 <= q < pc ==> u.code[q] == s.code[q];
  }

  // ---------- constants ----------

  /** More constants change nothing. */
  lemma MoreKInv(s: FS, k: seq<Val>, cmp: Compare, n: nat)
    requires Inv(s, cmp, n) && s.k <= k && |k| <= MAXARG_BX + 1
    ensures Inv(s.(k := k), cmp, n) && Abs(s.(k := k), cmp) == Abs(s, cmp).(k := k)
    ensures PendingSet(s.(k := k)) == PendingSet(s)
  {
    var u := s.(k := k);
    var c, d := Abs(s, cmp), Abs(u, cmp);
    forall p | 0 <= p < |d.ops|
      ensures OpOk(d, p)
    {
      assert OpOk(c, p);
    }
    forall q | q in d.D
      ensures TargetOk(d, q)
    {
      assert TargetOk(c, q);
    }
    forall q | 0 <= q < |u.code| && u.code[q].JMP?
      ensures JumpOk(u, q)
    {
      assert JumpOk(s, q);
    }
    hide Here;
  }

  lemma MoreKShape(c: Code, k: seq<Val>, e: Kind)
    requires c.k <= k && ShapeOk(c, e) && WF(c)
    ensures ShapeOk(c.(k := k), e) && Base(c.(k := k), e) == Base(c, e)
    ensures forall R: Regs :: ValOf(c.(k := k), e, R) == ValOf(c, e, R)
  {
    if e.VJMP? {
      assert OpOk(c, e.pc - 1);
    }
    hide WF;
  }

  lemma MoreKSem(a: Code, c: Code, k: seq<Val>, T: set<nat>, F: set<nat>, x: Expr, fr: nat, e: Kind)
    requires Sem(a, c, T, F, x, fr, Value(e)) && WF(c) && c.k <= k && ShapeOk(c, e)
    ensures Sem(a, c.(k := k), T, F, x, fr, Value(e))
  {
    hide WF, Eval, ShapeOk, Exec;
    var d := c.(k := k);
    MoreKShape(c, k, e);
    BaseIn(c, e);
    forall R0: Regs
      ensures SemAt(a, d, T, F, x, fr, Value(e), R0)
    {
      assert SemAt(a, c, T, F, x, fr, Value(e), R0);
      ExecSame(c, d, 0, Base(c, e), R0);
    }
  }

  lemma BaseIn(c: Code, e: Kind)
    requires ShapeOk(c, e) && WF(c)
    ensures Base(c, e) <= |c.ops| && forall p :: 0 <= p < Base(c, e) ==> OpOk(c, p)
  {
  }
}
