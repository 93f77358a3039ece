/** From one step to the next in conditions, negations and comparisons. */
module CodeConds {
  import opened Opcodes
  import opened CodeExec
  import opened CodeSem
  import opened CodeJumps
  import opened CodeLogic
  import opened CodeHome
  import opened CodeLists
  import opened CodeState
  import opened CodeMoves
  import opened CodeEdits
  import opened CodeGlue
  import opened CodeTies

  /** As `Tied`, but the last jump `j`, taken if the value counts as `b`, is in no list yet. */
  ghost predicate Loose(s0: FS, s: FS, t: int, f: int, j: nat, b: bool, x: Expr, fr: nat, fin: Final, cmp: Compare, n: nat) {
    && Inv(s, cmp, n) && Lists(s, t, f) && LooseJump(s, t, f, j)
    && Framed(s0, s, Elems(s.code, t) + Elems(s.code, f) + {j})
    && Sem(Abs(s0, cmp), Abs(s, cmp), WithJump(Elems(s.code, t), b, j), WithJump(Elems(s.code, f), !b, j), x, fr, fin)
  }

  ghost predicate LooseJump(s: FS, t: int, f: int, j: nat) {
    j in PendingSet(s) && j !in Elems(s.code, t) && j !in Elems(s.code, f) && s.code[j].sBx == NO_JUMP
  }

  lemma SingleList(code: seq<Instr>, j: nat)
    requires j < |code| && code[j].JMP? && code[j].sBx == NO_JUMP
    ensures Listed(code, j) && Elems(code, j) == {j}
  {
    assert IsList(code, NO_JUMP, []);
    assert IsList(code, j, [j]);
    ElemsAre(code, j, [j]);
  }

  /** `l` is list `m` joined by list `l2`. */
  ghost predicate Joined(code: seq<Instr>, code': seq<Instr>, m: int, l2: int, l: int) {
    && Relinked(code, code', Elems(code, m)) && Listed(code', l)
    && Elems(code', l) == Elems(code, m) + Elems(code, l2)
  }

  /** The jump joins the list of jumps taken when the value counts as `b`. */
  lemma JoinStep(s0: FS, s: FS, code': seq<Instr>, t: int, f: int, j: nat, l: int, b: bool, x: Expr, fr: nat, fin: Final, cmp: Compare, n: nat)
    requires Loose(s0, s, t, f, j, b, x, fr, fin, cmp, n) && Joined(s.code, code', if b then t else f, j, l)
    ensures Tied(s0, s.(code := code'), if b then l else t, if b then f else l, x, fr, fin, cmp, n)
  {
    hide Loose, LooseJump, Inv, Sem, WF, SameJumps, Elems, Here, PendingSet, Framed, Relinked;
    var u := s.(code := code');
    var L, M, m := Elems(s.code, if b then t else f), Elems(s.code, if b then f else t), if b then f else t;
    LooseParts(s0, s, t, f, j, b, x, fr, fin, cmp, n);
    LinkInv(s, code', L, cmp, n);
    RelinkedJumps(s.code, code', L, PendingSet(s) - L);
    JoinFrame(s0, s, u, L, M + {j}, m);
    assert L + (M + {j}) == if b then (L + {j}) + M else M + (L + {j});
  }

  lemma LooseParts(s0: FS, s: FS, t: int, f: int, j: nat, b: bool, x: Expr, fr: nat, fin: Final, cmp: Compare, n: nat)
    requires Loose(s0, s, t, f, j, b, x, fr, fin, cmp, n)
    ensures var T, F := Elems(s.code, t), Elems(s.code, f);
      var L, M := if b then T else F, if b then F else T;
      && Inv(s, cmp, n) && Listed(s.code, t) && Listed(s.code, f) && Elems(s.code, j) == {j}
      && L <= PendingSet(s) && M <= PendingSet(s) - L && j in PendingSet(s) && j !in L && j !in M
      && Framed(s0, s, L + (M + {j})) && (forall q :: q in PendingSet(s) - L ==> q < |s.code|)
      && Sem(Abs(s0, cmp), Abs(s, cmp), if b then T + {j} else T, if b then F else F + {j}, x, fr, fin)
  {
    hide Inv, Sem, WF, Elems, Framed;
    var T, F := Elems(s.code, t), Elems(s.code, f);
    SingleList(s.code, j);
    assert (if b then T else F) + ((if b then F else T) + {j}) == T + F + {j};
  }

  lemma JoinFrame(s0: FS, s: FS, u: FS, L: set<nat>, M: set<nat>, m: int)
    requires Framed(s0, s, L + M) && L <= PendingSet(s) && |u.code| == |s.code| && u.k == s.k
    requires PendingSet(u) == PendingSet(s) && SameJumps(s.code, u.code, PendingSet(s) - L)
    requires Listed(s.code, m) && Elems(s.code, m) <= PendingSet(s) - L
    ensures Framed(s0, u, L + M) && Listed(u.code, m) && Elems(u.code, m) == Elems(s.code, m)
  {
    ListKept(s.code, u.code, m, PendingSet(s) - L);
    assert PendingSet(s0) <= PendingSet(s) - L by {
      assert forall q :: q in PendingSet(s0) ==> q < |s0.code|;
    }
    assert SameJumps(s.code, u.code, PendingSet(s0));
    SameJumpsTrans(s0.code, s.code, u.code, PendingSet(s0));
    hide SameJumps, Elems;
  }

  // ---------- the jump ----------

  /** A comparison, as it is or inverted. */
  lemma LooseCompare(s0: FS, s: FS, e: Exp, b: bool, x: Expr, fr: nat, cmp: Compare, n: nat)
    requires Ready(s0, s, e, x, fr, cmp, n) && e.k.VJMP?
    ensures 0 < e.k.pc <= |s.code| && s.code[e.k.pc - 1].COMPARE?
    ensures var u := if b then s else InvertFS(s, e.k.pc);
      Loose(s0, u, e.t, e.f, e.k.pc, b, x, fr, Known(!b), cmp, n)
  {
    hide Shell, Inv, Lists, Framed, Sem, WF, PendingSet, SameJumps, KindOk, Cut, Elems, SamePrefix, InvertFS, Inverted, JumpsIf, ShapeOk, Base;
    var pc := e.k.pc;
    ReadyTies(s0, s, e, x, fr, cmp, n);
    CompareShape(s0, s, e, cmp, n);
    var u := if b then s else InvertFS(s, pc);
    if b {
      CompareState(s0, s, e, cmp, n);
    } else {
      InvertState(s0, s, e, cmp, n);
    }
    InvParts(s, cmp, n);
    CompareRuns(s, u, pc, b, cmp, n);
    BaseOf(Abs(s, cmp), pc);
    JumpSem(Abs(s0, cmp), Abs(s, cmp), Abs(u, cmp), Elems(s.code, e.t), Elems(s.code, e.f), x, fr, e.k, b);
  }

  lemma BaseOf(c: Code, pc: nat)
    requires pc > 0
    ensures Base(c, VJMP(pc)) == pc - 1
  {
  }

  lemma CompareShape(s0: FS, s: FS, e: Exp, cmp: Compare, n: nat)
    requires Shell(s0, s, e, cmp, n) && e.k.VJMP?
    ensures 0 < e.k.pc < |s.code| && s.code[e.k.pc - 1].COMPARE? && s.code[e.k.pc].JMP?
  {
  }

  lemma CompareRuns(s: FS, u: FS, pc: nat, b: bool, cmp: Compare, n: nat)
    requires Inv(s, cmp, n) && ShapeOk(Abs(s, cmp), VJMP(pc)) && 0 < pc <= |s.code| && s.code[pc - 1].COMPARE?
    requires u == if b then s else InvertFS(s, pc)
    ensures WF(Abs(u, cmp)) && JumpsIf(Abs(s, cmp), VJMP(pc), Abs(u, cmp), pc - 1, b)
    ensures SamePrefix(Abs(s, cmp), Abs(u, cmp), pc - 1)
  {
    hide WF, JumpsIf, Inv, Cut;
    InvParts(s, cmp, n);
    if b {
      CompareJumps(Abs(s, cmp), pc);
    } else {
      InvertInv(s, pc, cmp, n);
      InvertedJumps(Abs(s, cmp), pc);
      InvertedWF(Abs(s, cmp), pc);
      var base: nat := pc - 1;
      forall R0: Regs
        ensures Run(Abs(u, cmp), base, R0) == Run(Abs(s, cmp), base, R0)
      {
        InvertedPrefix(Abs(s, cmp), pc, R0);
      }
    }
  }

  lemma CompareState(s0: FS, s: FS, e: Exp, cmp: Compare, n: nat)
    requires Shell(s0, s, e, cmp, n) && e.k.VJMP?
    ensures LooseJump(s, e.t, e.f, e.k.pc)
    ensures Inv(s, cmp, n) && Lists(s, e.t, e.f) && Framed(s0, s, Elems(s.code, e.t) + Elems(s.code, e.f) + {e.k.pc})
    ensures SameControls(Abs(s, cmp), Abs(s, cmp), Elems(s.code, e.t)) && SameControls(Abs(s, cmp), Abs(s, cmp), Elems(s.code, e.f))
    ensures Elems(s.code, e.t) + Elems(s.code, e.f) <= PendingSet(s) - {e.k.pc}
  {
    hide WF, SameJumps;
    assert e.k.pc in Elems(s.code, e.t) + Elems(s.code, e.f) + Extra(e.k);
  }

  lemma InvertState(s0: FS, s: FS, e: Exp, cmp: Compare, n: nat)
    requires Shell(s0, s, e, cmp, n) && e.k.VJMP? && 0 < e.k.pc <= |s.code| && s.code[e.k.pc - 1].COMPARE?
    ensures var u := InvertFS(s, e.k.pc);
      && LooseJump(u, e.t, e.f, e.k.pc)
      && Inv(u, cmp, n) && Lists(u, e.t, e.f) && Framed(s0, u, Elems(u.code, e.t) + Elems(u.code, e.f) + {e.k.pc})
      && SameControls(Abs(s, cmp), Abs(u, cmp), Elems(s.code, e.t)) && SameControls(Abs(s, cmp), Abs(u, cmp), Elems(s.code, e.f))
      && Elems(u.code, e.t) == Elems(s.code, e.t) && Elems(u.code, e.f) == Elems(s.code, e.f)
  {
    var pc, T, F := e.k.pc, Elems(s.code, e.t), Elems(s.code, e.f);
    var u := InvertFS(s, pc);
    CompareState(s0, s, e, cmp, n);
    InvertInv(s, pc, cmp, n);
    hide WF, SameJumps, Elems, Shell, Inv;
    InvertFrame(s0, s, u, e.t, e.f, pc);
    LooseAfter(s, u, e.t, e.f, pc);
    HomeControls(s, u, PendingSet(s) - {pc}, cmp);
  }

  lemma LooseAfter(s: FS, u: FS, t: int, f: int, pc: nat)
    requires LooseJump(s, t, f, pc) && PendingSet(u) == PendingSet(s) && 0 < pc < |s.code| && s.code[pc].JMP? && s.code[pc - 1].COMPARE?
    requires u == InvertFS(s, pc) && Elems(u.code, t) == Elems(s.code, t) && Elems(u.code, f) == Elems(s.code, f)
    ensures LooseJump(u, t, f, pc)
  {
  }

  lemma InvertFrame(s0: FS, s: FS, u: FS, t: int, f: int, pc: nat)
    requires Framed(s0, s, Elems(s.code, t) + Elems(s.code, f) + {pc}) && Lists(s, t, f) && |u.code| == |s.code| && u.k == s.k
    requires PendingSet(u) == PendingSet(s) && SameJumps(s.code, u.code, PendingSet(s) - {pc})
    requires Elems(s.code, t) + Elems(s.code, f) <= PendingSet(s) - {pc}
    ensures Lists(u, t, f) && Elems(u.code, t) == Elems(s.code, t) && Elems(u.code, f) == Elems(s.code, f)
    ensures Framed(s0, u, Elems(s.code, t) + Elems(s.code, f) + {pc})
  {
    ListKept(s.code, u.code, t, PendingSet(s) - {pc});
    ListKept(s.code, u.code, f, PendingSet(s) - {pc});
    assert PendingSet(s0) <= PendingSet(s) - {pc} by {
      assert forall q :: q in PendingSet(s0) ==> q < |s0.code|;
    }
    assert SameJumps(s.code, u.code, PendingSet(s0));
    SameJumpsTrans(s0.code, s.code, u.code, PendingSet(s0));
    hide SameJumps, Elems;
  }

  // ---------- a test and a jump ----------

  /** A value in a register: `TESTSET`. */
  lemma LooseTest(s0: FS, s: FS, e: Exp, r: nat, b: bool, x: Expr, fr: nat, cmp: Compare, n: nat)
    requires Ready(s0, s, e, x, fr, cmp, n) && e.k == VNONRELOC(r)
    ensures Loose(s0, Emit(s, [TESTSET(NO_REG, r, b), JMP(NO_JUMP)]), e.t, e.f, |s.code| + 1, b, x, fr, Truth(!b), cmp, n)
  {
    hide Ready, Shell, Inv, Lists, Framed, Sem, WF, PendingSet, SameJumps, KindOk, Emit, Elems, LooseJump, SamePrefix, JumpsIf, Emitted, MoreOk;
    var u := Emit(s, [TESTSET(NO_REG, r, b), JMP(NO_JUMP)]);
    ReadyTies(s0, s, e, x, fr, cmp, n);
    TestState(s0, s, e, r, b, cmp, n);
    InvParts(s, cmp, n);
    TestSetJumps(Abs(s, cmp), Abs(u, cmp), r, b);
    JumpSem(Abs(s0, cmp), Abs(s, cmp), Abs(u, cmp), Elems(s.code, e.t), Elems(s.code, e.f), x, fr, e.k, b);
  }

  lemma TestState(s0: FS, s: FS, e: Exp, r: nat, b: bool, cmp: Compare, n: nat)
    requires Shell(s0, s, e, cmp, n) && e.k == VNONRELOC(r)
    ensures var u, T, F := Emit(s, [TESTSET(NO_REG, r, b), JMP(NO_JUMP)]), Elems(s.code, e.t), Elems(s.code, e.f);
      && Inv(u, cmp, n) && Lists(u, e.t, e.f) && LooseJump(u, e.t, e.f, |s.code| + 1)
      && Framed(s0, u, T + F + {|s.code| + 1})
      && Elems(u.code, e.t) == T && Elems(u.code, e.f) == F
      && Emitted(Abs(s, cmp), Abs(u, cmp), [TESTSET(NO_REG, r, b), JMP(0)])
      && SameControls(Abs(s, cmp), Abs(u, cmp), T) && SameControls(Abs(s, cmp), Abs(u, cmp), F)
      && |s.code| + 1 !in T && |s.code| + 1 !in F
  {
    hide WF, Emit, Elems, MoreOk, NewOk, SameJumps, Emitted, JumpsOk, Inv, PendingSet, Lists, Framed, SameControls, KindOk;
    var more, T, F := [TESTSET(NO_REG, r, b), JMP(NO_JUMP)], Elems(s.code, e.t), Elems(s.code, e.f);
    var u := Emit(s, more);
    TestMore(Abs(s, cmp), r, b);
    EmitInv(s, more, cmp, n);
    EmitLast(s, more);
    assert T + F + {} == T + F;
    NewJump(s0, s, u, e.t, e.f, |s.code| + 1, cmp);
  }

  lemma TestMore(c: Code, r: nat, b: bool)
    ensures var more := [TESTSET(NO_REG, r, b), JMP(NO_JUMP)];
      EraseAll(more) == [TESTSET(NO_REG, r, b), JMP(0)] && MoreOk(c, EraseAll(more)) && NewOk(more)
  {
    hide WF;
    var more := [TESTSET(NO_REG, r, b), JMP(NO_JUMP)];
    assert EraseAll(more) == [TESTSET(NO_REG, r, b), JMP(0)];
  }

  lemma EmitLast(s: FS, more: seq<Instr>)
    requires |more| == 2 && !more[0].JMP? && more[1].JMP?
    ensures var u := Emit(s, more);
      && u.k == s.k && |u.code| == |s.code| + 2 && u.code[|s.code| + 1] == more[1]
      && (set i | 0 <= i < |more| && more[i].JMP? :: |s.code| + i) == {|s.code| + 1}
  {
    assert more[1].JMP?;
  }

  /** New code ends with a pending jump `j`. */
  lemma NewJump(s0: FS, s: FS, u: FS, t: int, f: int, j: nat, cmp: Compare)
    requires Lists(s, t, f) && Framed(s0, s, Elems(s.code, t) + Elems(s.code, f)) && u.k == s.k
    requires PendingSet(u) == PendingSet(s) + {j} && SameJumps(s.code, u.code, PendingSet(s)) && j >= |s.code| && |u.code| >= |s.code|
    ensures Lists(u, t, f) && Elems(u.code, t) == Elems(s.code, t) && Elems(u.code, f) == Elems(s.code, f)
    ensures Framed(s0, u, Elems(s.code, t) + Elems(s.code, f) + {j})
    ensures j !in Elems(s.code, t) && j !in Elems(s.code, f)
    ensures SameControls(Abs(s, cmp), Abs(u, cmp), Elems(s.code, t)) && SameControls(Abs(s, cmp), Abs(u, cmp), Elems(s.code, f))
  {
    hide Elems, SameJumps;
    ListsIn(s0, s, t, f);
    Carry(s0, s, u, t, f, Elems(s.code, t) + Elems(s.code, f), Elems(s.code, t) + Elems(s.code, f) + {j});
    PendingControls(s, u, Elems(s.code, t), cmp);
    PendingControls(s, u, Elems(s.code, f), cmp);
  }

  lemma PendingControls(s: FS, u: FS, L: set<nat>, cmp: Compare)
    requires SameJumps(s.code, u.code, PendingSet(s)) && L <= PendingSet(s) && |u.code| >= |s.code|
    ensures SameControls(Abs(s, cmp), Abs(u, cmp), L)
  {
    forall j | j in L && 0 < j
      ensures j <= |s.code| && Abs(u, cmp).ops[j - 1] == Abs(s, cmp).ops[j - 1]
    {
      assert SameJump(s.code, u.code, j);
    }
  }

  /** A `NOT` at the end: it gives way to a test. */
  lemma LooseNot(s0: FS, s: FS, e: Exp, b: bool, x: Expr, fr: nat, cmp: Compare, n: nat)
    requires Ready(s0, s, e, x, fr, cmp, n) && e.k.VRELOCABLE?
    ensures e.k.pc + 1 == |s.code| && s.code[e.k.pc].NOT? && s.jpc == NO_JUMP
    ensures Loose(s0, NotFS(s, e.k.pc, b), e.t, e.f, e.k.pc + 1, b, x, fr, Truth(!b), cmp, n)
  {
    hide Ready, Shell, Inv, Lists, Framed, Sem, WF, PendingSet, SameJumps, KindOk, Elems, LooseJump, NotFS, NotRemoved, SamePrefix, JumpsIf, ShapeOk;
    var pc := e.k.pc;
    ReadyTies(s0, s, e, x, fr, cmp, n);
    NotShape(s, pc, |s0.code|, cmp, n);
    var u := NotFS(s, pc, b);
    NotState(s0, s, e, b, cmp, n);
    InvParts(s, cmp, n);
    NotJumps(Abs(s, cmp), pc, b);
    JumpSem(Abs(s0, cmp), Abs(s, cmp), Abs(u, cmp), Elems(s.code, e.t), Elems(s.code, e.f), x, fr, e.k, b);
  }

  lemma NotShape(s: FS, pc: nat, lo: nat, cmp: Compare, n: nat)
    requires KindOk(s, VRELOCABLE(pc), lo, cmp, n)
    ensures pc + 1 == |s.code| && s.code[pc].NOT? && s.jpc == NO_JUMP && s.lasttarget <= pc && lo <= pc
  {
  }

  lemma NotState(s0: FS, s: FS, e: Exp, b: bool, cmp: Compare, n: nat)
    requires Shell(s0, s, e, cmp, n) && e.k.VRELOCABLE? && e.k.pc + 1 == |s.code| && s.code[e.k.pc].NOT?
    ensures var u, T, F := NotFS(s, e.k.pc, b), Elems(s.code, e.t), Elems(s.code, e.f);
      && Inv(u, cmp, n) && Lists(u, e.t, e.f) && LooseJump(u, e.t, e.f, e.k.pc + 1)
      && Framed(s0, u, T + F + {e.k.pc + 1})
      && Elems(u.code, e.t) == T && Elems(u.code, e.f) == F
      && Abs(u, cmp) == NotRemoved(Abs(s, cmp), e.k.pc, b)
      && SameControls(Abs(s, cmp), Abs(u, cmp), T) && SameControls(Abs(s, cmp), Abs(u, cmp), F)
      && e.k.pc + 1 !in T && e.k.pc + 1 !in F
  {
    var pc, T, F := e.k.pc, Elems(s.code, e.t), Elems(s.code, e.f);
    var u := NotFS(s, pc, b);
    NotShape(s, pc, |s0.code|, cmp, n);
    NotInv(s, pc, b, cmp, n);
    assert u.code[pc + 1] == JMP(NO_JUMP);
    assert T + F + {} == T + F;
    NewJump(s0, s, u, e.t, e.f, pc + 1, cmp);
    hide WF, Elems, SameJumps, JumpsOk, NotFS, NotRemoved;
  }

  // ---------- conditions ----------

  predicate KnownTruth(k: Kind, b: bool) {
    if b then k == VTRUE || k.VK? || k.VNUM? else k == VNIL || k == VFALSE
  }

  /** A constant needs no jump. */
  lemma ConstStep(s0: FS, s: FS, e: Exp, b: bool, x: Expr, fr: nat, cmp: Compare, n: nat)
    requires Ready(s0, s, e, x, fr, cmp, n) && KnownTruth(e.k, b)
    ensures Tied(s0, s, e.t, e.f, x, fr, Truth(b), cmp, n)
  {
    hide Inv, Lists, Framed, Sem, Elems, Shell;
    ReadyTies(s0, s, e, x, fr, cmp, n);
    ConstSem(Abs(s0, cmp), Abs(s, cmp), Elems(s.code, e.t), Elems(s.code, e.f), x, fr, e.k, b);
  }

  lemma ConstSem(a: Code, c: Code, T: set<nat>, F: set<nat>, x: Expr, fr: nat, k: Kind, b: bool)
    requires Sem(a, c, T, F, x, fr, Value(k)) && KnownTruth(k, b) && (k.VK? ==> k.i < |c.k| && !Falsy(c.k[k.i]))
    ensures Sem(a, c, T, F, x, fr, Truth(b))
  {
    hide Eval, Run, ExitOk;
    forall R0: Regs
      ensures SemAt(a, c, T, F, x, fr, Truth(b), R0)
    {
      assert SemAt(a, c, T, F, x, fr, Value(k), R0);
    }
  }

  lemma KnownStepTruth(s0: FS, s: FS, t: int, f: int, x: Expr, fr: nat, b: bool, cmp: Compare, n: nat)
    requires Tied(s0, s, t, f, x, fr, Known(b), cmp, n)
    ensures Tied(s0, s, t, f, x, fr, Truth(b), cmp, n)
  {
    hide Inv, Lists, Framed, Sem, Elems;
    KnownSemTruth(Abs(s0, cmp), Abs(s, cmp), Elems(s.code, t), Elems(s.code, f), x, fr, b);
  }

  lemma KnownSemTruth(a: Code, c: Code, T: set<nat>, F: set<nat>, x: Expr, fr: nat, b: bool)
    requires Sem(a, c, T, F, x, fr, Known(b))
    ensures Sem(a, c, T, F, x, fr, Truth(b))
  {
    hide Eval, Run, ExitOk;
    forall R0: Regs
      ensures SemAt(a, c, T, F, x, fr, Truth(b), R0)
    {
      assert SemAt(a, c, T, F, x, fr, Known(b), R0);
    }
  }

  /** The other list goes on here, with control that falls through. */
  lemma HereStep(s0: FS, s: FS, u: FS, t: int, f: int, b: bool, x: Expr, fr: nat, cmp: Compare, n: nat)
    requires Tied(s0, s, t, f, x, fr, Truth(b), cmp, n) && MovedHere(s, u, Elems(s.code, if b then t else f))
    ensures Tied(s0, u, if b then NO_JUMP else t, if b then f else NO_JUMP, x, fr, Truth(b), cmp, n)
    ensures Elems(u.code, if b then f else t) == Elems(s.code, if b then f else t)
  {
    var L, M, m := Elems(s.code, if b then t else f), Elems(s.code, if b then f else t), if b then f else t;
    ListsIn(s0, s, t, f);
    HereBlank(s, L, cmp, n);
    hide Sem, WF, SameJumps, Elems, Here, Framed;
    HereInv(s, u, L, cmp, n);
    HereKeeps(s, u, L);
    hide Inv, PendingSet;
    ListsPending(s, t, f, cmp);
    InvParts(s, cmp, n);
    TrueHere(Abs(s0, cmp), Abs(s, cmp), L, M, x, fr, b);
    HomeFrame(s0, s, u, t, f, b);
  }

  lemma HereBlank(s: FS, L: set<nat>, cmp: Compare, n: nat)
    requires Inv(s, cmp, n) && L <= PendingSet(s)
    ensures NoRegs(Abs(s, cmp), L)
  {
    hide WF;
    forall j | j in L && 0 < j <= |s.code| && s.code[j - 1].TESTSET?
      ensures s.code[j - 1].A == NO_REG
    {
      assert JumpOk(s, j);
    }
  }
}
