/** Operators: `and`, `or`, `not` and comparisons, put together from their operands. */
module CodeOps {
  import opened Opcodes
  import opened CodeExec
  import opened CodeSem
  import opened CodeJumps
  import opened CodeLogic
  import opened CodeHome
  import opened CodeLists
  import opened CodeState
  import opened CodeMoves
  import opened CodeEdits
  import opened CodeGlue
  import opened CodeTies
  import opened CodeConds

  // ---------- and, or ----------

  lemma FramedTrans(s0: FS, m: FS, s: FS, own: set<nat>, own': set<nat>)
    requires Framed(s0, m, own) && Framed(m, s, own')
    ensures Framed(s0, s, own + own')
  {
    assert PendingSet(s0) <= PendingSet(m);
    assert SameJumps(m.code, s.code, PendingSet(s0));
    SameJumpsTrans(s0.code, m.code, s.code, PendingSet(s0));
    hide SameJumps;
  }

  function LogicExp(e: Exp, b: bool, l: int): Exp {
    Exp(e.k, if b then e.t else l, if b then l else e.f)
  }

  /** `x and y` (`b` true) or `x or y` (`b` false), when `y` has been compiled after the jumps of `x`: list
      `l` of these jumps joins the list of `y`. */
  lemma LogicStep(s0: FS, m: FS, s: FS, l: int, e: Exp, code': seq<Instr>, l': int, b: bool, x: Expr, y: Expr, fr: nat, cmp: Compare, n: nat)
    requires Tied(s0, m, if b then NO_JUMP else l, if b then l else NO_JUMP, x, fr, Truth(b), cmp, n)
    requires Ready(m, s, e, y, fr, cmp, n) && UsesLocals(y, fr)
    requires Joined(s.code, code', if b then e.f else e.t, l, l')
    ensures Ready(s0, s.(code := code'), LogicExp(e, b, l'), if b then AndE(x, y) else OrE(x, y), fr, cmp, n)
  {
    hide Ready, Shell, Inv, Lists, Framed, Sem, WF, SameJumps, Elems, Here, KindOk, PendingSet, Joined, Tied;
    var u, e' := s.(code := code'), LogicExp(e, b, l');
    ReadyTies(m, s, e, y, fr, cmp, n);
    LogicShell(s0, m, s, l, e, code', l', b, x, fr, cmp, n);
    var T, F, L := Elems(s.code, e.t), Elems(s.code, e.f), Elems(m.code, l);
    TiedSem(s0, m, if b then NO_JUMP else l, if b then l else NO_JUMP, x, fr, Truth(b), cmp, n);
    NoElems(m.code);
    assert T + {} == T && F + {} == F;
    LogicSem(Abs(s0, cmp), Abs(m, cmp), Abs(s, cmp), L, T, F, x, y, fr, e.k, b);
    ReadyIs(s0, u, e', if b then AndE(x, y) else OrE(x, y), fr, cmp, n, if b then T else T + L, if b then F + L else F);
  }

  lemma TiedSem(s0: FS, s: FS, t: int, f: int, x: Expr, fr: nat, fin: Final, cmp: Compare, n: nat)
    requires Tied(s0, s, t, f, x, fr, fin, cmp, n)
    ensures Sem(Abs(s0, cmp), Abs(s, cmp), Elems(s.code, t), Elems(s.code, f), x, fr, fin)
  {
    hide Inv, Lists, Framed, Sem;
  }

  lemma ReadyIs(s0: FS, u: FS, e: Exp, x: Expr, fr: nat, cmp: Compare, n: nat, T: set<nat>, F: set<nat>)
    requires Shell(s0, u, e, cmp, n) && Elems(u.code, e.t) == T && Elems(u.code, e.f) == F
    requires Sem(Abs(s0, cmp), Abs(u, cmp), T, F, x, fr, Value(e.k))
    ensures Ready(s0, u, e, x, fr, cmp, n)
  {
  }

  lemma LogicShell(s0: FS, m: FS, s: FS, l: int, e: Exp, code': seq<Instr>, l': int, b: bool, x: Expr, fr: nat, cmp: Compare, n: nat)
    requires Tied(s0, m, if b then NO_JUMP else l, if b then l else NO_JUMP, x, fr, Truth(b), cmp, n)
    requires Shell(m, s, e, cmp, n) && Joined(s.code, code', if b then e.f else e.t, l, l')
    ensures var u, e', L := s.(code := code'), LogicExp(e, b, l'), Elems(m.code, l);
      && Shell(s0, u, e', cmp, n) && Abs(u, cmp) == Abs(s, cmp)
      && Elems(u.code, e'.t) == (if b then Elems(s.code, e.t) else Elems(s.code, e.t) + L)
      && Elems(u.code, e'.f) == (if b then Elems(s.code, e.f) + L else Elems(s.code, e.f))
      && SameControls(Abs(m, cmp), Abs(s, cmp), L) && L !! Elems(s.code, e.t) && L !! Elems(s.code, e.f)
  {
    hide Tied, Shell, Inv, Framed, WF, SameJumps, Elems, Here, KindOk, PendingSet, Relinked;
    var u, L := s.(code := code'), Elems(m.code, l);
    var M, N, o := Elems(s.code, if b then e.f else e.t), Elems(s.code, if b then e.t else e.f), if b then e.t else e.f;
    LogicParts(s0, m, s, l, e, b, x, fr, cmp, n);
    RelinkedSize(s.code, code', M);
    LinkInv(s, code', M, cmp, n);
    RelinkedJumps(s.code, code', M, PendingSet(s) - M);
    JoinFrame(s0, s, u, M, N + Extra(e.k) + L, o);
    LinkedKind(s, u, e.k, |m.code|, |s0.code|, M, cmp, n);
    PendingControls(m, s, L, cmp);
    assert M + (N + Extra(e.k) + L) == (M + L) + N + Extra(e.k) == N + (M + L) + Extra(e.k);
    ShellIs(s0, u, LogicExp(e, b, l'), cmp, n, if b then N else M + L, if b then M + L else N);
  }

  lemma RelinkedSize(code: seq<Instr>, code': seq<Instr>, M: set<nat>)
    requires Relinked(code, code', M)
    ensures |code'| == |code|
  {
  }

  lemma ShellIs(s0: FS, u: FS, e: Exp, cmp: Compare, n: nat, T: set<nat>, F: set<nat>)
    requires Inv(u, cmp, n) && Listed(u.code, e.t) && Listed(u.code, e.f) && T !! F && T <= PendingSet(u) && F <= PendingSet(u)
    requires KindOk(u, e.k, |s0.code|, cmp, n) && (e.k.VJMP? ==> e.k.pc !in T && e.k.pc !in F)
    requires Framed(s0, u, T + F + Extra(e.k)) && Elems(u.code, e.t) == T && Elems(u.code, e.f) == F
    ensures Shell(s0, u, e, cmp, n)
  {
    hide Inv, KindOk, Framed, Elems, PendingSet;
  }

  lemma LinkedKind(s: FS, u: FS, k: Kind, lo: nat, lo': nat, M: set<nat>, cmp: Compare, n: nat)
    requires KindOk(s, k, lo, cmp, n) && lo' <= lo && u == s.(code := u.code) && Relinked(s.code, u.code, M)
    requires Abs(u, cmp) == Abs(s, cmp) && (k.VJMP? ==> k.pc !in M)
    ensures KindOk(u, k, lo', cmp, n)
  {
    hide Cut;
  }

  lemma LogicParts(s0: FS, m: FS, s: FS, l: int, e: Exp, b: bool, x: Expr, fr: nat, cmp: Compare, n: nat)
    requires Tied(s0, m, if b then NO_JUMP else l, if b then l else NO_JUMP, x, fr, Truth(b), cmp, n)
    requires Shell(m, s, e, cmp, n)
    ensures var L := Elems(m.code, l);
      var M, N := Elems(s.code, if b then e.f else e.t), Elems(s.code, if b then e.t else e.f);
      && Inv(s, cmp, n) && Listed(s.code, e.t) && Listed(s.code, e.f) && Elems(s.code, l) == L
      && M <= PendingSet(s) && N <= PendingSet(s) - M && L <= PendingSet(s) - M && L !! N && L !! M && L <= PendingSet(m)
      && (forall q :: q in PendingSet(s) - M ==> q < |s.code|)
      && KindOk(s, e.k, |m.code|, cmp, n) && |s0.code| <= |m.code| <= |s.code|
      && (e.k.VJMP? ==> e.k.pc !in M && e.k.pc !in N && e.k.pc !in L)
      && Framed(s0, s, M + (N + Extra(e.k) + L)) && SameJumps(m.code, s.code, PendingSet(m))
  {
    hide WF, SameJumps, KindOk, Elems;
    var L := Elems(m.code, l);
    var M, N := Elems(s.code, if b then e.f else e.t), Elems(s.code, if b then e.t else e.f);
    NoElems(m.code);
    ListKept(m.code, s.code, l, PendingSet(m));
    assert Elems(m.code, if b then NO_JUMP else l) + Elems(m.code, if b then l else NO_JUMP) == L;
    FramedTrans(s0, m, s, L, Elems(s.code, e.t) + Elems(s.code, e.f) + Extra(e.k));
    assert L + (Elems(s.code, e.t) + Elems(s.code, e.f) + Extra(e.k)) == M + (N + Extra(e.k) + L);
    assert forall q :: q in PendingSet(m) ==> q < |m.code|;
  }

  // ---------- not ----------

  /** As `Ready`, but the value is already negated, and the lists are not. */
  ghost predicate ReadyNot(s0: FS, s: FS, e: Exp, x: Expr, fr: nat, cmp: Compare, n: nat) {
    && Shell(s0, s, e, cmp, n)
    && SemNot(Abs(s0, cmp), Abs(s, cmp), Elems(s.code, e.t), Elems(s.code, e.f), x, fr, Value(e.k))
  }

  lemma NotConstStep(s0: FS, s: FS, e: Exp, x: Expr, fr: nat, cmp: Compare, n: nat)
    requires Ready(s0, s, e, x, fr, cmp, n) && (e.k == VNIL || e.k == VFALSE || e.k == VTRUE || e.k.VK? || e.k.VNUM?)
    ensures ReadyNot(s0, s, e.(k := NotKind(e.k)), x, fr, cmp, n)
  {
    hide Inv, Lists, Framed, Sem, SemNot, Elems;
    NotConst(Abs(s0, cmp), Abs(s, cmp), Elems(s.code, e.t), Elems(s.code, e.f), x, fr, e.k);
  }

  lemma NotJmpStep(s0: FS, s: FS, e: Exp, x: Expr, fr: nat, cmp: Compare, n: nat)
    requires Ready(s0, s, e, x, fr, cmp, n) && e.k.VJMP?
    ensures 0 < e.k.pc <= |s.code| && s.code[e.k.pc - 1].COMPARE? && ReadyNot(s0, InvertFS(s, e.k.pc), e, x, fr, cmp, n)
  {
    hide Inv, Framed, Sem, SemNot, WF, PendingSet, SameJumps, KindOk, Cut, Elems, InvertFS, Inverted, ShapeOk, SameControls, Ready, Pending;
    var pc := e.k.pc;
    ReadyTies(s0, s, e, x, fr, cmp, n);
    CompareShape(s0, s, e, cmp, n);
    var u := InvertFS(s, pc);
    InvertState(s0, s, e, cmp, n);
    InvertInv(s, pc, cmp, n);
    InvertKind(s, pc, |s0.code|, cmp, n);
    ListsPending(s, e.t, e.f, cmp);
    InvParts(s, cmp, n);
    CompareState(s0, s, e, cmp, n);
    NotJmp(Abs(s0, cmp), Abs(s, cmp), Elems(s.code, e.t), Elems(s.code, e.f), x, fr, pc);
    ListsOf(u, e.t, e.f);
    ShellIs(s0, u, e, cmp, n, Elems(s.code, e.t), Elems(s.code, e.f));
  }

  lemma ListsOf(s: FS, t: int, f: int)
    requires Lists(s, t, f)
    ensures Listed(s.code, t) && Listed(s.code, f) && Elems(s.code, t) !! Elems(s.code, f)
    ensures Elems(s.code, t) <= PendingSet(s) && Elems(s.code, f) <= PendingSet(s)
  {
  }

  lemma InvertKind(s: FS, pc: nat, lo: nat, cmp: Compare, n: nat)
    requires Inv(s, cmp, n) && KindOk(s, VJMP(pc), lo, cmp, n)
    ensures 0 < pc <= |s.code| && s.code[pc - 1].COMPARE? && KindOk(InvertFS(s, pc), VJMP(pc), lo, cmp, n)
  {
    InvertInv(s, pc, cmp, n);
    InvertedWF(Abs(s, cmp), pc);
    hide WF, Inv, Cut;
  }

  /** A value in a register: `NOT`. */
  lemma NotRegStep(s0: FS, s: FS, e: Exp, r: nat, x: Expr, fr: nat, cmp: Compare, n: nat)
    requires Ready(s0, s, e, x, fr, cmp, n) && e.k == VNONRELOC(r)
    ensures ReadyNot(s0, Emit(s, [NOT(0, r)]), e.(k := VRELOCABLE(|s.code|)), x, fr, cmp, n)
  {
    hide Ready, Shell, Inv, Lists, Framed, Sem, SemNot, WF, PendingSet, SameJumps, KindOk, Emitted, Elems, Pending, ShapeOk, JumpsOk;
    var u, T, F := Emit(s, [NOT(0, r)]), Elems(s.code, e.t), Elems(s.code, e.f);
    ReadyTies(s0, s, e, x, fr, cmp, n);
    ListsPending(s, e.t, e.f, cmp);
    InvParts(s, cmp, n);
    assert MoreOk(Abs(s, cmp), [NOT(0, r)]);
    EmitPlain(s, NOT(0, r), cmp, n);
    NotReg(Abs(s0, cmp), Abs(s, cmp), Abs(u, cmp), T, F, x, fr, r);
    CarrySame(s0, s, u, e.t, e.f, T + F);
    assert KindOk(u, VRELOCABLE(|s.code|), |s0.code|, cmp, n) by {
      FramedSize(s0, s, T + F);
      RelocKind(u, |s.code|, |s0.code|, cmp, n);
    }
    ListsOf(u, e.t, e.f);
    assert T + F + {} == T + F;
    ShellIs(s0, u, e.(k := VRELOCABLE(|s.code|)), cmp, n, T, F);
  }

  lemma FramedSize(s0: FS, s: FS, own: set<nat>)
    requires Framed(s0, s, own)
    ensures |s0.code| <= |s.code| && s0.k <= s.k
  {
  }

  lemma RelocKind(u: FS, pc: nat, lo: nat, cmp: Compare, n: nat)
    requires ShapeOk(Abs(u, cmp), VRELOCABLE(pc)) && lo <= pc && u.lasttarget <= pc && u.jpc == NO_JUMP
    ensures KindOk(u, VRELOCABLE(pc), lo, cmp, n)
  {
  }

  lemma EmptyTwice(code: seq<Instr>, L: set<nat>, M: set<nat>)
    ensures EmptyCode(EmptyCode(code, L), M) == EmptyCode(code, L + M)
  {
    forall p | 0 <= p < |code|
      ensures EmptyCode(EmptyCode(code, L), M)[p] == EmptyCode(code, L + M)[p]
    {
      assert EmptyCode(code, L)[p] == EmptyAt(code, L, p);
    }
  }

  /** The lists change places and lose their values. */
  lemma SwapStep(s0: FS, s: FS, e: Exp, x: Expr, fr: nat, cmp: Compare, n: nat)
    requires ReadyNot(s0, s, e, x, fr, cmp, n)
    ensures Ready(s0, EmptyFS(s, Elems(s.code, e.t) + Elems(s.code, e.f)), Exp(e.k, e.f, e.t), NotE(x), fr, cmp, n)
  {
    hide Inv, Lists, Framed, SemNot, Sem, WF, PendingSet, KindOk, Emptied, Elems, ShapeOk;
    var T, F := Elems(s.code, e.t), Elems(s.code, e.f);
    var u := EmptyFS(s, T + F);
    SwapShell(s0, s, e, cmp, n);
    InvParts(s, cmp, n);
    SwapSem(Abs(s0, cmp), Abs(s, cmp), Abs(u, cmp), T, F, x, fr, e.k);
  }

  lemma SwapShell(s0: FS, s: FS, e: Exp, cmp: Compare, n: nat)
    requires Shell(s0, s, e, cmp, n)
    ensures var T, F := Elems(s.code, e.t), Elems(s.code, e.f);
      var u := EmptyFS(s, T + F);
      && Shell(s0, u, Exp(e.k, e.f, e.t), cmp, n) && Elems(u.code, e.t) == T && Elems(u.code, e.f) == F
      && Emptied(Abs(s, cmp), Abs(u, cmp), T + F) && ShapeOk(Abs(s, cmp), e.k)
  {
    var T, F := Elems(s.code, e.t), Elems(s.code, e.f);
    var u := EmptyFS(s, T + F);
    ShellParts(s0, s, e, cmp, n);
    EmptyInv(s, T + F, cmp, n);
    EmptyList(s.code, T + F, e.t);
    EmptyList(s.code, T + F, e.f);
    EmptyKind(s, e.k, T, F, |s0.code|, cmp, n);
    SwapFrame(s0, s, u, T + F, Extra(e.k));
    hide Shell, Inv, Framed, WF, PendingSet, SameJumps, KindOk, Emptied, Elems, EmptyFS;
    assert F + T + Extra(e.k) == T + F + Extra(e.k);
    ShellIs(s0, u, Exp(e.k, e.f, e.t), cmp, n, F, T);
  }

  lemma ShellParts(s0: FS, s: FS, e: Exp, cmp: Compare, n: nat)
    requires Shell(s0, s, e, cmp, n)
    ensures var T, F := Elems(s.code, e.t), Elems(s.code, e.f);
      && Inv(s, cmp, n) && Listed(s.code, e.t) && Listed(s.code, e.f) && T !! F && T <= PendingSet(s) && F <= PendingSet(s)
      && KindOk(s, e.k, |s0.code|, cmp, n) && ShapeOk(Abs(s, cmp), e.k) && (e.k.VJMP? ==> e.k.pc !in T && e.k.pc !in F)
      && Framed(s0, s, T + F + Extra(e.k))
  {
    hide Inv, Framed, Elems, PendingSet;
  }

  lemma SwapFrame(s0: FS, s: FS, u: FS, L: set<nat>, own: set<nat>)
    requires Framed(s0, s, L + own) && |u.code| == |s.code| && u.k == s.k
    requires PendingSet(u) == PendingSet(s) && SameJumps(s.code, u.code, PendingSet(s) - L)
    ensures Framed(s0, u, L + own)
  {
    assert PendingSet(s0) <= PendingSet(s) - L by {
      assert forall q :: q in PendingSet(s0) ==> q < |s0.code|;
    }
    assert SameJumps(s.code, u.code, PendingSet(s0));
    SameJumpsTrans(s0.code, s.code, u.code, PendingSet(s0));
    hide SameJumps;
  }

  lemma EmptyKind(s: FS, k: Kind, T: set<nat>, F: set<nat>, lo: nat, cmp: Compare, n: nat)
    requires KindOk(s, k, lo, cmp, n) && Emptied(Abs(s, cmp), Abs(EmptyFS(s, T + F), cmp), T + F)
    requires k.VJMP? ==> k.pc !in T && k.pc !in F
    ensures KindOk(EmptyFS(s, T + F), k, lo, cmp, n)
  {
    hide Cut, Emptied;
    EmptiedShape(Abs(s, cmp), Abs(EmptyFS(s, T + F), cmp), T, F, k);
    if k.VJMP? {
      assert EmptyFS(s, T + F).code[k.pc] == EmptyAt(s.code, T + F, k.pc);
    }
  }

  // ---------- comparisons ----------

  /** An operand: a constant or a register, with no jumps. */
  ghost predicate ReadyOp(s0: FS, s: FS, k: Kind, x: Expr, fr: nat, cmp: Compare, n: nat) {
    && Inv(s, cmp, n) && Framed(s0, s, {}) && Operand(k) && ShapeOk(Abs(s, cmp), k)
    && Sem(Abs(s0, cmp), Abs(s, cmp), {}, {}, x, fr, Value(k))
  }

  lemma RelStep(s0: FS, m: FS, s: FS, k1: Kind, k2: Kind, op: RelOp, x: Expr, y: Expr, fr: nat, fr1: nat, cmp: Compare, n: nat)
    requires ReadyOp(s0, m, k1, x, fr, cmp, n) && ReadyOp(m, s, k2, y, fr1, cmp, n) && fr <= fr1 && UsesLocals(y, fr)
    requires (k1.VNONRELOC? ==> k1.r < fr1 && k1.r < MAXREGS) && (k2.VNONRELOC? ==> k2.r < MAXREGS)
    ensures Ready(s0, Emit(s, [Comparison(op, AsRK(k1), AsRK(k2)), JMP(NO_JUMP)]), Exp(VJMP(|s.code| + 1), NO_JUMP, NO_JUMP), RelE(op, x, y), fr, cmp, n)
  {
    hide Inv, Framed, Sem, WF, SameJumps, PendingSet, KindOk, Emitted, Elems, MoreOk, NewOk, AsRK, JumpsOk, ShapeOk, Shell, Emit;
    var i := Comparison(op, AsRK(k1), AsRK(k2));
    var u, e := Emit(s, [i, JMP(NO_JUMP)]), Exp(VJMP(|s.code| + 1), NO_JUMP, NO_JUMP);
    InvParts(s, cmp, n);
    RelFrame(s0, m, s);
    RelOperands(Abs(m, cmp), Abs(s, cmp), k1, k2, op);
    RelEmit(s, i, cmp, n);
    RelSem(Abs(s0, cmp), Abs(m, cmp), Abs(s, cmp), Abs(u, cmp), x, y, fr, fr1, k1, k2, op);
    RelShell(s0, s, u, i, e, cmp, n);
    NoElems(u.code);
  }

  lemma RelFrame(s0: FS, m: FS, s: FS)
    requires Framed(s0, m, {}) && Framed(m, s, {})
    ensures Framed(s0, s, {}) && m.k <= s.k
  {
    hide Framed;
    FramedSize(m, s, {});
    FramedTrans(s0, m, s, {}, {});
    var none: set<nat> := {};
    assert none + none == none;
  }

  lemma RelOperands(b: Code, c: Code, k1: Kind, k2: Kind, op: RelOp)
    requires Operand(k1) && Operand(k2) && ShapeOk(b, k1) && ShapeOk(c, k2) && b.k <= c.k
    requires (k1.VNONRELOC? ==> k1.r < MAXREGS) && (k2.VNONRELOC? ==> k2.r < MAXREGS)
    ensures MoreOk(c, [Comparison(op, AsRK(k1), AsRK(k2)), JMP(0)])
  {
  }

  lemma RelEmit(s: FS, i: Instr, cmp: Compare, n: nat)
    requires Inv(s, cmp, n) && i.COMPARE? && MoreOk(Abs(s, cmp), [i, JMP(0)])
    ensures var u := Emit(s, [i, JMP(NO_JUMP)]);
      && Inv(u, cmp, n) && Emitted(Abs(s, cmp), Abs(u, cmp), [i, JMP(0)])
      && SameJumps(s.code, u.code, PendingSet(s)) && PendingSet(u) == PendingSet(s) + {|s.code| + 1}
      && |u.code| == |s.code| + 2 && u.code[|s.code| + 1] == JMP(NO_JUMP)
  {
    hide Inv, WF, PendingSet, MoreOk, Emitted, SameJumps;
    var more := [i, JMP(NO_JUMP)];
    var u := Emit(s, more);
    assert EraseAll(more) == [i, JMP(0)];
    EmitInv(s, more, cmp, n);
    assert (set x | 0 <= x < |more| && more[x].JMP? :: |s.code| + x) == {|s.code| + 1} by {
      assert more[1].JMP?;
    }
    assert u.code[|s.code| + 1] == more[1];
  }

  lemma RelShell(s0: FS, s: FS, u: FS, i: Instr, e: Exp, cmp: Compare, n: nat)
    requires Framed(s0, s, {}) && u == Emit(s, [i, JMP(NO_JUMP)]) && e == Exp(VJMP(|s.code| + 1), NO_JUMP, NO_JUMP)
    requires Inv(u, cmp, n) && Inv(s, cmp, n) && SameJumps(s.code, u.code, PendingSet(s)) && PendingSet(u) == PendingSet(s) + {|s.code| + 1}
    requires ShapeOk(Abs(u, cmp), VJMP(|s.code| + 1)) && u.code[|s.code| + 1] == JMP(NO_JUMP)
    ensures Shell(s0, u, e, cmp, n)
  {
    hide Inv, WF, SameJumps, PendingSet, Elems, ShapeOk;
    NoElems(s.code);
    NoElems(u.code);
    InvParts(s, cmp, n);
    Carry(s0, s, u, NO_JUMP, NO_JUMP, {}, {|s.code| + 1});
    var none: set<nat> := {};
    assert none + none + {|s.code| + 1} == {|s.code| + 1};
  }
}
