/** From one step of `exp2reg` to the next. */
module CodeTies {
  import opened Opcodes
  import opened CodeExec
  import opened CodeSem
  import opened CodeJumps
  import opened CodeLogic
  import opened CodeHome
  import opened CodeLists
  import opened CodeState
  import opened CodeMoves
  import opened CodeEdits
  import opened CodeGlue

  lemma InvParts(s: FS, cmp: Compare, n: nat)
    requires Inv(s, cmp, n)
    ensures WF(Abs(s, cmp)) && JumpsOk(s) && s.lasttarget <= |s.code| && Listed(s.code, s.jpc)
    ensures n <= s.freereg < MAXREGS && |s.k| <= MAXARG_BX + 1
  {
  }

  lemma KnownStep(s0: FS, s: FS, v: FS, t: int, f: int, x: Expr, fr: nat, reg: nat, cmp: Compare, n: nat)
    requires Tied(s0, s, t, f, x, fr, Known(false), cmp, n) && reg < MAXREGS
    requires v == Emit(s, Loaders(reg)).(lasttarget := v.lasttarget) && s.lasttarget <= v.lasttarget <= |s.code| + 2
    ensures Tied(s0, v, t, f, x, fr, InReg(reg), cmp, n)
  {
    hide Inv, Lists, Framed, Sem, WF, PendingSet, SameJumps, Emitted, Emit;
    InvParts(s, cmp, n);
    LoadersInv(s, v, reg, cmp, n);
    ListsPending(s, t, f, cmp);
    KnownSem(Abs(s0, cmp), Abs(s, cmp), Abs(v, cmp), Elems(s.code, t), Elems(s.code, f), x, fr, reg);
    CarrySame(s0, s, v, t, f, Elems(s.code, t) + Elems(s.code, f));
  }

  // ---------- patching the lists ----------

  /** The list of jumps taken when the value is `b` is patched: its jumps bring the value home. */
  lemma HomeStep(s0: FS, s: FS, u: FS, t: int, f: int, x: Expr, fr: nat, reg: nat, b: bool, dtarget: int, cmp: Compare, n: nat)
    requires Tied(s0, s, t, f, x, fr, InReg(reg), cmp, n) && reg < MAXREGS && s.lasttarget == |s.code|
    requires PatchedFS(s, u, Elems(s.code, if b then t else f), reg, dtarget)
    requires LoaderOk(s, Elems(s.code, if b then t else f), reg, b, dtarget)
    ensures Tied(s0, u, if b then NO_JUMP else t, if b then f else NO_JUMP, x, fr, InReg(reg), cmp, n)
    ensures Elems(u.code, if b then f else t) == Elems(s.code, if b then f else t)
  {
    var L, M, m := Elems(s.code, if b then t else f), Elems(s.code, if b then f else t), if b then f else t;
    ListsIn(s0, s, t, f);
    LoaderDefault(s, L, reg, b, dtarget);
    hide Inv, Lists, Framed, Sem, WF, PendingSet, SameJumps, PatchedFS, LoaderOk, Patched;
    PatchInv(s, u, L, reg, dtarget, cmp, n);
    InvParts(s, cmp, n);
    InvParts(u, cmp, n);
    LoaderTargets(s, u, L, reg, b, dtarget, cmp);
    HomeFrame(s0, s, u, t, f, b);
    HomeControls(s, u, M, cmp);
    HomeSem(Abs(s0, cmp), Abs(s, cmp), Abs(u, cmp), Elems(s.code, t), Elems(s.code, f), x, fr, reg, b);
  }

  /** The code ends with the loads of false and true. */
  ghost predicate LoadersAt(s: FS, reg: nat) {
    var l := |s.code|;
    l > 2 && s.code[l - 2] == LOADBOOL(reg, false, true) && s.code[l - 1] == LOADBOOL(reg, true, false) && !IsTest(s.code[l - 3])
  }

  /** Jumps of `L` that bring no value go to the load of truth value `b`. */
  ghost predicate LoaderOk(s: FS, L: set<nat>, reg: nat, b: bool, dtarget: int) {
    (exists q :: q in L && !ValueJump(s.code, q)) ==> LoadersAt(s, reg) && dtarget == |s.code| - if b then 1 else 2
  }

  lemma LoaderDefault(s: FS, L: set<nat>, reg: nat, b: bool, dtarget: int)
    requires LoaderOk(s, L, reg, b, dtarget) && (forall q :: q in L ==> q < |s.code| && s.code[q].JMP?)
    ensures DefaultOk(s, L, dtarget)
  {
    forall q | q in L && !ValueJump(s.code, q)
      ensures q < dtarget <= |s.code| && (dtarget > 0 ==> !IsTest(s.code[dtarget - 1]))
    {
      assert s.code[q].JMP? && LoadersAt(s, reg);
    }
  }

  lemma LoaderTargets(s: FS, u: FS, L: set<nat>, reg: nat, b: bool, dtarget: int, cmp: Compare)
    requires LoaderOk(s, L, reg, b, dtarget) && PatchedFS(s, u, L, reg, dtarget)
    requires forall q :: q in L ==> q < |s.code| && s.code[q].JMP?
    ensures Targets(Abs(s, cmp), Abs(u, cmp), L, reg, b)
  {
    var c, d := Abs(s, cmp), Abs(u, cmp);
    forall j | j in L
      ensures j in d.D && if 0 < j <= |c.ops| && c.ops[j - 1].TESTSET? then d.D[j] == |c.ops| else LoadsBool(d, d.D[j], reg, b)
    {
      if !ValueJump(s.code, j) {
        assert LoadersAt(s, reg) && d.D[j] == dtarget;
        assert u.code[dtarget] == PatchAt(s.code, L, |s.code|, reg, dtarget, dtarget);
        assert s.code[dtarget].LOADBOOL?;
      }
    }
  }

  lemma ListsIn(s0: FS, s: FS, t: int, f: int)
    requires Lists(s, t, f) && Framed(s0, s, Elems(s.code, t) + Elems(s.code, f))
    ensures forall q :: q in Elems(s.code, t) || q in Elems(s.code, f) ==> q < |s.code| && s.code[q].JMP? && q in PendingSet(s) && q >= |s0.code|
  {
  }

  lemma HomeFrame(s0: FS, s: FS, u: FS, t: int, f: int, b: bool)
    requires Lists(s, t, f) && Framed(s0, s, Elems(s.code, t) + Elems(s.code, f)) && |u.code| == |s.code| && u.k == s.k
    requires var L := Elems(s.code, if b then t else f); PendingSet(u) == PendingSet(s) - L && SameJumps(s.code, u.code, PendingSet(s) - L)
    ensures var t', f' := if b then NO_JUMP else t, if b then f else NO_JUMP;
      Lists(u, t', f') && Framed(s0, u, Elems(u.code, t') + Elems(u.code, f'))
    ensures Elems(u.code, if b then f else t) == Elems(s.code, if b then f else t)
    ensures Elems(u.code, NO_JUMP) == {}
  {
    var L, M, m := Elems(s.code, if b then t else f), Elems(s.code, if b then f else t), if b then f else t;
    NoElems(u.code);
    ListKept(s.code, u.code, m, PendingSet(s) - L);
    ListsIn(s0, s, t, f);
    assert PendingSet(s0) <= PendingSet(s) - L by {
      assert forall q :: q in PendingSet(s0) ==> q < |s0.code|;
    }
    assert SameJumps(s.code, u.code, PendingSet(s0));
    SameJumpsTrans(s0.code, s.code, u.code, PendingSet(s0));
    hide SameJumps;
    assert PendingSet(u) == PendingSet(s0) + M by {
      assert forall q :: q in PendingSet(s0) ==> q < |s0.code|;
    }
  }

  lemma HomeControls(s: FS, u: FS, M: set<nat>, cmp: Compare)
    requires |u.code| == |s.code| && SameJumps(s.code, u.code, M)
    ensures SameControls(Abs(s, cmp), Abs(u, cmp), M)
  {
    forall j | j in M && 0 < j
      ensures j <= |s.code| && Abs(u, cmp).ops[j - 1] == Abs(s, cmp).ops[j - 1]
    {
      assert SameJump(s.code, u.code, j);
    }
  }

  // ---------- discharging a value to a register ----------

  lemma ReadyTies(s0: FS, s: FS, e: Exp, x: Expr, fr: nat, cmp: Compare, n: nat)
    requires Ready(s0, s, e, x, fr, cmp, n)
    ensures Shell(s0, s, e, cmp, n)
    ensures Inv(s, cmp, n) && Lists(s, e.t, e.f) && KindOk(s, e.k, |s0.code|, cmp, n) && ShapeOk(Abs(s, cmp), e.k)
    ensures Framed(s0, s, Elems(s.code, e.t) + Elems(s.code, e.f) + Extra(e.k))
    ensures !e.k.VJMP? ==> Framed(s0, s, Elems(s.code, e.t) + Elems(s.code, e.f))
    ensures Sem(Abs(s0, cmp), Abs(s, cmp), Elems(s.code, e.t), Elems(s.code, e.f), x, fr, Value(e.k))
  {
    var own := Elems(s.code, e.t) + Elems(s.code, e.f);
    if !e.k.VJMP? {
      assert own + {} == own;
    }
    hide Inv, Lists, KindOk, Sem, Framed, Elems;
  }

  /** One instruction puts the value in register `reg`. */
  lemma LoadStep(s0: FS, s: FS, e: Exp, x: Expr, fr: nat, i: Instr, reg: nat, cmp: Compare, n: nat)
    requires Ready(s0, s, e, x, fr, cmp, n) && !e.k.VRELOCABLE? && !e.k.VJMP? && reg < MAXREGS
    requires i.MOVE? || i.LOADK? || i.LOADBOOL? || i.LOADNIL?
    requires MoreOk(Abs(s, cmp), [i]) && Loads(Abs(s, cmp), e.k, i, reg)
    ensures Tied(s0, Emit(s, [i]), e.t, e.f, x, fr, InReg(reg), cmp, n)
  {
    hide Ready, Inv, Lists, Framed, KindOk, Sem, WF, PendingSet, SameJumps, Emitted, Loads, ShapeOk, MoreOk;
    ReadyTies(s0, s, e, x, fr, cmp, n);
    var u := Emit(s, [i]);
    EmitPlain(s, i, cmp, n);
    InvParts(s, cmp, n);
    ListsPending(s, e.t, e.f, cmp);
    LoadSem(Abs(s0, cmp), Abs(s, cmp), Abs(u, cmp), Elems(s.code, e.t), Elems(s.code, e.f), x, fr, e.k, i, reg);
    CarrySame(s0, s, u, e.t, e.f, Elems(s.code, e.t) + Elems(s.code, e.f));
  }

  lemma EmitPlain(s: FS, i: Instr, cmp: Compare, n: nat)
    requires Inv(s, cmp, n) && MoreOk(Abs(s, cmp), [i]) && !i.JMP?
    ensures Inv(Emit(s, [i]), cmp, n) && Emitted(Abs(s, cmp), Abs(Emit(s, [i]), cmp), [i])
    ensures SameJumps(s.code, Emit(s, [i]).code, PendingSet(s)) && PendingSet(Emit(s, [i])) == PendingSet(s)
  {
    hide Inv, WF, MoreOk, Emit, PendingSet;
    assert EraseAll([i]) == [i];
    EmitInv(s, [i], cmp, n);
    var more := [i];
    assert (set x | 0 <= x < |more| && more[x].JMP? :: |s.code| + x) == {};
  }

  /** The instruction for each kind of value. */
  function LoadOf(k: Kind, reg: nat): Instr
    requires k == VNIL || k == VTRUE || k == VFALSE || k.VK? || k.VNONRELOC?
  {
    match k
    case VNIL => LOADNIL(reg, 0)
    case VTRUE => LOADBOOL(reg, true, false)
    case VFALSE => LOADBOOL(reg, false, false)
    case VK(i) => LOADK(reg, i)
    case VNONRELOC(r) => MOVE(reg, r)
  }

  lemma LoadOfOk(c: Code, k: Kind, reg: nat)
    requires k == VNIL || k == VTRUE || k == VFALSE || k.VK? || k.VNONRELOC?
    requires ShapeOk(c, k) && reg < MAXREGS
    ensures MoreOk(c, [LoadOf(k, reg)]) && Loads(c, k, LoadOf(k, reg), reg)
  {
    forall p: nat, R: Regs
      ensures Effect(c.cmp, c.k, LoadOf(k, reg), p, R) == Go(p + 1, Set(R, reg, ValOf(c, k, R)))
    {
      if k == VNIL {
        assert SetNil(R, reg, reg) == Set(R, reg, Nil);
      }
    }
  }

  lemma RelocStep(s0: FS, s: FS, e: Exp, x: Expr, fr: nat, reg: nat, cmp: Compare, n: nat)
    requires Ready(s0, s, e, x, fr, cmp, n) && e.k.VRELOCABLE? && reg < MAXREGS
    ensures e.k.pc < |s.code| && s.code[e.k.pc].NOT? && Tied(s0, RelocFS(s, e.k.pc, reg), e.t, e.f, x, fr, InReg(reg), cmp, n)
  {
    hide Ready, Inv, Lists, Framed, KindOk, Sem, WF, PendingSet, SameJumps, Cut;
    ReadyTies(s0, s, e, x, fr, cmp, n);
    RelocInv(s, e.k.pc, reg, cmp, n);
    var u := RelocFS(s, e.k.pc, reg);
    InvParts(s, cmp, n);
    ListsPending(s, e.t, e.f, cmp);
    RelocSem(Abs(s0, cmp), Abs(s, cmp), Abs(u, cmp), Elems(s.code, e.t), Elems(s.code, e.f), x, fr, e.k.pc, reg);
    CarrySame(s0, s, u, e.t, e.f, Elems(s.code, e.t) + Elems(s.code, e.f));
  }

  lemma MergeStep(s0: FS, s: FS, e: Exp, x: Expr, fr: nat, reg: nat, cmp: Compare, n: nat)
    requires Ready(s0, s, e, x, fr, cmp, n) && e.k == VNIL && reg < MAXREGS
    requires |s.code| > s.lasttarget && s.code[|s.code| - 1].LOADNIL?
    requires var i := s.code[|s.code| - 1]; i.A <= reg + 1 && reg <= i.A + i.n + 1
    ensures Tied(s0, MergeFS(s, reg), e.t, e.f, x, fr, InReg(reg), cmp, n)
  {
    hide Ready, Inv, Lists, Framed, KindOk, Sem, WF, PendingSet, SameJumps, Merged;
    ReadyTies(s0, s, e, x, fr, cmp, n);
    MergeInv(s, reg, cmp, n);
    var u := MergeFS(s, reg);
    InvParts(s, cmp, n);
    ListsPending(s, e.t, e.f, cmp);
    MergedSem(Abs(s0, cmp), Abs(s, cmp), Abs(u, cmp), Elems(s.code, e.t), Elems(s.code, e.f), x, fr, reg);
    CarrySame(s0, s, u, e.t, e.f, Elems(s.code, e.t) + Elems(s.code, e.f));
  }

  lemma StayStep(s0: FS, s: FS, e: Exp, x: Expr, fr: nat, reg: nat, cmp: Compare, n: nat)
    requires Ready(s0, s, e, x, fr, cmp, n) && e.k == VNONRELOC(reg)
    ensures Tied(s0, s, e.t, e.f, x, fr, InReg(reg), cmp, n)
  {
    hide Ready, Inv, Lists, Framed, KindOk, Sem;
    ReadyTies(s0, s, e, x, fr, cmp, n);
    AlreadyInReg(Abs(s0, cmp), Abs(s, cmp), Elems(s.code, e.t), Elems(s.code, e.f), x, fr, reg);
  }

  /** Constants may be added. */
  lemma MoreKReady(s0: FS, s: FS, e: Exp, x: Expr, fr: nat, k: seq<Val>, cmp: Compare, n: nat)
    requires Ready(s0, s, e, x, fr, cmp, n) && s.k <= k && |k| <= MAXARG_BX + 1
    ensures Ready(s0, s.(k := k), e, x, fr, cmp, n)
  {
    hide Inv, Lists, Framed, Sem, WF, PendingSet, SameJumps, ShapeOk;
    ReadyTies(s0, s, e, x, fr, cmp, n);
    var u := s.(k := k);
    InvParts(s, cmp, n);
    MoreKInv(s, k, cmp, n);
    MoreKShape(Abs(s, cmp), k, e.k);
    MoreKSem(Abs(s0, cmp), Abs(s, cmp), k, Elems(s.code, e.t), Elems(s.code, e.f), x, fr, e.k);
    FramedK(s0, s, u, Elems(s.code, e.t) + Elems(s.code, e.f) + Extra(e.k), e);
    assert e.k.VK? ==> e.k.i < |s.k| by { VKIn(s, e.k, cmp); }
  }

  lemma VKIn(s: FS, k: Kind, cmp: Compare)
    requires ShapeOk(Abs(s, cmp), k)
    ensures k.VK? ==> k.i < |s.k|
  {
  }

  lemma FramedK(s0: FS, s: FS, u: FS, own: set<nat>, e: Exp)
    requires Framed(s0, s, own) && u == s.(k := u.k) && s.k <= u.k && Lists(s, e.t, e.f)
    ensures Framed(s0, u, own) && Lists(u, e.t, e.f)
  {
    hide SameJumps;
    assert PendingSet(u) == PendingSet(s);
  }

  /** A numeral gets an index in the list of constants. */
  lemma NumReady(s0: FS, s: FS, e: Exp, x: Expr, fr: nat, i: nat, cmp: Compare, n: nat)
    requires Ready(s0, s, e, x, fr, cmp, n) && e.k.VNUM? && i < |s.k| && s.k[i] == NumVal(e.k.n)
    ensures Ready(s0, s, e.(k := VK(i)), x, fr, cmp, n)
  {
    hide Inv, Lists, Framed, Sem;
    SameValueSem(Abs(s0, cmp), Abs(s, cmp), Elems(s.code, e.t), Elems(s.code, e.f), x, fr, e.k, VK(i));
  }

  /** Two descriptions of the same value. */
  lemma SameValueSem(a: Code, c: Code, T: set<nat>, F: set<nat>, x: Expr, fr: nat, k: Kind, m: Kind)
    requires Sem(a, c, T, F, x, fr, Value(k)) && ShapeOk(c, k) && ShapeOk(c, m)
    requires !k.VRELOCABLE? && !k.VJMP? && !m.VRELOCABLE? && !m.VJMP?
    requires forall R: Regs :: ValOf(c, k, R) == ValOf(c, m, R)
    ensures Sem(a, c, T, F, x, fr, Value(m))
  {
    hide Eval, Run, ExitOk;
    forall R0: Regs
      ensures SemAt(a, c, T, F, x, fr, Value(m), R0)
    {
      assert SemAt(a, c, T, F, x, fr, Value(k), R0);
    }
  }

  /** A local variable is a register. */
  lemma LocalReady(s0: FS, s: FS, e: Exp, x: Expr, fr: nat, cmp: Compare, n: nat)
    requires Ready(s0, s, e, x, fr, cmp, n) && e.k.VLOCAL?
    ensures Ready(s0, s, e.(k := VNONRELOC(e.k.r)), x, fr, cmp, n) && e.k.r < n
  {
    hide Inv, Lists, Framed, Sem;
    SameValueSem(Abs(s0, cmp), Abs(s, cmp), Elems(s.code, e.t), Elems(s.code, e.f), x, fr, e.k, VNONRELOC(e.k.r));
  }
}
