/** Expressions under construction: what the generator knows of them between two steps. */
module CodeGlue {
  import opened Opcodes
  import opened CodeExec
  import opened CodeSem
  import opened CodeJumps
  import opened CodeLogic
  import opened CodeHome
  import opened CodeLists
  import opened CodeState
  import opened CodeMoves
  import opened CodeEdits

  /** `expdesc`: where the value is, and the lists of jumps taken when it is true and when it is false. */
  datatype Exp = Exp(k: Kind, t: int, f: int)

  /** State `s` comes from `s0`: the pending jumps of `s0` are still there, unchanged; `own` are the new ones. */
  ghost predicate Framed(s0: FS, s: FS, own: set<nat>) {
    && |s0.code| <= |s.code| && s0.k <= s.k
    && SameJumps(s0.code, s.code, PendingSet(s0))
    && PendingSet(s) == PendingSet(s0) + own
    && forall q :: q in own ==> q >= |s0.code|
  }

  ghost predicate Lists(s: FS, t: int, f: int) {
    && Listed(s.code, t) && Listed(s.code, f)
    && Elems(s.code, t) !! Elems(s.code, f)
    && Elems(s.code, t) <= PendingSet(s) && Elems(s.code, f) <= PendingSet(s)
  }

  /** The code from `s0` on evaluates `x`; `t` and `f` are the lists of its jumps. */
  ghost predicate Tied(s0: FS, s: FS, t: int, f: int, x: Expr, fr: nat, fin: Final, cmp: Compare, n: nat) {
    && Inv(s, cmp, n) && Lists(s, t, f)
    && Framed(s0, s, Elems(s.code, t) + Elems(s.code, f))
    && Sem(Abs(s0, cmp), Abs(s, cmp), Elems(s.code, t), Elems(s.code, f), x, fr, fin)
  }

  /** The last jump of an expression that is a comparison. */
  ghost function Extra(k: Kind): set<nat> {
    if k.VJMP? then {k.pc} else {}
  }

  ghost predicate KindOk(s: FS, k: Kind, lo: nat, cmp: Compare, n: nat) {
    && ShapeOk(Abs(s, cmp), k)
    && match k
       case VK(i) => !Falsy(s.k[i])
       case VLOCAL(r) => r < n
       case VRELOCABLE(pc) => lo <= pc && s.lasttarget <= pc && s.jpc == NO_JUMP
       case VJMP(pc) => lo < pc && s.lasttarget < pc && s.jpc == NO_JUMP && s.code[pc].sBx == NO_JUMP
       case _ => true
  }

  /** Expression `e` is well formed in state `s`. */
  ghost predicate Shell(s0: FS, s: FS, e: Exp, cmp: Compare, n: nat) {
    && Inv(s, cmp, n) && Lists(s, e.t, e.f) && KindOk(s, e.k, |s0.code|, cmp, n)
    && (e.k.VJMP? ==> e.k.pc !in Elems(s.code, e.t) && e.k.pc !in Elems(s.code, e.f))
    && Framed(s0, s, Elems(s.code, e.t) + Elems(s.code, e.f) + Extra(e.k))
  }

  /** The code from `s0` on evaluates `x`, up to what `e` says. */
  ghost predicate Ready(s0: FS, s: FS, e: Exp, x: Expr, fr: nat, cmp: Compare, n: nat) {
    && Shell(s0, s, e, cmp, n)
    && Sem(Abs(s0, cmp), Abs(s, cmp), Elems(s.code, e.t), Elems(s.code, e.f), x, fr, Value(e.k))
  }

  /** A temporary register is the first free one, and the only one in use. */
  ghost predicate RegsOk(s: FS, k: Kind, fr: nat, n: nat) {
    && (k.VNONRELOC? ==> k.r < n || k.r == fr)
    && s.freereg == if k.VNONRELOC? && k.r >= n then fr + 1 else fr
  }

  ghost predicate Compiled(s0: FS, s: FS, e: Exp, x: Expr, cmp: Compare, n: nat) {
    Ready(s0, s, e, x, s0.freereg, cmp, n) && RegsOk(s, e.k, s0.freereg, n)
  }

  lemma LabelInv(s: FS, cmp: Compare, n: nat)
    requires Inv(s, cmp, n)
    ensures var u := s.(lasttarget := |s.code|); Inv(u, cmp, n) && Abs(u, cmp) == Abs(s, cmp) && PendingSet(u) == PendingSet(s) && Here(u) == Here(s)
  {
    var u := s.(lasttarget := |s.code|);
    assert forall q :: 0 <= q < |s.code| && s.code[q].JMP? && JumpOk(s, q) ==> JumpOk(u, q);
    LabelTargets(s, cmp);
    hide WF, Here;
  }

  lemma LabelTargets(s: FS, cmp: Compare)
    requires WF(Abs(s, cmp))
    ensures forall q :: q in s.D ==> s.D[q] <= |s.code|
  {
    forall q | q in s.D
      ensures s.D[q] <= |s.code|
    {
      assert TargetOk(Abs(s, cmp), q);
    }
  }

  /** From `s` to `u`, all pending jumps of `s` but those of `gone` stay, and the lists `t` and `f` with them. */
  lemma Carry(s0: FS, s: FS, u: FS, t: int, f: int, own: set<nat>, own': set<nat>)
    requires Framed(s0, s, own) && Lists(s, t, f) && |s.code| <= |u.code| && s.k <= u.k
    requires SameJumps(s.code, u.code, PendingSet(s)) && PendingSet(u) == PendingSet(s0) + own' && own <= own'
    requires forall q :: q in own' ==> q >= |s0.code|
    ensures Framed(s0, u, own') && Lists(u, t, f)
    ensures Elems(u.code, t) == Elems(s.code, t) && Elems(u.code, f) == Elems(s.code, f)
  {
    ListKept(s.code, u.code, t, PendingSet(s));
    ListKept(s.code, u.code, f, PendingSet(s));
    assert PendingSet(s0) <= PendingSet(s);
    assert SameJumps(s.code, u.code, PendingSet(s0));
    SameJumpsTrans(s0.code, s.code, u.code, PendingSet(s0));
    hide SameJumps;
  }

  lemma CarrySame(s0: FS, s: FS, u: FS, t: int, f: int, own: set<nat>)
    requires Framed(s0, s, own) && Lists(s, t, f) && |s.code| <= |u.code| && s.k <= u.k
    requires SameJumps(s.code, u.code, PendingSet(s)) && PendingSet(u) == PendingSet(s)
    ensures Framed(s0, u, own) && Lists(u, t, f)
    ensures Elems(u.code, t) == Elems(s.code, t) && Elems(u.code, f) == Elems(s.code, f)
  {
    hide SameJumps, PendingSet;
    Carry(s0, s, u, t, f, own, own);
  }

  // ---------- exp2reg ----------

  /** The loads of false and true, with a jump over them that takes along the jumps to here. */
  lemma TiedSkip(s0: FS, s: FS, v: FS, u: FS, t: int, f: int, x: Expr, fr: nat, reg: nat, cmp: Compare, n: nat)
    requires Tied(s0, s, t, f, x, fr, InReg(reg), cmp, n)
    requires v == Emit(JumpFS(s), Loaders(reg)).(lasttarget := v.lasttarget) && s.lasttarget <= v.lasttarget <= |s.code| + 3
    requires MovedHere(v, u, Here(s) + {|s.code|})
    ensures Tied(s0, u, t, f, x, fr, InReg(reg), cmp, n)
    ensures Abs(u, cmp) == Skipped(Abs(s, cmp), Here(s), reg)
  {
    hide Inv, Lists, Framed, Sem, WF, PendingSet, SameJumps, MovedHere, Here, Skipped, Emitted;
    TiedSkipState(s0, s, v, u, reg, cmp, n);
    HereIs(s, cmp, n);
    ListsPending(s, t, f, cmp);
    SkippedSem(Abs(s0, cmp), Abs(s, cmp), Here(s), Elems(s.code, t), Elems(s.code, f), x, fr, reg);
    CarrySame(s0, s, u, t, f, Elems(s.code, t) + Elems(s.code, f));
  }

  lemma HereIs(s: FS, cmp: Compare, n: nat)
    requires Inv(s, cmp, n)
    ensures WF(Abs(s, cmp)) && NoRegs(Abs(s, cmp), Here(s)) && forall q :: q in Here(s) ==> q in s.D && s.D[q] == |s.code|
  {
    HereIn(s);
  }

  lemma ListsPending(s: FS, t: int, f: int, cmp: Compare)
    requires Lists(s, t, f)
    ensures Pending(Abs(s, cmp), Elems(s.code, t)) && Pending(Abs(s, cmp), Elems(s.code, f))
  {
  }

  lemma TiedSkipState(s0: FS, s: FS, v: FS, u: FS, reg: nat, cmp: Compare, n: nat)
    requires Inv(s, cmp, n)
    requires v == Emit(JumpFS(s), Loaders(reg)).(lasttarget := v.lasttarget) && s.lasttarget <= v.lasttarget <= |s.code| + 3
    requires MovedHere(v, u, Here(s) + {|s.code|})
    ensures Inv(u, cmp, n) && Abs(u, cmp) == Skipped(Abs(s, cmp), Here(s), reg)
    ensures PendingSet(u) == PendingSet(s) && SameJumps(s.code, u.code, PendingSet(s)) && |s.code| <= |u.code| && u.k == s.k
  {
    hide Inv, WF, PendingSet, SameJumps, Here, Skipped, Emitted, Emit;
    var j := JumpFS(s);
    assert j.lasttarget == s.lasttarget && |j.code| == |s.code| + 1;
    hide JumpFS;
    JumpInv(s, cmp, n);
    LoadersInv(j, v, reg, cmp, n);
    HereIs(s, cmp, n);
    SkippedIs(s, j, v, reg, cmp);
    HereInv(v, u, Here(s) + {|s.code|}, cmp, n);
    InvJumps(v, cmp, n);
    HereKeeps(v, u, Here(s) + {|s.code|});
    SkipPending(s, j, v, u, cmp, n);
  }

  lemma InvJumps(s: FS, cmp: Compare, n: nat)
    requires Inv(s, cmp, n)
    ensures JumpsOk(s) && |s.code| !in PendingSet(s) && Here(s) !! PendingSet(s)
  {
    HereDisjoint(s);
  }

  lemma LoadersInv(j: FS, v: FS, reg: nat, cmp: Compare, n: nat)
    requires Inv(j, cmp, n) && v == Emit(j, Loaders(reg)).(lasttarget := v.lasttarget) && j.lasttarget <= v.lasttarget <= |j.code| + 2
    ensures Inv(v, cmp, n) && PendingSet(v) == PendingSet(j) && SameJumps(j.code, v.code, PendingSet(j))
    ensures Emitted(Abs(j, cmp), Abs(v, cmp), Loaders(reg)) && v.k == j.k && |v.code| == |j.code| + 2
  {
    var more, e := Loaders(reg), Emit(j, Loaders(reg));
    assert EraseAll(more) == more;
    EmitInv(j, more, cmp, n);
    assert (set i | 0 <= i < |more| && more[i].JMP? :: |j.code| + i) == {};
    assert forall q :: 0 <= q < |e.code| && e.code[q].JMP? && JumpOk(e, q) ==> JumpOk(v, q);
    assert Abs(e, cmp) == Abs(v, cmp);
    hide WF, Here, Emit;
  }

  lemma SkippedIs(s: FS, j: FS, v: FS, reg: nat, cmp: Compare)
    requires j == JumpFS(s) && v == Emit(j, Loaders(reg)).(lasttarget := v.lasttarget)
    requires Abs(j, cmp) == Without(Abs(s, cmp), Here(s)).(ops := Abs(s, cmp).ops + [JMP(0)])
    requires WF(Abs(s, cmp)) && NoRegs(Abs(s, cmp), Here(s)) && forall q :: q in Here(s) ==> q in s.D && s.D[q] == |s.code|
    ensures ToHere(Abs(v, cmp), Here(s) + {|s.code|}) == Skipped(Abs(s, cmp), Here(s), reg)
    ensures |v.code| == |s.code| + 3 && v.k == s.k
  {
    NoElems(j.code);
    PatchNone(j.code, |j.code|, NO_REG, |j.code|);
    assert v.code == j.code + Loaders(reg);
    assert Abs(v, cmp).ops == Abs(s, cmp).ops + [JMP(0)] + Loaders(reg);
    SkippedPending(Abs(s, cmp), Here(s), reg, Abs(v, cmp));
    hide WF, Here;
  }

  lemma SkipPending(s: FS, j: FS, v: FS, u: FS, cmp: Compare, n: nat)
    requires Inv(s, cmp, n) && PendingSet(j) == PendingSet(s) + Here(s) + {|s.code|} && PendingSet(v) == PendingSet(j)
    requires PendingSet(u) == PendingSet(v) - (Here(s) + {|s.code|})
    requires SameJumps(s.code, j.code, PendingSet(s)) && SameJumps(j.code, v.code, PendingSet(j))
    requires SameJumps(v.code, u.code, PendingSet(v) - (Here(s) + {|s.code|}))
    ensures PendingSet(u) == PendingSet(s) && SameJumps(s.code, u.code, PendingSet(s))
  {
    InvJumps(s, cmp, n);
    assert SameJumps(j.code, v.code, PendingSet(s));
    SameJumpsTrans(s.code, j.code, v.code, PendingSet(s));
    assert PendingSet(u) == PendingSet(s);
    SameJumpsTrans(s.code, v.code, u.code, PendingSet(s));
    hide Inv, SameJumps, PendingSet, Here;
  }
}
