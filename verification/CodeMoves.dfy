/** The other steps of the generator: each keeps the invariant of the state. */
module CodeMoves {
  import opened Opcodes
  import opened CodeExec
  import opened CodeSem
  import opened CodeJumps
  import opened CodeLogic
  import opened CodeHome
  import opened CodeLists
  import opened CodeState

  /** A list of pending jumps is not touched. */
  lemma ListKept(code: seq<Instr>, code': seq<Instr>, l: int, L: set<nat>)
    requires Listed(code, l) && Elems(code, l) <= L && SameJumps(code, code', L) && |code| <= |code'|
    ensures Listed(code', l) && Elems(code', l) == Elems(code, l)
  {
    assert forall q :: q in Elems(code, l) ==> SameJump(code, code', q);
    ElemsSame(code, code', l);
  }

  lemma SameJumpsTrans(a: seq<Instr>, b: seq<Instr>, c: seq<Instr>, L: set<nat>)
    requires SameJumps(a, b, L) && SameJumps(b, c, L)
    ensures SameJumps(a, c, L)
  {
    forall q | q in L
      ensures SameJump(a, c, q)
    {
      assert SameJump(a, b, q) && SameJump(b, c, q);
    }
  }

  lemma RelinkedJumps(code: seq<Instr>, code': seq<Instr>, M: set<nat>, L: set<nat>)
    requires Relinked(code, code', M) && L !! M && forall q :: q in L ==> q < |code|
    ensures SameJumps(code, code', L)
  {
  }

  // ---------- jumps to here ----------

  ghost predicate MovedHere(s: FS, u: FS, L: set<nat>) {
    && u == s.(code := u.code, D := s.D + (map q | q in L :: |s.code|), jpc := u.jpc, lasttarget := |s.code|)
    && Relinked(s.code, u.code, Here(s)) && Listed(u.code, u.jpc) && Here(u) == Here(s) + L
  }

  /** `luaK_patchtohere`. */
  lemma HereInv(s: FS, u: FS, L: set<nat>, cmp: Compare, n: nat)
    requires Inv(s, cmp, n) && L <= PendingSet(s) && MovedHere(s, u, L)
    ensures Inv(u, cmp, n) && Abs(u, cmp) == ToHere(Abs(s, cmp), L)
    ensures PendingSet(u) == PendingSet(s) - L
  {
    hide WF, Here, JumpsOk, PendingSet;
    HereJumps(s, u, L);
    RelinkedErase(s.code, u.code, Here(s));
    HerePending(s, cmp, L);
    ToHereWF(Abs(s, cmp), L);
  }

  lemma HerePending(s: FS, cmp: Compare, L: set<nat>)
    requires L <= PendingSet(s)
    ensures Pending(Abs(s, cmp), L)
  {
  }

  lemma HereJumps(s: FS, u: FS, L: set<nat>)
    requires JumpsOk(s) && L <= PendingSet(s) && MovedHere(s, u, L)
    ensures JumpsOk(u) && PendingSet(u) == PendingSet(s) - L
  {
    hide Here;
    assert forall q :: 0 <= q < |s.code| ==> (u.code[q].JMP? <==> s.code[q].JMP?) && (s.code[q].TESTSET? || u.code[q].TESTSET? ==> u.code[q] == s.code[q]);
    forall q | 0 <= q < |u.code| && u.code[q].JMP?
      ensures JumpOk(u, q)
    {
      assert JumpOk(s, q);
    }
  }

  lemma HereKeeps(s: FS, u: FS, L: set<nat>)
    requires JumpsOk(s) && MovedHere(s, u, L)
    ensures SameJumps(s.code, u.code, PendingSet(s) - L)
  {
    forall q | q in PendingSet(s)
      ensures q !in Here(s)
    {
      assert JumpOk(s, q);
    }
    RelinkedJumps(s.code, u.code, Here(s), PendingSet(s));
  }

  // ---------- new links among pending jumps ----------

  lemma LinkInv(s: FS, code': seq<Instr>, M: set<nat>, cmp: Compare, n: nat)
    requires Inv(s, cmp, n) && M <= PendingSet(s) && Relinked(s.code, code', M)
    ensures Inv(s.(code := code'), cmp, n) && Abs(s.(code := code'), cmp) == Abs(s, cmp)
    ensures PendingSet(s.(code := code')) == PendingSet(s) && Here(s.(code := code')) == Here(s)
  {
    var u := s.(code := code');
    RelinkedErase(s.code, code', M);
    HereDisjoint(s);
    ElemsIn(s.code, s.jpc);
    ElemsSame(s.code, code', s.jpc);
    assert forall q :: 0 <= q < |s.code| ==> (u.code[q].JMP? <==> s.code[q].JMP?);
    forall q | 0 <= q < |u.code| && u.code[q].JMP?
      ensures JumpOk(u, q)
    {
      assert JumpOk(s, q);
    }
    hide WF, Here;
  }

  lemma HereDisjoint(s: FS)
    requires JumpsOk(s)
    ensures Here(s) !! PendingSet(s)
  {
    forall q | q in PendingSet(s)
      ensures q !in Here(s)
    {
      assert JumpOk(s, q);
    }
  }

  // ---------- a jump that takes over the jumps to here ----------

  /** `luaK_jump`. */
  ghost function JumpFS(s: FS): FS {
    s.(code := s.code + [JMP(if s.jpc == NO_JUMP then NO_JUMP else s.jpc - (|s.code| + 1))], jpc := NO_JUMP, D := s.D - Here(s))
  }

  lemma JumpIsEmit(s: FS)
    requires s.jpc == NO_JUMP
    ensures JumpFS(s) == Emit(s, [JMP(NO_JUMP)])
  {
    NoElems(s.code);
    PatchNone(s.code, |s.code|, NO_REG, |s.code|);
  }

  lemma JumpList(s: FS)
    requires Listed(s.code, s.jpc)
    ensures var u := JumpFS(s); Listed(u.code, |s.code|) && Elems(u.code, |s.code|) == Here(s) + {|s.code|}
  {
    var u, j := JumpFS(s), |s.code|;
    ElemsIn(s.code, s.jpc);
    ElemsSame(s.code, u.code, s.jpc);
    var t := Elements(u.code, s.jpc);
    if s.jpc == NO_JUMP {
      assert IsList(u.code, j, [j]);
      ElemsAre(u.code, j, [j]);
      NoElems(s.code);
    } else {
      assert t != [] && t[0] == s.jpc;
      assert s.jpc < |s.code|;
      assert NextJump(u.code, j) == s.jpc;
      assert ([j] + t)[1..] == t;
      assert IsList(u.code, j, [j] + t);
      ElemsAre(u.code, j, [j] + t);
    }
  }

  lemma JumpInv(s: FS, cmp: Compare, n: nat)
    requires Inv(s, cmp, n)
    ensures Inv(JumpFS(s), cmp, n)
    ensures var c := Abs(s, cmp); Abs(JumpFS(s), cmp) == Without(c, Here(s)).(ops := c.ops + [JMP(0)])
    ensures PendingSet(JumpFS(s)) == PendingSet(s) + Here(s) + {|s.code|}
    ensures SameJumps(s.code, JumpFS(s).code, PendingSet(s))
  {
    hide WF, Here, JumpsOk, PendingSet, SameJumps;
    var u, c := JumpFS(s), Abs(s, cmp);
    var b := Without(c, Here(s));
    HereIn(s);
    WithoutWF(c, Here(s));
    EmittedWF(b, b.(ops := b.ops + [JMP(0)]), [JMP(0)]);
    assert Abs(u, cmp).ops == c.ops + [JMP(0)];
    WithoutTargets(c, {});
    JumpJumps(s);
  }

  lemma JumpJumps(s: FS)
    requires JumpsOk(s) && (forall q :: q in s.D ==> q < |s.code|) && (|s.code| > 0 ==> !s.code[|s.code| - 1].TESTSET?)
    ensures JumpsOk(JumpFS(s)) && PendingSet(JumpFS(s)) == PendingSet(s) + Here(s) + {|s.code|}
    ensures SameJumps(s.code, JumpFS(s).code, PendingSet(s))
  {
    var u := JumpFS(s);
    HereIn(s);
    NoElems(u.code);
    forall q | 0 <= q < |u.code| && u.code[q].JMP?
      ensures JumpOk(u, q)
    {
      if q < |s.code| {
        assert JumpOk(s, q);
      }
    }
    hide Here;
  }

  lemma HereIn(s: FS)
    requires JumpsOk(s)
    ensures forall q :: q in Here(s) ==> q < |s.code| && s.code[q].JMP? && q in s.D && s.D[q] == |s.code| && Blank(s.code, q)
  {
    ElemsIn(s.code, s.jpc);
    forall q | q in Here(s)
      ensures q < |s.code| && s.code[q].JMP? && q in s.D && s.D[q] == |s.code| && Blank(s.code, q)
    {
      assert JumpOk(s, q);
    }
  }

  // ---------- patching a list ----------

  ghost predicate PatchedFS(s: FS, u: FS, L: set<nat>, reg: nat, dtarget: int) {
    && (forall q :: q in L ==> TargetOf(s.code, q, |s.code|, dtarget) >= 0)
    && u == s.(code := PatchCode(s.code, L, |s.code|, reg, dtarget), D := s.D + (map q | q in L :: TargetOf(s.code, q, |s.code|, dtarget) as nat))
  }

  /** The default target of jumps that bring no value. */
  ghost predicate DefaultOk(s: FS, L: set<nat>, dtarget: int) {
    forall q :: q in L && !ValueJump(s.code, q) ==> q < dtarget <= |s.code| && (dtarget > 0 ==> !IsTest(s.code[dtarget - 1]))
  }

  lemma PatchAbs(s: FS, u: FS, L: set<nat>, reg: nat, dtarget: int, cmp: Compare, n: nat)
    requires Inv(s, cmp, n) && L <= PendingSet(s) && PatchedFS(s, u, L, reg, dtarget) && DefaultOk(s, L, dtarget)
    ensures Patched(Abs(s, cmp), Abs(u, cmp), L, reg)
  {
    hide WF, Here;
    forall p | 0 <= p < |s.code|
      ensures PatchedAt(Abs(s, cmp), Abs(u, cmp), L, reg, p)
    {
      assert u.code[p] == PatchAt(s.code, L, |s.code|, reg, dtarget, p);
      if p + 1 in L && s.code[p].TESTSET? {
        assert p + 1 in PendingSet(s);
        assert JumpOk(s, p + 1);
        assert L <= PendingSet(s);
      }
    }
  }

  lemma PatchWF(s: FS, u: FS, L: set<nat>, reg: nat, dtarget: int, cmp: Compare, n: nat)
    requires Inv(s, cmp, n) && L <= PendingSet(s) && PatchedFS(s, u, L, reg, dtarget) && DefaultOk(s, L, dtarget)
    requires Patched(Abs(s, cmp), Abs(u, cmp), L, reg)
    ensures WF(Abs(u, cmp))
  {
    hide WF, Patched, PatchedFS, DefaultOk, LabelsOk, JumpsOk, Controlled;
    var c, d := Abs(s, cmp), Abs(u, cmp);
    forall q | q in L && q in d.D
      ensures q < d.D[q] <= |c.ops| && !Controlled(c.ops, d.D[q])
    {
      PatchedTo(s, u, L, reg, dtarget, cmp, n, q);
    }
    PatchedWF(c, d, L, reg);
  }

  lemma PatchedTo(s: FS, u: FS, L: set<nat>, reg: nat, dtarget: int, cmp: Compare, n: nat, q: nat)
    requires Inv(s, cmp, n) && L <= PendingSet(s) && PatchedFS(s, u, L, reg, dtarget) && DefaultOk(s, L, dtarget) && q in L
    ensures q in u.D && q < u.D[q] <= |s.code| && !Controlled(Abs(s, cmp).ops, u.D[q])
  {
    hide WF, JumpsOk, LabelsOk;
    EndCut(Abs(s, cmp));
    assert u.D[q] == TargetOf(s.code, q, |s.code|, dtarget);
  }

  /** A patch keeps code well formed, if its targets lie ahead and not between a test and its jump. */
  lemma PatchedWF(c: Code, d: Code, L: set<nat>, reg: nat)
    requires WF(c) && Patched(c, d, L, reg)
    requires forall q :: q in L && q in d.D ==> q < d.D[q] <= |c.ops| && !Controlled(c.ops, d.D[q])
    ensures WF(d)
  {
    hide WF, PatchedAt, OpOk, TargetOk, Controlled;
    WFParts(c);
    forall p | 0 <= p < |d.ops|
      ensures OpOk(d, p)
    {
      PatchedOp(c, d, L, reg, p);
    }
    forall q | q in d.D
      ensures TargetOk(d, q)
    {
      PatchedTarget(c, d, L, reg, q);
    }
    WFWhole(d);
  }

  lemma WFParts(c: Code)
    requires WF(c)
    ensures (forall p :: 0 <= p < |c.ops| ==> OpOk(c, p)) && forall q :: q in c.D ==> TargetOk(c, q)
  {
  }

  lemma WFWhole(c: Code)
    requires (forall p :: 0 <= p < |c.ops| ==> OpOk(c, p)) && forall q :: q in c.D ==> TargetOk(c, q)
    ensures WF(c)
  {
  }

  lemma PatchedOp(c: Code, d: Code, L: set<nat>, reg: nat, p: nat)
    requires WF(c) && Patched(c, d, L, reg) && p < |d.ops|
    ensures OpOk(d, p)
  {
    assert OpOk(c, p) && PatchedAt(c, d, L, reg, p);
    assert p + 1 < |c.ops| ==> PatchedAt(c, d, L, reg, p + 1);
  }

  lemma PatchedTarget(c: Code, d: Code, L: set<nat>, reg: nat, q: nat)
    requires WF(c) && Patched(c, d, L, reg) && q in d.D
    requires q in L ==> q < d.D[q] <= |c.ops| && !Controlled(c.ops, d.D[q])
    ensures TargetOk(d, q)
  {
    assert q in c.D ==> TargetOk(c, q);
    assert PatchedAt(c, d, L, reg, q);
    assert PatchedAt(c, d, L, reg, d.D[q] - 1);
  }

  lemma PatchJumps(s: FS, u: FS, L: set<nat>, reg: nat, dtarget: int)
    requires JumpsOk(s) && L <= PendingSet(s) && PatchedFS(s, u, L, reg, dtarget) && reg < MAXREGS
    ensures JumpsOk(u) && PendingSet(u) == PendingSet(s) - L && Here(u) == Here(s)
    ensures SameJumps(s.code, u.code, PendingSet(s) - L)
  {
    HereDisjoint(s);
    ElemsIn(s.code, s.jpc);
    assert forall p :: 0 <= p < |s.code| ==> u.code[p] == PatchAt(s.code, L, |s.code|, reg, dtarget, p);
    ElemsSame(s.code, u.code, s.jpc);
    forall q | 0 <= q < |u.code| && u.code[q].JMP?
      ensures JumpOk(u, q)
    {
      assert s.code[q].JMP? && JumpOk(s, q);
      if q > 0 {
        assert u.code[q - 1] == PatchAt(s.code, L, |s.code|, reg, dtarget, q - 1);
      }
    }
    hide Here;
  }

  lemma PatchInv(s: FS, u: FS, L: set<nat>, reg: nat, dtarget: int, cmp: Compare, n: nat)
    requires Inv(s, cmp, n) && L <= PendingSet(s) && PatchedFS(s, u, L, reg, dtarget) && DefaultOk(s, L, dtarget)
    requires reg < MAXREGS && s.lasttarget == |s.code|
    ensures Inv(u, cmp, n) && Patched(Abs(s, cmp), Abs(u, cmp), L, reg)
    ensures PendingSet(u) == PendingSet(s) - L && SameJumps(s.code, u.code, PendingSet(s) - L)
  {
    hide WF, Patched, JumpsOk, PendingSet, SameJumps;
    PatchAbs(s, u, L, reg, dtarget, cmp, n);
    PatchWF(s, u, L, reg, dtarget, cmp, n);
    PatchJumps(s, u, L, reg, dtarget);
  }
}
