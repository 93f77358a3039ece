/** The state of the code generator, and what every step of it keeps. */
module CodeState {
  import opened Opcodes
  import opened CodeExec
  import opened CodeSem
  import opened CodeJumps
  import opened CodeLogic
  import opened CodeHome
  import opened CodeLists

  /** The fields of `FuncState`; `D` gives the targets of the jumps that have one. */
  datatype FS = FS(code: seq<Instr>, D: map<nat, nat>, jpc: int, lasttarget: nat, freereg: nat, k: seq<Val>)

  function Erase(i: Instr): Instr {
    if i.JMP? then JMP(0) else i
  }

  function EraseAll(code: seq<Instr>): (r: seq<Instr>)
    ensures |r| == |code| && forall p :: 0 <= p < |code| ==> r[p] == Erase(code[p])
  {
    seq(|code|, p requires 0 <= p < |code| => Erase(code[p]))
  }

  /** The code under construction that a state stands for. */
  function Abs(s: FS, cmp: Compare): Code {
    Code(EraseAll(s.code), s.D, s.k, cmp)
  }

  ghost function PendingSet(s: FS): set<nat> {
    set q | 0 <= q < |s.code| && s.code[q].JMP? && q !in s.D
  }

  /** The list `jpc` of jumps to the next instruction. */
  ghost function Here(s: FS): set<nat> {
    Elems(s.code, s.jpc)
  }

  predicate Blank(code: seq<Instr>, q: nat) {
    ValueJump(code, q) ==> code[q - 1].A == NO_REG
  }

  predicate Filled(code: seq<Instr>, q: nat) {
    ValueJump(code, q) ==> code[q - 1].A < MAXREGS
  }

  /** Jump `q` is pending, waits for the next instruction, or has its offset. */
  ghost predicate JumpOk(s: FS, q: nat)
    requires q < |s.code| && s.code[q].JMP?
  {
    if q in Here(s) then q in s.D && s.D[q] == |s.code| && Blank(s.code, q)
    else if q in s.D then s.code[q].sBx == s.D[q] - (q + 1) && Filled(s.code, q)
    else Blank(s.code, q)
  }

  ghost predicate JumpsOk(s: FS) {
    && Listed(s.code, s.jpc)
    && forall q :: 0 <= q < |s.code| && s.code[q].JMP? ==> JumpOk(s, q)
  }

  ghost predicate LabelsOk(s: FS) {
    s.lasttarget <= |s.code| && forall q :: q in s.D ==> s.D[q] <= s.lasttarget
  }

  ghost predicate Inv(s: FS, cmp: Compare, nactvar: nat) {
    && WF(Abs(s, cmp)) && JumpsOk(s) && LabelsOk(s) && nactvar <= s.freereg < MAXREGS
    && |s.k| <= MAXARG_BX + 1
  }

  /** Code whose jumps may have got other links: `L` are the jumps concerned. */
  ghost predicate Relinked(code: seq<Instr>, code': seq<Instr>, L: set<nat>) {
    && |code'| == |code|
    && forall p :: 0 <= p < |code| ==> if p in L then code[p].JMP? && code'[p].JMP? else code'[p] == code[p]
  }

  lemma RelinkedErase(code: seq<Instr>, code': seq<Instr>, L: set<nat>)
    requires Relinked(code, code', L)
    ensures EraseAll(code') == EraseAll(code)
  {
  }

  // ---------- emitting instructions ----------

  /** `luaK_code`, applied to each of `more`: the jumps of `jpc` get their target first. */
  ghost function Emit(s: FS, more: seq<Instr>): FS {
    s.(code := PatchCode(s.code, Here(s), |s.code|, NO_REG, |s.code|) + more, jpc := NO_JUMP)
  }

  lemma EmitEmit(s: FS, i: Instr, j: Instr)
    ensures Emit(Emit(s, [i]), [j]) == Emit(s, [i, j])
  {
    var u := Emit(s, [i]);
    NoElems(u.code);
    PatchNone(u.code, |u.code|, NO_REG, |u.code|);
    assert u.code + [j] == Emit(s, [i, j]).code;
  }

  /** New instructions: their jumps are pending and not linked, and their tests have no register. */
  ghost predicate NewOk(more: seq<Instr>) {
    forall i :: 0 <= i < |more| ==>
      (more[i].JMP? ==> i > 0 ==> more[i - 1].TESTSET? ==> more[i - 1].A == NO_REG)
  }

  lemma EmitEmitted(s: FS, more: seq<Instr>, cmp: Compare, n: nat)
    requires Inv(s, cmp, n)
    ensures Emitted(Abs(s, cmp), Abs(Emit(s, more), cmp), EraseAll(more))
  {
    var u := Emit(s, more);
    ElemsIn(s.code, s.jpc);
    forall p | 0 <= p < |s.code|
      ensures var c, d := Abs(s, cmp), Abs(u, cmp);
        d.ops[p] == c.ops[p] || (p + 1 in c.D && Unset(c.ops[p]) && d.ops[p] == PatchTest(c.ops[p], NO_REG))
    {
      if p in Here(s) {
        assert s.code[p].JMP?;
      } else if p + 1 in Here(s) && s.code[p].TESTSET? {
        assert JumpOk(s, p + 1);
      }
    }
    hide WF, LabelsOk;
  }

  lemma EmitJumps(s: FS, more: seq<Instr>, cmp: Compare, n: nat)
    requires Inv(s, cmp, n) && NewOk(more)
    requires forall q :: q in s.D ==> q < |s.code|
    requires |s.code| > 0 ==> !s.code[|s.code| - 1].TESTSET?
    ensures JumpsOk(Emit(s, more))
  {
    var u := Emit(s, more);
    NoElems(u.code);
    ElemsIn(s.code, s.jpc);
    forall q | 0 <= q < |u.code| && u.code[q].JMP?
      ensures JumpOk(u, q)
    {
      if q < |s.code| {
        EmitJump(s, more, q);
      } else {
        assert u.code[q] == more[q - |s.code|];
        if q > |s.code| {
          assert u.code[q - 1] == more[q - 1 - |s.code|];
        } else if q > 0 {
          assert u.code[q - 1] == PatchAt(s.code, Here(s), |s.code|, NO_REG, |s.code|, q - 1);
        }
      }
    }
    hide WF, LabelsOk, Here;
  }

  lemma EmitJump(s: FS, more: seq<Instr>, q: nat)
    requires JumpsOk(s) && q < |s.code| && Emit(s, more).code[q].JMP?
    ensures JumpOk(Emit(s, more), q)
  {
    var u := Emit(s, more);
    NoElems(u.code);
    ElemsIn(s.code, s.jpc);
    assert u.code[q] == PatchAt(s.code, Here(s), |s.code|, NO_REG, |s.code|, q);
    assert s.code[q].JMP? && JumpOk(s, q);
    if q > 0 {
      assert u.code[q - 1] == PatchAt(s.code, Here(s), |s.code|, NO_REG, |s.code|, q - 1);
    }
  }

  /** Jump `q` and the test that controls it are the same in both. */
  ghost predicate SameJump(code: seq<Instr>, code': seq<Instr>, q: nat) {
    && q < |code| && q < |code'| && code'[q] == code[q]
    && (q > 0 ==> Erase(code'[q - 1]) == Erase(code[q - 1]))
  }

  ghost predicate SameJumps(code: seq<Instr>, code': seq<Instr>, L: set<nat>) {
    forall q :: q in L ==> SameJump(code, code', q)
  }

  /** Pending jumps are left alone. */
  lemma EmitKeeps(s: FS, more: seq<Instr>)
    requires JumpsOk(s)
    ensures SameJumps(s.code, Emit(s, more).code, PendingSet(s))
    ensures PendingSet(Emit(s, more)) == PendingSet(s) + (set i | 0 <= i < |more| && more[i].JMP? && |s.code| + i !in s.D :: |s.code| + i)
  {
    var u := Emit(s, more);
    ElemsIn(s.code, s.jpc);
    forall q | q in PendingSet(s)
      ensures SameJump(s.code, u.code, q)
    {
      assert JumpOk(s, q);
      assert u.code[q] == PatchAt(s.code, Here(s), |s.code|, NO_REG, |s.code|, q);
      if q > 0 {
        assert u.code[q - 1] == PatchAt(s.code, Here(s), |s.code|, NO_REG, |s.code|, q - 1);
      }
    }
    hide JumpsOk;
    EmitPending(s, more);
  }

  lemma EmitPending(s: FS, more: seq<Instr>)
    requires forall q :: q in Here(s) ==> q < |s.code| && s.code[q].JMP?
    ensures PendingSet(Emit(s, more)) == PendingSet(s) + (set i | 0 <= i < |more| && more[i].JMP? && |s.code| + i !in s.D :: |s.code| + i)
  {
    var u := Emit(s, more);
    forall q
      ensures q in PendingSet(u) <==> q in PendingSet(s) + (set i | 0 <= i < |more| && more[i].JMP? && |s.code| + i !in s.D :: |s.code| + i)
    {
      if 0 <= q < |s.code| {
        assert u.code[q] == PatchAt(s.code, Here(s), |s.code|, NO_REG, |s.code|, q);
      } else if |s.code| <= q < |u.code| {
        assert u.code[q] == more[q - |s.code|];
        assert q == |s.code| + (q - |s.code|);
      }
    }
  }
}
