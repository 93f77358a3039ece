/** The code generator for expressions. */
module CodeGen {
  import opened Opcodes
  import opened CodeExec
  import opened CodeSem
  import opened CodeJumps
  import opened CodeLogic
  import opened CodeHome
  import opened CodeLists
  import opened CodeState
  import opened CodeMoves
  import opened CodeEdits
  import opened CodeGlue
  import opened CodeTies
  import opened CodeConds
  import opened CodeOps
  import opened CodeRegs

  /** Errors end the compilation. */
  datatype Status = Ok | TooLong | TooManyRegisters | TooManyConstants {
    predicate IsFailure() {
      !Ok?
    }

    function PropagateFailure(): Status
      requires IsFailure()
    {
      this
    }
  }

  function Size(x: Expr): (n: nat)
    ensures n > 0
  {
    match x
    case NotE(y) => 1 + Size(y)
    case AndE(y, z) => 1 + Size(y) + Size(z)
    case OrE(y, z) => 1 + Size(y) + Size(z)
    case RelE(_, y, z) => 1 + Size(y) + Size(z)
    case Paren(y) => 1 + Size(y)
    case _ => 1
  }

  /** The temporary registers that an expression may need. */
  function Registers(x: Expr): (n: nat)
    ensures n > 0
  {
    match x
    case NotE(y) => Registers(y)
    case AndE(y, z) => if Registers(y) > Registers(z) then Registers(y) else Registers(z)
    case OrE(y, z) => if Registers(y) > Registers(z) then Registers(y) else Registers(z)
    case RelE(_, y, z) => if Registers(y) > Registers(z) + 1 then Registers(y) else Registers(z) + 1
    case Paren(y) => Registers(y)
    case _ => 1
  }

  /** The instructions and constants that it may need. */
  function CodeFor(x: Expr): nat { 18 * Size(x) }
  function ConstantsFor(x: Expr): nat { 6 * Size(x) }

  lemma PartBounds(x: Expr, n: nat)
    requires x.AndE? || x.OrE? || x.RelE?
    ensures UsesLocals(x, n) <==> UsesLocals(x.l, n) && UsesLocals(x.r1, n)
    ensures Registers(x.l) <= Registers(x) && Registers(x.r1) + (if x.RelE? then 1 else 0) <= Registers(x)
    ensures CodeFor(x.l) + CodeFor(x.r1) + 18 == CodeFor(x)
    ensures ConstantsFor(x.l) + ConstantsFor(x.r1) + 6 == ConstantsFor(x)
  {
  }

  lemma PartBound(x: Expr, n: nat)
    requires x.NotE? || x.Paren?
    ensures (UsesLocals(x, n) <==> UsesLocals(x.e, n)) && Registers(x.e) == Registers(x)
    ensures CodeFor(x.e) + 18 == CodeFor(x) && ConstantsFor(x.e) + 6 == ConstantsFor(x)
  {
  }

  lemma LeafBound(x: Expr)
    ensures Registers(x) > 0 && CodeFor(x) >= 18 && ConstantsFor(x) >= 6
  {
  }

  /** The limit that an error stands for has been reached: by the code so far, by its constants, or by a register
      above the `free` first ones. */
  predicate Limit(r: Status, instructions: nat, constants: nat, free: int) {
    && (r.TooLong? ==> instructions >= MAXARG_SBX)
    && (r.TooManyRegisters? ==> free + 1 >= MAXREGS)
    && (r.TooManyConstants? ==> constants > MAXARG_BX)
  }

  /** The first operand of `and` (`b`) or `or` has been compiled; jumps of list `l` leave with its value. */
  ghost predicate Branched(b: bool, s0: FS, m: FS, l: int, y: Expr, cmp: Compare, n: nat) {
    Tied(s0, m, if b then NO_JUMP else l, if b then l else NO_JUMP, y, s0.freereg, Truth(b), cmp, n)
  }

  predicate IsLogic(b: bool, x: Expr, y: Expr, z: Expr) {
    x == if b then AndE(y, z) else OrE(y, z)
  }

  lemma LogicBounds(b: bool, x: Expr, y: Expr, z: Expr, n: nat)
    requires IsLogic(b, x, y, z) && UsesLocals(x, n)
    ensures y < x && z < x && UsesLocals(y, n) && UsesLocals(z, n)
    ensures Registers(y) <= Registers(x) && Registers(z) <= Registers(x)
    ensures CodeFor(y) + CodeFor(z) + 18 == CodeFor(x) && ConstantsFor(y) + ConstantsFor(z) + 6 == ConstantsFor(x)
  {
    hide UsesLocals, Registers, CodeFor, ConstantsFor;
    PartBounds(x, n);
  }

  lemma LimitOk(instructions: nat, constants: nat, free: int)
    ensures Limit(Ok, instructions, constants, free)
  {
  }

  class FuncState {
    var code: seq<Instr>
    var jpc: int
    var lasttarget: nat
    var freereg: nat
    var maxstacksize: nat
    var k: seq<Val>
    var constants: map<Val, nat>
    const nactvar: nat
    ghost var D: map<nat, nat>
    ghost const cmp: Compare

    ghost function View(): FS
      reads this
    {
      FS(code, D, jpc, lasttarget, freereg, k)
    }

    // ---------- jump lists ----------

    method FixJump(pc: nat, dest: int) returns (r: Status)
      requires pc < |code| && code[pc].JMP?
      requires -1 <= dest <= |code|
      modifies `code
      ensures |code| == |old(code)| && (r == Ok || r == TooLong)
      ensures r.Ok? <==> dest - (pc + 1) <= MAXARG_SBX && (pc + 1) - dest <= MAXARG_SBX
      ensures r.Ok? ==> code == old(code)[pc := JMP(dest - (pc + 1))]
    {
      var offset := dest - (pc + 1);
      if offset > MAXARG_SBX || -offset > MAXARG_SBX {
        return TooLong;
      }
      code := code[pc := JMP(offset)];
      return Ok;
    }

    /** `luaK_concat`. */
    method Concat(l1: int, l2: int) returns (r: Status, l: int)
      requires Listed(code, l1) && Listed(code, l2) && Elems(code, l1) !! Elems(code, l2)
      modifies `code
      ensures Limit(r, |code|, |k|, 0) && |code| <= |old(code)| && |k| <= |old(k)|
      ensures r.Ok? ==> Joined(old(code), code, l1, l2, l)
      ensures r.Ok? && (l1 == NO_JUMP || l2 == NO_JUMP) ==> code == old(code) && l == if l2 == NO_JUMP then l1 else l2
      ensures r.Ok? && l1 != NO_JUMP && l2 != NO_JUMP ==> var s := Elements(old(code), l1);
        l == l1 && s != [] && s[|s| - 1] < |old(code)| && code == old(code)[s[|s| - 1] := JMP(l2 - (s[|s| - 1] + 1))]
    {
      NoElems(code);
      ElemsIn(code, l1);
      if l2 == NO_JUMP {
        return Ok, l1;
      } else if l1 == NO_JUMP {
        return Ok, l2;
      }
      ghost var before, s, i: nat := code, Elements(code, l1), 0;
      ListTail(code, l1, s, 0);
      var list: nat := l1;
      var next := NextJump(code, list);
      while next != NO_JUMP
        invariant code == before && i < |s| && list == s[i] && list < |code| && code[list].JMP? && next == NextJump(code, list)
        invariant IsList(before, next, s[i + 1..])
        decreases |s| - i
      {
        assert next == s[i + 1..][0] == s[i + 1];
        ListTail(before, l1, s, i + 1);
        assert s[i + 1..][1..] == s[i + 2..];
        i, list := i + 1, next;
        next := NextJump(code, list);
      }
      assert i == |s| - 1;
      r := FixJump(list, l2);
      if r.Ok? {
        JoinedElems(before, code, l1, s, l2);
        assert list in ToSet(s);
      }
      l := l1;
    }

    /** `need_value`. */
    method NeedValue(l: int) returns (b: bool)
      requires Listed(code, l)
      ensures b <==> exists q :: q in Elems(code, l) && !ValueJump(code, q)
    {
      ghost var s, i: nat := Elements(code, l), 0;
      var list := l;
      while list != NO_JUMP
        invariant i <= |s| && IsList(code, list, s[i..])
        invariant forall x :: 0 <= x < i ==> ValueJump(code, s[x])
        decreases |s| - i
      {
        assert list == s[i..][0] == s[i];
        ListTail(code, l, s, i);
        if !(list >= 1 && code[list - 1].TESTSET?) {
          assert s[i] in Elems(code, l);
          return true;
        }
        assert s[i..][1..] == s[i + 1..];
        i, list := i + 1, NextJump(code, list);
      }
      assert i == |s|;
      return false;
    }

    /** `patchtestreg`. */
    method PatchTestReg(node: nat, reg: nat) returns (b: bool)
      requires node < |code|
      modifies `code
      ensures b == ValueJump(old(code), node)
      ensures code == if b then old(code)[node - 1 := PatchTest(old(code)[node - 1], reg)] else old(code)
    {
      if !(node >= 1 && code[node - 1].TESTSET?) {
        return false;
      }
      var i := code[node - 1];
      if reg != NO_REG && reg != i.B {
        code := code[node - 1 := TESTSET(reg, i.B, i.want)];
      } else {
        code := code[node - 1 := TEST(i.B, i.want)];
      }
      return true;
    }

    /** `removevalues`. */
    method RemoveValues(l: int)
      requires Listed(code, l)
      modifies `code
      ensures code == EmptyCode(old(code), Elems(old(code), l))
    {
      ghost var before, s, i: nat := code, Elements(code, l), 0;
      ghost var done: set<nat> := {};
      assert EmptyCode(before, {}) == before;
      var list := l;
      while list != NO_JUMP
        invariant i <= |s| && IsList(before, list, s[i..]) && done == ToSet(s[..i])
        invariant code == EmptyCode(before, done)
        decreases |s| - i
      {
        assert list == s[i..][0] == s[i];
        ListTail(before, l, s, i);
        forall x | 0 <= x < i
          ensures s[x] != s[i]
        {
          ListDistinct(before, l, s, x, i);
        }
        assert list !in done;
        EmptyOne(before, done, list);
        var b := PatchTestReg(list, NO_REG);
        done := done + {s[i]};
        assert s[..i + 1] == s[..i] + [s[i]];
        EmptyOne(before, done - {s[i]}, list);
        assert code[list] == before[list];
        assert s[i..][1..] == s[i + 1..];
        list := NextJump(code, list);
        i := i + 1;
      }
      assert i == |s| && s[..i] == s;
    }

    /** `patchlistaux`: jumps that bring a value go to `vtarget`, the others to `dtarget`. */
    method PatchListAux(l: int, vtarget: int, reg: nat, dtarget: int) returns (r: Status)
      requires Listed(code, l)
      requires -1 <= vtarget <= |code| && -1 <= dtarget <= |code|
      modifies `code
      ensures Limit(r, |code|, |k|, 0) && |code| <= |old(code)| && |k| <= |old(k)|
      ensures r.Ok? ==> code == PatchCode(old(code), Elems(old(code), l), vtarget, reg, dtarget)
    {
      hide IsList, ToSet, Elements, Elems, PatchCode;
      ghost var before, s, i: nat := code, Elements(code, l), 0;
      ghost var done: set<nat> := {};
      PatchNone(before, vtarget, reg, dtarget);
      ElemsListed(before, l);
      ListWhole(s);
      var list := l;
      while list != NO_JUMP
        invariant i <= |s| && IsList(before, list, s[i..]) && done == ToSet(s[..i])
        invariant forall x :: x in done ==> x < |before| && before[x].JMP?
        invariant code == PatchCode(before, done, vtarget, reg, dtarget)
        decreases |s| - i
      {
        ListHead(before, l, s, i, list);
        PatchOne(before, done, vtarget, reg, dtarget, list);
        var next := NextJump(code, list);
        var b := PatchTestReg(list, reg);
        if b {
          :- FixJump(list, vtarget);
        } else {
          :- FixJump(list, dtarget);
        }
        done, list, i := done + {s[i]}, next, i + 1;
      }
      ListEnds(before, s, i);
      return Ok;
    }

    // ---------- emitting code ----------

    /** `dischargejpc`. */
    method DischargeJpc() returns (r: Status)
      requires Listed(code, jpc)
      modifies `code, `jpc
      ensures Limit(r, |code|, |k|, 0) && |code| <= |old(code)| && |k| <= |old(k)|
      ensures r.Ok? ==> code == PatchCode(old(code), Elems(old(code), old(jpc)), |old(code)|, NO_REG, |old(code)|) && jpc == NO_JUMP
    {
      var here := |code|;
      :- PatchListAux(jpc, here, NO_REG, here);
      jpc := NO_JUMP;
      return Ok;
    }

    /** `luaK_code`. */
    method Code(i: Instr) returns (r: Status, pc: nat)
      requires Listed(code, jpc)
      modifies `code, `jpc
      ensures Limit(r, |code|, |k|, 0) && |code| <= |old(code)| + 1 && |k| <= |old(k)|
      ensures r.Ok? ==> View() == Emit(old(View()), [i]) && pc == |old(code)|
    {
      pc := |code|;
      :- DischargeJpc();
      code := code + [i];
      return Ok, pc;
    }

    /** `luaK_jump`. */
    method Jump() returns (r: Status, j: nat)
      requires Listed(code, jpc)
      modifies `code, `jpc, `D
      ensures Limit(r, |code|, |k|, 0) && |code| <= |old(code)| + 1 && |k| <= |old(k)|
      ensures r.Ok? ==> View() == JumpFS(old(View())) && j == |old(code)|
    {
      ghost var s := View();
      var list := jpc;
      jpc := NO_JUMP;
      D := D - Elems(code, list);
      NoElems(code);
      PatchNone(code, |code|, NO_REG, |code|);
      j :- Code(JMP(NO_JUMP));
      assert code == s.code + [JMP(NO_JUMP)];
      ElemsIn(s.code, list);
      ElemsSame(s.code, code, list);
      SingleList(code, j);
      OneElement(code, j);
      var l :- Concat(j, list);
      JumpedTo(s, code, j);
      return Ok, j;
    }

    /** `condjump`. */
    method CondJump(i: Instr) returns (r: Status, j: nat)
      requires Listed(code, jpc)
      modifies `code, `jpc, `D
      ensures Limit(r, |code|, |k|, 0) && |code| <= |old(code)| + 2 && |k| <= |old(k)|
      ensures r.Ok? ==> View() == Emit(old(View()), [i, JMP(NO_JUMP)]) && j == |old(code)| + 1
    {
      ghost var s := View();
      j := |code| + 1;
      var pc :- Code(i);
      NoElems(code);
      JumpIsEmit(View());
      EmitEmit(s, i, JMP(NO_JUMP));
      j :- Jump();
      return Ok, j;
    }

    /** `luaK_getlabel`. */
    method GetLabel() returns (pc: nat)
      modifies `lasttarget
      ensures pc == |code| == lasttarget
    {
      lasttarget := |code|;
      return lasttarget;
    }

    /** `luaK_patchtohere`. */
    method PatchToHere(l: int) returns (r: Status)
      requires Listed(code, jpc) && Listed(code, l) && Elems(code, jpc) !! Elems(code, l)
      modifies `code, `jpc, `D, `lasttarget
      ensures Limit(r, |code|, |k|, 0) && |code| <= |old(code)| && |k| <= |old(k)|
      ensures r.Ok? ==> MovedHere(old(View()), View(), Elems(old(code), l))
    {
      var here := GetLabel();
      D := D + (map q | q in Elems(code, l) :: |code|);
      jpc :- Concat(jpc, l);
      return Ok;
    }

    /** `code_label`. */
    method CodeLabel(A: nat, b: bool, skip: bool) returns (r: Status, pc: nat)
      requires Listed(code, jpc)
      modifies `code, `jpc, `lasttarget
      ensures Limit(r, |code|, |k|, 0) && |code| <= |old(code)| + 1 && |k| <= |old(k)|
      ensures r.Ok? ==> View() == Emit(old(View()), [LOADBOOL(A, b, skip)]).(lasttarget := |old(code)|) && pc == |old(code)|
    {
      var here := GetLabel();
      pc :- Code(LOADBOOL(A, b, skip));
      return Ok, pc;
    }

    /** `luaK_nil`. */
    method LoadNil(from: nat, n: nat) returns (r: Status)
      requires Listed(code, jpc) && n > 0
      modifies `code, `jpc
      ensures Limit(r, |code|, |k|, 0) && |code| <= |old(code)| + 1 && |k| <= |old(k)|
      ensures r.Ok? ==> View() == if CanMerge(old(View()), from, n) then MergeN(old(View()), from, n) else Emit(old(View()), [LOADNIL(from, n - 1)])
    {
      var l := from + n - 1;
      if |code| > lasttarget {
        var previous := code[|code| - 1];
        if previous.LOADNIL? {
          var pfrom := previous.A;
          var pl := pfrom + previous.n;
          if (pfrom <= from && from <= pl + 1) || (from <= pfrom && pfrom <= l + 1) {
            var first, last := if pfrom < from then pfrom else from, if pl > l then pl else l;
            code := code[|code| - 1 := LOADNIL(first, last - first)];
            return Ok;
          }
        }
      }
      var pc :- Code(LOADNIL(from, n - 1));
      return Ok;
    }

    // ---------- constants and registers ----------

    /** `addk`: the scanner's table may know an index, but it may be of another function. */
    method AddK(v: Val) returns (r: Status, i: nat)
      requires |k| <= MAXARG_BX + 1
      modifies `k, `constants
      ensures Limit(r, |code|, |k|, 0) && |code| <= |old(code)| && |k| <= |old(k)| + 1
      ensures r.Ok? ==> i < |k| && k[i] == v && |k| <= MAXARG_BX + 1 && k == if i == |old(k)| then old(k) + [v] else old(k)
      ensures v in old(constants) && old(constants)[v] < |old(k)| && old(k)[old(constants)[v]] == v ==> r == Ok && k == old(k)
      ensures r == TooManyConstants <==> |old(k)| > MAXARG_BX && !(v in old(constants) && old(constants)[v] < |old(k)| && old(k)[old(constants)[v]] == v)
    {
      if v in constants {
        i := constants[v];
        if i < |k| && k[i] == v {
          return Ok, i;
        }
      }
      if |k| > MAXARG_BX {
        return TooManyConstants, 0;
      }
      i := |k|;
      constants := constants[v := i];
      k := k + [v];
      return Ok, i;
    }

    /** `luaK_checkstack` and `luaK_reserveregs`. */
    method ReserveRegs(n: nat) returns (r: Status)
      requires maxstacksize < MAXREGS
      requires n > 0
      modifies `freereg, `maxstacksize
      ensures Limit(r, |code|, |k|, old(freereg) + n - 1) && (r == Ok || r == TooManyRegisters)
      ensures maxstacksize < MAXREGS
      ensures r.Ok? ==> freereg == old(freereg) + n < MAXREGS
    {
      var newstack := freereg + n;
      if newstack > maxstacksize {
        if newstack >= MAXREGS {
          return TooManyRegisters;
        }
        maxstacksize := newstack;
      }
      freereg := freereg + n;
      return Ok;
    }

    /** `freeexp`: a temporary register must be the last one in use. */
    method FreeExp(e: Exp, ghost fr: nat)
      requires RegsOk(View(), e.k, fr, nactvar)
      modifies `freereg
      ensures freereg == fr
    {
      if e.k.VNONRELOC? && e.k.r >= nactvar {
        freereg := freereg - 1;
        assert e.k.r == freereg;
      }
    }

    // ---------- values ----------

    /** `luaK_dischargevars`, for the kinds of expression considered here. */
    method DischargeVars(e: Exp) returns (e': Exp)
      ensures e' == if e.k.VLOCAL? then e.(k := VNONRELOC(e.k.r)) else e
    {
      e' := if e.k.VLOCAL? then e.(k := VNONRELOC(e.k.r)) else e;
    }

    /** `discharge2reg`, after the variables have been discharged. */
    method Discharge2Reg(e: Exp, reg: nat, ghost s0: FS, ghost x: Expr, ghost fr: nat) returns (r: Status, e': Exp)
      requires Ready(s0, View(), e, x, fr, cmp, nactvar) && !e.k.VLOCAL? && reg < MAXREGS
      modifies `code, `jpc, `k, `constants
      ensures Limit(r, |code|, |k|, 0) && |code| <= |old(code)| + 1 && |k| <= |old(k)| + 1
      ensures r.Ok? && e.k.VJMP? ==> e' == e && View() == old(View())
      ensures r.Ok? && !e.k.VJMP? ==> e' == e.(k := VNONRELOC(reg)) && Tied(s0, View(), e.t, e.f, x, fr, InReg(reg), cmp, nactvar)
      ensures r.Ok? && !e.k.VJMP? ==> freereg == old(freereg)
    {
      hide Ready, Shell, Inv, Lists, Framed, Sem, SameJumps, Tied, Emit, MoreOk, Loads, WF, JumpsOk, Listed;
      ghost var s := View();
      ReadyTies(s0, s, e, x, fr, cmp, nactvar);
      InvParts(s, cmp, nactvar);
      e' := e;
      match e.k {
        case VNIL =>
          LoadOfOk(Abs(s, cmp), e.k, reg);
          if CanMerge(s, reg, 1) {
            MergeStep(s0, s, e, x, fr, reg, cmp, nactvar);
            MergeOne(s, reg);
          } else {
            LoadStep(s0, s, e, x, fr, LoadOf(e.k, reg), reg, cmp, nactvar);
          }
          :- LoadNil(reg, 1);
        case VTRUE =>
          LoadOfOk(Abs(s, cmp), e.k, reg);
          LoadStep(s0, s, e, x, fr, LoadOf(e.k, reg), reg, cmp, nactvar);
          var pc :- Code(LOADBOOL(reg, true, false));
        case VFALSE =>
          LoadOfOk(Abs(s, cmp), e.k, reg);
          LoadStep(s0, s, e, x, fr, LoadOf(e.k, reg), reg, cmp, nactvar);
          var pc :- Code(LOADBOOL(reg, false, false));
        case VK(i) =>
          LoadOfOk(Abs(s, cmp), e.k, reg);
          LoadStep(s0, s, e, x, fr, LoadOf(e.k, reg), reg, cmp, nactvar);
          var pc :- Code(LOADK(reg, i));
        case VNUM(v) =>
          var i :- AddK(NumVal(v));
          ghost var u := View();
          MoreKReady(s0, s, e, x, fr, k, cmp, nactvar);
          NumReady(s0, u, e, x, fr, i, cmp, nactvar);
          ReadyTies(s0, u, e.(k := VK(i)), x, fr, cmp, nactvar);
          InvParts(u, cmp, nactvar);
          LoadOfOk(Abs(u, cmp), VK(i), reg);
          LoadStep(s0, u, e.(k := VK(i)), x, fr, LoadOf(VK(i), reg), reg, cmp, nactvar);
          var pc :- Code(LOADK(reg, i));
        case VRELOCABLE(pc) =>
          RelocStep(s0, s, e, x, fr, reg, cmp, nactvar);
          code := code[pc := NOT(reg, code[pc].B)];
        case VNONRELOC(source) =>
          if reg != source {
            LoadOfOk(Abs(s, cmp), e.k, reg);
            LoadStep(s0, s, e, x, fr, LoadOf(e.k, reg), reg, cmp, nactvar);
            var pc :- Code(MOVE(reg, source));
          } else {
            StayStep(s0, s, e, x, fr, reg, cmp, nactvar);
          }
        case VJMP(_) => return Ok, e;
      }
      return Ok, e.(k := VNONRELOC(reg));
    }

    /** The instructions of `exp2reg` that load false and true; a value that is already in its register
        jumps over them. */
    method LoadBooleans(isJump: bool, reg: nat, ghost s0: FS, t: int, f: int, ghost x: Expr, ghost fr: nat)
      returns (r: Status, pf: nat, pt: nat)
      requires Tied(s0, View(), t, f, x, fr, if isJump then Known(false) else InReg(reg), cmp, nactvar) && reg < MAXREGS
      modifies `code, `jpc, `D, `lasttarget
      ensures Limit(r, |code|, |k|, 0) && |code| <= |old(code)| + 3 && |k| <= |old(k)|
      ensures r.Ok? ==> Tied(s0, View(), t, f, x, fr, InReg(reg), cmp, nactvar) && lasttarget == |code|
      ensures r.Ok? ==> pf == |code| - 2 && pt == |code| - 1
      ensures r.Ok? && (Elems(old(code), t) != {} || Elems(old(code), f) != {}) ==> LoadersAt(View(), reg)
      ensures freereg == old(freereg)
    {
      ghost var s := View();
      TiedParts(s0, s, t, f, x, fr, if isJump then Known(false) else InReg(reg), cmp, nactvar);
      InvParts(s, cmp, nactvar);
      hide Tied, Inv, Listed, JumpsOk, WF, Emit, MovedHere, LoadersAt;
      pf, pt := |code| + 1, |code| + 2;
      var fj := NO_JUMP;
      if !isJump {
        JumpList(s);
        fj :- Jump();
        JumpListed(s);
      }
      ghost var v0 := View();
      pf :- CodeLabel(reg, false, true);
      EmitListed(v0, [LOADBOOL(reg, false, true)]);
      pt :- CodeLabel(reg, true, false);
      ghost var v := View();
      LabelsEmit(v0, v, reg);
      SkipList(s, v0, v, fj, isJump, reg, cmp, nactvar);
      :- PatchToHere(fj);
      if isJump {
        NothingHere(v, View());
        KnownStep(s0, s, View(), t, f, x, fr, reg, cmp, nactvar);
      } else {
        TiedSkip(s0, s, v, View(), t, f, x, fr, reg, cmp, nactvar);
      }
      LastNoTest(s, cmp, nactvar);
      LoadersThere(s, v0, v, View(), isJump, reg);
      return Ok, pf, pt;
    }

    /** The second half of `exp2reg`: both lists are patched, so that every way out brings the value to
        register `reg`. */
    method BringHome(isJump: bool, t: int, f: int, reg: nat, ghost s0: FS, ghost x: Expr, ghost fr: nat) returns (r: Status)
      requires Tied(s0, View(), t, f, x, fr, if isJump then Known(false) else InReg(reg), cmp, nactvar) && reg < MAXREGS && t != f
      requires isJump ==> exists q :: q in Elems(code, t) && !ValueJump(code, q)
      modifies `code, `jpc, `D, `lasttarget
      ensures Limit(r, |code|, |k|, 0) && |code| <= |old(code)| + 3 && |k| <= |old(k)|
      ensures r.Ok? ==> Tied(s0, View(), NO_JUMP, NO_JUMP, x, fr, InReg(reg), cmp, nactvar)
      ensures freereg == old(freereg)
    {
      hide Inv, Tied, Listed, JumpsOk, WF, LoadersAt, LoaderOk, PatchedFS, Framed;
      ghost var s1 := View();
      TiedParts(s0, s1, t, f, x, fr, if isJump then Known(false) else InReg(reg), cmp, nactvar);
      var pf, pt := NO_JUMP, NO_JUMP;
      var needT := NeedValue(t);
      var needF := NeedValue(f);
      if needT || needF {
        pf, pt :- LoadBooleans(isJump, reg, s0, t, f, x, fr);
      } else {
        assert !isJump;
        LabelTied(s0, s1, t, f, x, fr, InReg(reg), cmp, nactvar);
      }
      var final := GetLabel();
      ghost var s2 := View();
      TiedParts(s0, s2, t, f, x, fr, InReg(reg), cmp, nactvar);
      ghost var F, T := Elems(code, f), Elems(code, t);
      assert needT || needF || AllValues(s2, T + F);
      LoaderEither(s2, F, T + F, reg, false, pf, needT || needF);
      :- PatchListAux(f, final, reg, pf);
      D := D + TargetMap(s2, F, pf);
      PatchedIs(s2, View(), F, reg, false, pf);
      HomeStep(s0, s2, View(), t, f, x, fr, reg, false, pf, cmp, nactvar);
      ghost var s3 := View();
      TiedParts(s0, s3, t, NO_JUMP, x, fr, InReg(reg), cmp, nactvar);
      LoadersStill(s2, s3, F, T, reg, pf, needT || needF);
      LoaderEither(s3, T, T, reg, true, pt, needT || needF);
      :- PatchListAux(t, final, reg, pt);
      D := D + TargetMap(s3, T, pt);
      PatchedIs(s3, View(), T, reg, true, pt);
      HomeStep(s0, s3, View(), t, NO_JUMP, x, fr, reg, true, pt, cmp, nactvar);
      return Ok;
    }

    /** `exp2reg`: the value of `e` in register `reg`, whichever way control takes. */
    method Exp2Reg(e: Exp, reg: nat, ghost s0: FS, ghost x: Expr, ghost fr: nat) returns (r: Status, e': Exp)
      requires Ready(s0, View(), e, x, fr, cmp, nactvar) && !e.k.VLOCAL? && reg < MAXREGS
      modifies `code, `jpc, `D, `lasttarget, `k, `constants
      ensures Limit(r, |code|, |k|, 0) && |code| <= |old(code)| + 4 && |k| <= |old(k)| + 1
      ensures r.Ok? ==> e' == Exp(VNONRELOC(reg), NO_JUMP, NO_JUMP) && freereg == old(freereg)
      ensures r.Ok? ==> Tied(s0, View(), NO_JUMP, NO_JUMP, x, fr, InReg(reg), cmp, nactvar)
    {
      hide Ready, Inv, Tied, Listed, JumpsOk, WF, Joined, Framed;
      e' :- Discharge2Reg(e, reg, s0, x, fr);
      var t := e.t;
      if e'.k.VJMP? {
        ghost var s := View();
        ReadyLists(s0, s, e, x, fr, cmp, nactvar);
        t :- Concat(e.t, e'.k.pc);
        JmpStep(s0, s, e, code, t, x, fr, cmp, nactvar);
        CompareListed(s, e, code, t, cmp, nactvar);
      }
      if t != e.f {
        :- BringHome(e'.k.VJMP?, t, e.f, reg, s0, x, fr);
      } else {
        TiedParts(s0, View(), t, e.f, x, fr, if e'.k.VJMP? then Known(false) else InReg(reg), cmp, nactvar);
        NoJumps(View(), t, e.f);
        assert !e'.k.VJMP?;
      }
      return Ok, Exp(VNONRELOC(reg), NO_JUMP, NO_JUMP);
    }

    /** `discharge2anyreg`. */
    method Discharge2AnyReg(e: Exp, ghost s0: FS, ghost x: Expr) returns (r: Status, e': Exp)
      requires Compiled(s0, View(), e, x, cmp, nactvar) && !e.k.VLOCAL? && !e.k.VJMP? && maxstacksize < MAXREGS
      modifies `code, `jpc, `k, `constants, `freereg, `maxstacksize
      ensures Limit(r, |code|, |k|, s0.freereg) && |code| <= |old(code)| + 1 && |k| <= |old(k)| + 1
      ensures maxstacksize < MAXREGS
      ensures r.Ok? ==> Compiled(s0, View(), e', x, cmp, nactvar) && e'.k.VNONRELOC? && e'.t == e.t && e'.f == e.f
    {
      hide Ready, Tied;
      e' := e;
      if !e.k.VNONRELOC? {
        ghost var s := View();
        ReadyRegs(s0, s, e, x, cmp, nactvar);
        :- ReserveRegs(1);
        FreeReady(s0, s, e, x, s0.freereg, freereg, cmp, nactvar);
        e' :- Discharge2Reg(e, freereg - 1, s0, x, s0.freereg);
        TiedReady(s0, View(), e.t, e.f, x, s0.freereg, s0.freereg, cmp, nactvar);
      }
      return Ok, e';
    }

    /** `luaK_exp2nextreg`. */
    method Exp2NextReg(e: Exp, ghost s0: FS, ghost x: Expr) returns (r: Status, e': Exp)
      requires Compiled(s0, View(), e, x, cmp, nactvar) && maxstacksize < MAXREGS
      modifies `code, `jpc, `D, `lasttarget, `k, `constants, `freereg, `maxstacksize
      ensures Limit(r, |code|, |k|, s0.freereg) && |code| <= |old(code)| + 4 && |k| <= |old(k)| + 1
      ensures maxstacksize < MAXREGS
      ensures r.Ok? ==> e' == Exp(VNONRELOC(s0.freereg), NO_JUMP, NO_JUMP) && freereg == s0.freereg + 1
      ensures r.Ok? ==> Compiled(s0, View(), e', x, cmp, nactvar)
    {
      hide Ready, Tied, Inv, Lists, Listed, Elems, PendingSet;
      ghost var s := View();
      ReadyRegs(s0, s, e, x, cmp, nactvar);
      if e.k.VLOCAL? {
        LocalReady(s0, s, e, x, s0.freereg, cmp, nactvar);
      }
      e' := DischargeVars(e);
      FreeExp(e', s0.freereg);
      :- ReserveRegs(1);
      FreeReady(s0, s, e', x, s0.freereg, freereg, cmp, nactvar);
      e' :- Exp2Reg(e', freereg - 1, s0, x, s0.freereg);
      TiedReady(s0, View(), NO_JUMP, NO_JUMP, x, s0.freereg, s0.freereg, cmp, nactvar);
      return Ok, e';
    }

    /** `luaK_exp2anyreg`. */
    method Exp2AnyReg(e: Exp, ghost s0: FS, ghost x: Expr) returns (r: Status, e': Exp)
      requires Compiled(s0, View(), e, x, cmp, nactvar) && maxstacksize < MAXREGS
      modifies `code, `jpc, `D, `lasttarget, `k, `constants, `freereg, `maxstacksize
      ensures Limit(r, |code|, |k|, s0.freereg) && |code| <= |old(code)| + 4 && |k| <= |old(k)| + 1
      ensures maxstacksize < MAXREGS
      ensures r.Ok? ==> Compiled(s0, View(), e', x, cmp, nactvar) && e'.k.VNONRELOC? && e'.t == NO_JUMP && e'.f == NO_JUMP
    {
      hide Ready, Tied;
      ghost var s := View();
      ReadyRegs(s0, s, e, x, cmp, nactvar);
      if e.k.VLOCAL? {
        LocalReady(s0, s, e, x, s0.freereg, cmp, nactvar);
      }
      var d := DischargeVars(e);
      if d.k.VNONRELOC? {
        if d.t == d.f {
          NoJumps(s, d.t, d.f);
          return Ok, d;
        }
        if d.k.r >= nactvar {
          e' :- Exp2Reg(d, d.k.r, s0, x, s0.freereg);
          TiedReady(s0, View(), NO_JUMP, NO_JUMP, x, s0.freereg, s0.freereg, cmp, nactvar);
          return Ok, e';
        }
      }
      e' :- Exp2NextReg(d, s0, x);
      return Ok, e';
    }

    /** `luaK_exp2val`. */
    method Exp2Val(e: Exp, ghost s0: FS, ghost x: Expr) returns (r: Status, e': Exp)
      requires Compiled(s0, View(), e, x, cmp, nactvar) && maxstacksize < MAXREGS
      modifies `code, `jpc, `D, `lasttarget, `k, `constants, `freereg, `maxstacksize
      ensures Limit(r, |code|, |k|, s0.freereg) && |code| <= |old(code)| + 4 && |k| <= |old(k)| + 1
      ensures maxstacksize < MAXREGS
      ensures r.Ok? ==> Compiled(s0, View(), e', x, cmp, nactvar) && e'.t == NO_JUMP && e'.f == NO_JUMP
    {
      hide Ready, Tied;
      if e.t != e.f {
        e' :- Exp2AnyReg(e, s0, x);
      } else {
        ReadyRegs(s0, View(), e, x, cmp, nactvar);
        NoJumps(View(), e.t, e.f);
        if e.k.VLOCAL? {
          LocalReady(s0, View(), e, x, s0.freereg, cmp, nactvar);
        }
        e' := DischargeVars(e);
      }
      return Ok, e';
    }

    /** `nilK` and `boolK`, for an operand. */
    method KeepConst(e: Exp, v: Val, ghost s0: FS, ghost x: Expr) returns (r: Status, e': Exp)
      requires Compiled(s0, View(), e, x, cmp, nactvar) && e.t == NO_JUMP && e.f == NO_JUMP && |k| <= MAXINDEXRK
      requires (e.k == VNIL && v == Nil) || (e.k == VTRUE && v == Bool(true)) || (e.k == VFALSE && v == Bool(false))
      modifies `k, `constants
      ensures Limit(r, |code|, |k|, 0) && |code| <= |old(code)| && |k| <= |old(k)| + 1
      ensures r.Ok? ==> ReadyOp(s0, View(), e'.k, x, s0.freereg, cmp, nactvar) && RegsOk(View(), e'.k, s0.freereg, nactvar)
      ensures r.Ok? ==> e'.t == NO_JUMP && e'.f == NO_JUMP && e'.k.VK? && e'.k.i <= MAXINDEXRK
    {
      hide Ready, ReadyOp;
      ghost var s := View();
      ReadyRegs(s0, s, e, x, cmp, nactvar);
      e' := e;
      var i :- AddK(v);
      MoreKReady(s0, s, e, x, s0.freereg, k, cmp, nactvar);
      ConstOperand(s0, View(), e, x, s0.freereg, i, v, cmp, nactvar);
      return Ok, e.(k := VK(i));
    }

    /** The case of a number in `luaK_exp2RK`. */
    method KeepNum(e: Exp, ghost s0: FS, ghost x: Expr) returns (r: Status, e': Exp)
      requires Compiled(s0, View(), e, x, cmp, nactvar) && e.t == NO_JUMP && e.f == NO_JUMP && e.k.VNUM?
      modifies `k, `constants
      ensures Limit(r, |code|, |k|, 0) && |code| <= |old(code)| && |k| <= |old(k)| + 1
      ensures r.Ok? ==> Compiled(s0, View(), e', x, cmp, nactvar) && e'.t == NO_JUMP && e'.f == NO_JUMP && e'.k.VK?
    {
      hide Ready;
      ghost var s := View();
      ReadyRegs(s0, s, e, x, cmp, nactvar);
      e' := e;
      var i :- AddK(NumVal(e.k.n));
      MoreKReady(s0, s, e, x, s0.freereg, k, cmp, nactvar);
      NumReady(s0, View(), e, x, s0.freereg, i, cmp, nactvar);
      return Ok, e.(k := VK(i));
    }

    /** A value without jumps, as a small constant or in a register. */
    method Val2RK(e: Exp, ghost s0: FS, ghost x: Expr) returns (r: Status, e': Exp)
      requires Compiled(s0, View(), e, x, cmp, nactvar) && e.t == NO_JUMP && e.f == NO_JUMP && maxstacksize < MAXREGS
      modifies `code, `jpc, `D, `lasttarget, `k, `constants, `freereg, `maxstacksize
      ensures Limit(r, |code|, |k|, s0.freereg) && |code| <= |old(code)| + 4 && |k| <= |old(k)| + 2
      ensures maxstacksize < MAXREGS
      ensures r.Ok? ==> ReadyOp(s0, View(), e'.k, x, s0.freereg, cmp, nactvar) && RegsOk(View(), e'.k, s0.freereg, nactvar)
      ensures r.Ok? ==> e'.t == NO_JUMP && e'.f == NO_JUMP && (e'.k.VK? ==> e'.k.i <= MAXINDEXRK)
    {
      hide Ready, ReadyOp;
      e' := e;
      if e.k.VNUM? {
        e' :- KeepNum(e, s0, x);
      } else if (e.k == VTRUE || e.k == VFALSE || e.k == VNIL) && |k| <= MAXINDEXRK {
        r, e' := KeepConst(e, if e.k == VNIL then Nil else Bool(e.k == VTRUE), s0, x);
        return;
      }
      if !e'.k.VK? || e'.k.i > MAXINDEXRK {
        e' :- Exp2AnyReg(e', s0, x);
      }
      OperandReady(s0, View(), e', x, s0.freereg, cmp, nactvar);
      return Ok, e';
    }

    /** `luaK_exp2RK`. */
    method Exp2RK(e: Exp, ghost s0: FS, ghost x: Expr) returns (r: Status, e': Exp)
      requires Compiled(s0, View(), e, x, cmp, nactvar) && maxstacksize < MAXREGS
      modifies `code, `jpc, `D, `lasttarget, `k, `constants, `freereg, `maxstacksize
      ensures Limit(r, |code|, |k|, s0.freereg) && |code| <= |old(code)| + 8 && |k| <= |old(k)| + 3
      ensures maxstacksize < MAXREGS
      ensures r.Ok? ==> ReadyOp(s0, View(), e'.k, x, s0.freereg, cmp, nactvar) && RegsOk(View(), e'.k, s0.freereg, nactvar)
      ensures r.Ok? ==> e'.t == NO_JUMP && e'.f == NO_JUMP && (e'.k.VK? ==> e'.k.i <= MAXINDEXRK)
    {
      hide Compiled, ReadyOp, RegsOk;
      e' :- Exp2Val(e, s0, x);
      r, e' := Val2RK(e', s0, x);
    }

    // ---------- jumps on conditions ----------

    /** `jumponcond`: a jump taken if the value counts as `cond`. */
    method JumpOnCond(e: Exp, cond: bool, ghost s0: FS, ghost x: Expr) returns (r: Status, pc: nat)
      requires Compiled(s0, View(), e, x, cmp, nactvar) && !e.k.VLOCAL? && !e.k.VJMP? && maxstacksize < MAXREGS
      modifies `code, `jpc, `D, `k, `constants, `freereg, `maxstacksize
      ensures Limit(r, |code|, |k|, s0.freereg) && |code| <= |old(code)| + 3 && |k| <= |old(k)| + 1
      ensures maxstacksize < MAXREGS
      ensures r.Ok? ==> Loose(s0, View(), e.t, e.f, pc, cond, x, s0.freereg, Truth(!cond), cmp, nactvar) && freereg == s0.freereg
    {
      hide Ready, Tied, Loose, Listed, Inv;
      ghost var s := View();
      ReadyRegs(s0, s, e, x, cmp, nactvar);
      InvParts(s, cmp, nactvar);
      pc := 0;
      if e.k.VRELOCABLE? {
        LooseNot(s0, s, e, cond, x, s0.freereg, cmp, nactvar);
        var ie := code[e.k.pc];
        code := code[..|code| - 1];
        NoElems(code);
        PatchNone(code, |code|, NO_REG, |code|);
        pc :- CondJump(TEST(ie.B, !cond));
      } else {
        var e' :- Discharge2AnyReg(e, s0, x);
        ghost var s1 := View();
        ReadyRegs(s0, s1, e', x, cmp, nactvar);
        InvParts(s1, cmp, nactvar);
        FreeExp(e', s0.freereg);
        FreeReady(s0, s1, e', x, s0.freereg, freereg, cmp, nactvar);
        LooseTest(s0, View(), e', e'.k.r, cond, x, s0.freereg, cmp, nactvar);
        pc :- CondJump(TESTSET(NO_REG, e'.k.r, cond));
      }
      return Ok, pc;
    }

    /** `invertjump`. */
    method InvertJump(pc: nat)
      requires 0 < pc < |code| && code[pc - 1].COMPARE?
      modifies `code
      ensures View() == InvertFS(old(View()), pc)
    {
      var i := code[pc - 1];
      code := code[pc - 1 := COMPARE(i.rel, !i.want, i.B, i.C)];
    }

    /** `luaK_goiftrue`: control goes on if the value is true; the jumps taken if it is false are in the
        list returned. */
    method GoIfTrue(e: Exp, ghost s0: FS, ghost x: Expr) returns (r: Status, f: int)
      requires Compiled(s0, View(), e, x, cmp, nactvar) && maxstacksize < MAXREGS
      modifies `code, `jpc, `D, `lasttarget, `k, `constants, `freereg, `maxstacksize
      ensures Limit(r, |code|, |k|, s0.freereg) && |code| <= |old(code)| + 3 && |k| <= |old(k)| + 1
      ensures maxstacksize < MAXREGS
      ensures r.Ok? ==> Tied(s0, View(), NO_JUMP, f, x, s0.freereg, Truth(true), cmp, nactvar) && freereg == s0.freereg
    {
      hide Ready, Tied, Loose, Listed, Inv, Joined, Lists;
      ghost var fr := s0.freereg;
      ReadyRegs(s0, View(), e, x, cmp, nactvar);
      if e.k.VLOCAL? {
        LocalReady(s0, View(), e, x, fr, cmp, nactvar);
      }
      var d := DischargeVars(e);
      f := d.f;
      if d.k == VTRUE || d.k.VK? || d.k.VNUM? {
        ConstStep(s0, View(), d, true, x, fr, cmp, nactvar);
      } else {
        var pc: nat := 0;
        if d.k.VJMP? {
          pc := d.k.pc;
          LooseCompare(s0, View(), d, false, x, fr, cmp, nactvar);
          ComparePlace(s0, View(), d, x, cmp, nactvar);
          InvertJump(pc);
        } else {
          pc :- JumpOnCond(d, false, s0, x);
        }
        ghost var s := View();
        ghost var fin := if d.k.VJMP? then Known(true) else Truth(true);
        LooseLists(s0, s, d.t, d.f, pc, false, x, fr, fin, cmp, nactvar);
        f :- Concat(d.f, pc);
        JoinStep(s0, s, code, d.t, d.f, pc, f, false, x, fr, fin, cmp, nactvar);
        if d.k.VJMP? {
          KnownStepTruth(s0, View(), d.t, f, x, fr, true, cmp, nactvar);
        }
      }
      ghost var s1 := View();
      HereLists(s0, s1, d.t, f, d.t, x, fr, Truth(true), cmp, nactvar);
      :- PatchToHere(d.t);
      HereStep(s0, s1, View(), d.t, f, true, x, fr, cmp, nactvar);
      return Ok, f;
    }

    /** `luaK_goiffalse`. */
    method GoIfFalse(e: Exp, ghost s0: FS, ghost x: Expr) returns (r: Status, t: int)
      requires Compiled(s0, View(), e, x, cmp, nactvar) && maxstacksize < MAXREGS
      modifies `code, `jpc, `D, `lasttarget, `k, `constants, `freereg, `maxstacksize
      ensures Limit(r, |code|, |k|, s0.freereg) && |code| <= |old(code)| + 3 && |k| <= |old(k)| + 1
      ensures maxstacksize < MAXREGS
      ensures r.Ok? ==> Tied(s0, View(), t, NO_JUMP, x, s0.freereg, Truth(false), cmp, nactvar) && freereg == s0.freereg
    {
      hide Ready, Tied, Loose, Listed, Inv, Joined, Lists;
      ghost var fr := s0.freereg;
      ReadyRegs(s0, View(), e, x, cmp, nactvar);
      if e.k.VLOCAL? {
        LocalReady(s0, View(), e, x, fr, cmp, nactvar);
      }
      var d := DischargeVars(e);
      t := d.t;
      if d.k == VNIL || d.k == VFALSE {
        ConstStep(s0, View(), d, false, x, fr, cmp, nactvar);
      } else {
        var pc: nat := 0;
        if d.k.VJMP? {
          pc := d.k.pc;
          LooseCompare(s0, View(), d, true, x, fr, cmp, nactvar);
        } else {
          pc :- JumpOnCond(d, true, s0, x);
        }
        ghost var s := View();
        ghost var fin := if d.k.VJMP? then Known(false) else Truth(false);
        LooseLists(s0, s, d.t, d.f, pc, true, x, fr, fin, cmp, nactvar);
        t :- Concat(d.t, pc);
        JoinStep(s0, s, code, d.t, d.f, pc, t, true, x, fr, fin, cmp, nactvar);
        if d.k.VJMP? {
          KnownStepTruth(s0, View(), t, d.f, x, fr, false, cmp, nactvar);
        }
      }
      ghost var s1 := View();
      HereLists(s0, s1, t, d.f, d.f, x, fr, Truth(false), cmp, nactvar);
      :- PatchToHere(d.f);
      HereStep(s0, s1, View(), t, d.f, false, x, fr, cmp, nactvar);
      return Ok, t;
    }

    // ---------- operators ----------

    /** The `switch` of `codenot`: the kind of the negated value. */
    method NegateKind(e: Exp, ghost s0: FS, ghost x: Expr) returns (r: Status, d: Exp)
      requires Compiled(s0, View(), e, x, cmp, nactvar) && maxstacksize < MAXREGS
      modifies `code, `jpc, `D, `lasttarget, `k, `constants, `freereg, `maxstacksize
      ensures Limit(r, |code|, |k|, s0.freereg) && |code| <= |old(code)| + 2 && |k| <= |old(k)| + 1
      ensures maxstacksize < MAXREGS
      ensures r.Ok? ==> ReadyNot(s0, View(), d, x, s0.freereg, cmp, nactvar) && freereg == s0.freereg && !d.k.VNONRELOC?
    {
      hide Ready, ReadyNot, Inv, Lists, Listed;
      ghost var fr := s0.freereg;
      ReadyRegs(s0, View(), e, x, cmp, nactvar);
      if e.k.VLOCAL? {
        LocalReady(s0, View(), e, x, fr, cmp, nactvar);
      }
      d := DischargeVars(e);
      if d.k == VNIL || d.k == VFALSE {
        NotConstStep(s0, View(), d, x, fr, cmp, nactvar);
        d := d.(k := VTRUE);
      } else if d.k == VTRUE || d.k.VK? || d.k.VNUM? {
        NotConstStep(s0, View(), d, x, fr, cmp, nactvar);
        d := d.(k := VFALSE);
      } else if d.k.VJMP? {
        NotJmpStep(s0, View(), d, x, fr, cmp, nactvar);
        ComparePlace(s0, View(), d, x, cmp, nactvar);
        InvertJump(d.k.pc);
      } else {
        r, d := NegateReg(d, s0, x);
        return;
      }
      return Ok, d;
    }

    /** The case of a value that is or will be in a register. */
    method NegateReg(e: Exp, ghost s0: FS, ghost x: Expr) returns (r: Status, d: Exp)
      requires Compiled(s0, View(), e, x, cmp, nactvar) && maxstacksize < MAXREGS && !e.k.VLOCAL? && !e.k.VJMP?
      modifies `code, `jpc, `D, `lasttarget, `k, `constants, `freereg, `maxstacksize
      ensures Limit(r, |code|, |k|, s0.freereg) && |code| <= |old(code)| + 2 && |k| <= |old(k)| + 1
      ensures maxstacksize < MAXREGS
      ensures r.Ok? ==> ReadyNot(s0, View(), d, x, s0.freereg, cmp, nactvar) && freereg == s0.freereg && d.k.VRELOCABLE?
    {
      hide Ready, ReadyNot, Inv, Lists, Listed;
      ghost var fr := s0.freereg;
      d :- Discharge2AnyReg(e, s0, x);
      ghost var s1 := View();
      ReadyRegs(s0, s1, d, x, cmp, nactvar);
      FreeExp(d, fr);
      FreeReady(s0, s1, d, x, fr, freereg, cmp, nactvar);
      InvParts(s1, cmp, nactvar);
      NotRegStep(s0, View(), d, d.k.r, x, fr, cmp, nactvar);
      var pc :- Code(NOT(0, d.k.r));
      return Ok, d.(k := VRELOCABLE(pc));
    }

    /** `codenot`. */
    method CodeNot(e: Exp, ghost s0: FS, ghost x: Expr) returns (r: Status, e': Exp)
      requires Compiled(s0, View(), e, x, cmp, nactvar) && maxstacksize < MAXREGS
      modifies `code, `jpc, `D, `lasttarget, `k, `constants, `freereg, `maxstacksize
      ensures Limit(r, |code|, |k|, s0.freereg) && |code| <= |old(code)| + 2 && |k| <= |old(k)| + 1
      ensures maxstacksize < MAXREGS
      ensures r.Ok? ==> Compiled(s0, View(), e', NotE(x), cmp, nactvar)
    {
      hide Ready, ReadyNot, Listed, Elems, EmptyCode, Limit;
      e' := e;
      var d :- NegateKind(e, s0, x);
      e' := Exp(d.k, d.f, d.t);
      ghost var s := View();
      NotLists(s0, s, d, x, s0.freereg, cmp, nactvar);
      EmptyList(s.code, Elems(s.code, e'.f), e'.t);
      EmptyTwice(s.code, Elems(s.code, e'.f), Elems(s.code, e'.t));
      RemoveValues(e'.f);
      RemoveValues(e'.t);
      assert Elems(s.code, d.t) + Elems(s.code, d.f) == Elems(s.code, e'.f) + Elems(s.code, e'.t);
      SwapStep(s0, s, d, x, s0.freereg, cmp, nactvar);
      LimitOk(|code|, |k|, s0.freereg);
      return Ok, e';
    }

    /** `codecomp`; the first operand has been made a constant or register by `luaK_infix`. */
    method CodeComp(op: RelOp, e1: Exp, e2: Exp, ghost s0: FS, ghost m: FS, ghost x: Expr, ghost y: Expr)
      returns (r: Status, e: Exp)
      requires Operands(s0, m, View(), e1.k, e2, x, y, cmp, nactvar) && maxstacksize < MAXREGS
      modifies `code, `jpc, `D, `lasttarget, `k, `constants, `freereg, `maxstacksize
      ensures Limit(r, |code|, |k|, m.freereg) && |code| <= |old(code)| + 10 && |k| <= |old(k)| + 3
      ensures maxstacksize < MAXREGS
      ensures r.Ok? ==> Compiled(s0, View(), e, RelE(op, x, y), cmp, nactvar)
    {
      hide Operands, Ready, ReadyOp, Compiled, Listed, Inv, Emit, RegsOk;
      e := e1;
      OperandsAre(s0, m, View(), e1.k, e2, x, y, cmp, nactvar);
      var o1 := AsRK(e1.k);
      var d :- Exp2RK(e2, m, y);
      ghost var s := View();
      OperandParts(m, s, d.k, y, m.freereg, cmp, nactvar);
      var o2 := AsRK(d.k);
      FreeExp(d, m.freereg);
      RegsSame(m, View(), e1.k, s0.freereg, nactvar);
      FreeExp(e1, s0.freereg);
      RelFreed(s0, m, s, e1.k, d.k, op, x, y, cmp, nactvar);
      var rel := match op case Eq => EQ case Ne => EQ case Lt => LT case Gt => LT case Le => LE case Ge => LE;
      var cond := op.Eq? || op.Lt? || op.Le?;
      if !cond && rel != EQ {
        o1, o2, cond := o2, o1, true;
      }
      var j :- CondJump(COMPARE(rel, cond, o1, o2));
      CompiledJmp(s0, View(), Exp(VJMP(j), NO_JUMP, NO_JUMP), RelE(op, x, y), cmp, nactvar);
      return Ok, Exp(VJMP(j), NO_JUMP, NO_JUMP);
    }

    /** `luaK_infix` for `and` (`b`) and `or`. */
    method InfixLogic(b: bool, e: Exp, ghost s0: FS, ghost y: Expr) returns (r: Status, l: int)
      requires Compiled(s0, View(), e, y, cmp, nactvar) && maxstacksize < MAXREGS
      modifies `code, `jpc, `D, `lasttarget, `k, `constants, `freereg, `maxstacksize
      ensures Limit(r, |code|, |k|, s0.freereg) && |code| <= |old(code)| + 3 && |k| <= |old(k)| + 1
      ensures maxstacksize < MAXREGS
      ensures r.Ok? ==> Branched(b, s0, View(), l, y, cmp, nactvar) && freereg == s0.freereg && Inv(View(), cmp, nactvar)
    {
      hide Compiled, Tied, Inv;
      if b {
        r, l := GoIfTrue(e, s0, y);
      } else {
        r, l := GoIfFalse(e, s0, y);
      }
      if r.Ok? {
        TiedParts(s0, View(), if b then NO_JUMP else l, if b then l else NO_JUMP, y, s0.freereg, Truth(b), cmp, nactvar);
      }
    }

    /** `luaK_posfix` for `and` (`b`) and `or`: the list of the first operand joins that of the second. */
    method PosfixLogic(b: bool, l: int, e2: Exp, ghost s0: FS, ghost m: FS, ghost x: Expr, ghost y: Expr, ghost z: Expr)
      returns (r: Status, e: Exp)
      requires IsLogic(b, x, y, z) && Branched(b, s0, m, l, y, cmp, nactvar)
      requires Compiled(m, View(), e2, z, cmp, nactvar) && m.freereg == s0.freereg && UsesLocals(z, nactvar) && nactvar <= s0.freereg
      modifies `code
      ensures Limit(r, |code|, |k|, 0) && |code| <= |old(code)| && |k| <= |old(k)|
      ensures r.Ok? ==> Compiled(s0, View(), e, x, cmp, nactvar)
    {
      hide Listed, Compiled, Tied, Joined;
      ghost var s := View();
      CompiledVars(m, s, e2, z, cmp, nactvar);
      e := DischargeVars(e2);
      LogicLists(s0, m, s, l, e, b, y, z, cmp, nactvar);
      var l' :- Concat(if b then e.f else e.t, l);
      LogicCompiled(s0, m, s, l, e, code, l', b, y, z, cmp, nactvar);
      return Ok, LogicExp(e, b, l');
    }

    /** The second operand of `and` (`b`) or `or`, after the jumps of the first. */
    method SecondOperand(b: bool, l: int, z: Expr, ghost s0: FS, ghost x: Expr, ghost y: Expr) returns (r: Status, e: Exp)
      requires IsLogic(b, x, y, z) && Branched(b, s0, View(), l, y, cmp, nactvar) && Inv(View(), cmp, nactvar)
      requires freereg == s0.freereg && UsesLocals(z, nactvar) && nactvar <= s0.freereg && maxstacksize < MAXREGS
      modifies `code, `jpc, `D, `lasttarget, `k, `constants, `freereg, `maxstacksize
      ensures Limit(r, |code|, |k|, s0.freereg + Registers(z) - 1) && |code| <= |old(code)| + CodeFor(z) && |k| <= |old(k)| + ConstantsFor(z)
      ensures maxstacksize < MAXREGS
      ensures r.Ok? ==> Compiled(s0, View(), e, x, cmp, nactvar)
      decreases z, 2
    {
      hide Inv, Listed, JumpsOk, WF, Compiled, Branched, IsLogic, UsesLocals, Registers, CodeFor, ConstantsFor;
      ghost var m := View();
      e :- CompileExpr(z);
      e :- PosfixLogic(b, l, e, s0, m, x, y, z);
      return Ok, e;
    }

    /** `and` (`b`) and `or` in `subexpr`. */
    method CompileLogic(b: bool, y: Expr, z: Expr, ghost x: Expr) returns (r: Status, e: Exp)
      requires Inv(View(), cmp, nactvar) && UsesLocals(x, nactvar) && maxstacksize < MAXREGS && IsLogic(b, x, y, z)
      modifies `code, `jpc, `D, `lasttarget, `k, `constants, `freereg, `maxstacksize
      ensures Limit(r, |code|, |k|, old(freereg) + Registers(x) - 1) && |code| <= |old(code)| + CodeFor(x) && |k| <= |old(k)| + ConstantsFor(x)
      ensures maxstacksize < MAXREGS
      ensures r.Ok? ==> Compiled(old(View()), View(), e, x, cmp, nactvar)
      decreases x, 0
    {
      hide Inv, Listed, JumpsOk, WF, Compiled, Branched, IsLogic, UsesLocals, Registers, CodeFor, ConstantsFor;
      ghost var s0 := View();
      InvParts(s0, cmp, nactvar);
      LogicBounds(b, x, y, z, nactvar);
      e :- CompileExpr(y);
      var l :- InfixLogic(b, e, s0, y);
      e :- SecondOperand(b, l, z, s0, x, y);
      return Ok, e;
    }

    /** Comparisons in `subexpr`. */
    method CompileRel(x: Expr) returns (r: Status, e: Exp)
      requires Inv(View(), cmp, nactvar) && UsesLocals(x, nactvar) && maxstacksize < MAXREGS && x.RelE?
      modifies `code, `jpc, `D, `lasttarget, `k, `constants, `freereg, `maxstacksize
      ensures Limit(r, |code|, |k|, old(freereg) + Registers(x) - 1) && |code| <= |old(code)| + CodeFor(x) && |k| <= |old(k)| + ConstantsFor(x)
      ensures maxstacksize < MAXREGS
      ensures r.Ok? ==> Compiled(old(View()), View(), e, x, cmp, nactvar)
      decreases x, 0
    {
      hide Inv, Listed, JumpsOk, WF, Compiled, ReadyOp, UsesLocals, Registers, CodeFor, ConstantsFor, Operands;
      ghost var s0 := View();
      InvParts(s0, cmp, nactvar);
      PartBounds(x, nactvar);
      e :- CompileExpr(x.l);
      e :- Exp2RK(e, s0, x.l);
      ghost var m := View();
      OperandParts(s0, m, e.k, x.l, s0.freereg, cmp, nactvar);
      var e2 :- CompileExpr(x.r1);
      BothOperands(s0, m, View(), e.k, e2, x.l, x.r1, cmp, nactvar);
      e :- CodeComp(x.op, e, e2, s0, m, x.l, x.r1);
      return Ok, e;
    }

    /** `subexpr`, on an expression already parsed: the calls that the parser makes, in its order. */
    method CompileExpr(x: Expr) returns (r: Status, e: Exp)
      requires Inv(View(), cmp, nactvar) && UsesLocals(x, nactvar) && maxstacksize < MAXREGS
      modifies `code, `jpc, `D, `lasttarget, `k, `constants, `freereg, `maxstacksize
      ensures Limit(r, |code|, |k|, old(freereg) + Registers(x) - 1) && |code| <= |old(code)| + CodeFor(x) && |k| <= |old(k)| + ConstantsFor(x)
      ensures maxstacksize < MAXREGS
      ensures r.Ok? ==> Compiled(old(View()), View(), e, x, cmp, nactvar)
      decreases x, 1
    {
      hide Inv, Listed, JumpsOk, WF, Compiled, Ready, UsesLocals, Registers, CodeFor, ConstantsFor;
      ghost var s0 := View();
      InvParts(s0, cmp, nactvar);
      e := Exp(VNIL, NO_JUMP, NO_JUMP);
      LeafBound(x);
      if x.NotE? || x.Paren? {
        PartBound(x, nactvar);
      }
      match x {
        case NotE(y) =>
          e :- CompileExpr(y);
          e :- CodeNot(e, s0, y);
        case AndE(y, z) =>
          e :- CompileLogic(true, y, z, x);
        case OrE(y, z) =>
          e :- CompileLogic(false, y, z, x);
        case RelE(_, _, _) =>
          e :- CompileRel(x);
        case Paren(y) =>
          e :- CompileExpr(y);
          CompiledVars(s0, View(), e, y, cmp, nactvar);
          e := DischargeVars(e);
          CompiledParen(s0, View(), e, y, cmp, nactvar);
        case Str(v) =>
          var i :- AddK(StrVal(v));
          SimpleReady(s0, View(), x, i, cmp, nactvar);
          e := Exp(VK(i), NO_JUMP, NO_JUMP);
        case _ =>
          SimpleReady(s0, View(), x, 0, cmp, nactvar);
          e := Exp(Simple(x, 0), NO_JUMP, NO_JUMP);
      }
      return Ok, e;
    }

    // ---------- statements ----------

    /** `luaK_storevar`, for a local variable in register `v`. */
    method StoreLocal(v: nat, e: Exp, ghost s0: FS, ghost x: Expr) returns (r: Status)
      requires Compiled(s0, View(), e, x, cmp, nactvar) && v < nactvar && maxstacksize < MAXREGS
      modifies `code, `jpc, `D, `lasttarget, `k, `constants, `freereg
      ensures Limit(r, |code|, |k|, 0) && |code| <= |old(code)| + 4 && |k| <= |old(k)| + 1
      ensures r.Ok? ==> Tied(s0, View(), NO_JUMP, NO_JUMP, x, s0.freereg, InReg(v), cmp, nactvar) && freereg == s0.freereg
    {
      hide Ready, Tied, Inv;
      ghost var s := View();
      ReadyRegs(s0, s, e, x, cmp, nactvar);
      if e.k.VLOCAL? {
        LocalReady(s0, s, e, x, s0.freereg, cmp, nactvar);
      }
      var d := DischargeVars(e);
      FreeExp(d, s0.freereg);
      FreeReady(s0, s, d, x, s0.freereg, freereg, cmp, nactvar);
      var home :- Exp2Reg(d, v, s0, x, s0.freereg);
      return Ok;
    }

    /** `luaK_ret`, of one value. */
    method Ret(first: nat) returns (r: Status)
      requires Listed(code, jpc)
      modifies `code, `jpc
      ensures Limit(r, |code|, |k|, 0) && |code| <= |old(code)| + 1 && |k| <= |old(k)|
      ensures r.Ok? ==> View() == Emit(old(View()), [RETURN(first, 2)])
    {
      var pc :- Code(RETURN(first, 2));
      return Ok;
    }

    /** A function with `n` local variables. */
    constructor (n: nat, ghost cmp: Compare)
      requires n <= 200
      ensures Inv(View(), cmp, nactvar) && nactvar == n && this.cmp == cmp && freereg == n && maxstacksize < MAXREGS
      ensures code == [] && D == map[] && jpc == NO_JUMP && k == []
    {
      code, jpc, lasttarget, freereg, k, constants := [], NO_JUMP, 0, n, [], map[];
      maxstacksize := if n > 2 then n else 2;
      nactvar := n;
      D := map[];
      this.cmp := cmp;
      new;
      NoElems(code);
    }
  }

  lemma OneElement(code: seq<Instr>, j: nat)
    requires j < |code| && code[j].JMP? && code[j].sBx == NO_JUMP
    ensures Listed(code, j) && Elements(code, j) == [j]
  {
    assert IsList(code, NO_JUMP, []);
    assert IsList(code, j, [j]);
    SingleList(code, j);
    ListUnique(code, j, Elements(code, j), [j]);
  }

  lemma JumpedTo(s: FS, code: seq<Instr>, j: nat)
    requires j == |s.code| && Listed(s.code, s.jpc)
    requires code == if s.jpc == NO_JUMP then s.code + [JMP(NO_JUMP)] else (s.code + [JMP(NO_JUMP)])[j := JMP(s.jpc - (j + 1))]
    ensures code == JumpFS(s).code
  {
  }

  predicate CanMerge(s: FS, from: nat, n: nat)
    requires n > 0
  {
    && |s.code| > s.lasttarget && s.code[|s.code| - 1].LOADNIL?
    && var i := s.code[|s.code| - 1];
    || (i.A <= from <= i.A + i.n + 1)
    || (from <= i.A <= from + n)
  }

  /** The `LOADNIL` at the end now also covers `n` registers from `from` on. */
  function MergeN(s: FS, from: nat, n: nat): FS
    requires n > 0 && CanMerge(s, from, n)
  {
    var i := s.code[|s.code| - 1];
    var first, last := if i.A < from then i.A else from, if i.A + i.n > from + n - 1 then i.A + i.n else from + n - 1;
    s.(code := s.code[|s.code| - 1 := LOADNIL(first, last - first)])
  }

  lemma MergeOne(s: FS, reg: nat)
    requires CanMerge(s, reg, 1)
    ensures MergeN(s, reg, 1) == MergeFS(s, reg)
  {
  }

  lemma TiedParts(s0: FS, s: FS, t: int, f: int, x: Expr, fr: nat, fin: Final, cmp: Compare, n: nat)
    requires Tied(s0, s, t, f, x, fr, fin, cmp, n)
    ensures Inv(s, cmp, n) && Lists(s, t, f) && Listed(s.code, t) && Listed(s.code, f) && Elems(s.code, t) !! Elems(s.code, f)
    ensures Framed(s0, s, Elems(s.code, t) + Elems(s.code, f))
  {
  }

  lemma LastNoTest(s: FS, cmp: Compare, n: nat)
    requires Inv(s, cmp, n)
    ensures |s.code| > 0 ==> !IsTest(s.code[|s.code| - 1])
  {
    EndCut(Abs(s, cmp));
  }

  lemma JumpListed(s: FS)
    ensures Listed(JumpFS(s).code, JumpFS(s).jpc)
  {
    NoElems(JumpFS(s).code);
  }

  lemma EmitListed(s: FS, more: seq<Instr>)
    ensures Listed(Emit(s, more).code, Emit(s, more).jpc)
  {
    NoElems(Emit(s, more).code);
  }

  /** Two labelled loads. */
  lemma LabelsEmit(v0: FS, v: FS, reg: nat)
    requires v == Emit(Emit(v0, [LOADBOOL(reg, false, true)]).(lasttarget := |v0.code|), [LOADBOOL(reg, true, false)]).(lasttarget := |v0.code| + 1)
    ensures v == Emit(v0, Loaders(reg)).(lasttarget := |v0.code| + 1)
  {
    var u := Emit(v0, [LOADBOOL(reg, false, true)]);
    EmitEmit(v0, LOADBOOL(reg, false, true), LOADBOOL(reg, true, false));
    assert Here(u.(lasttarget := |v0.code|)) == Here(u);
  }

  /** The list of the jump over the loads is intact after them. */
  lemma SkipList(s: FS, v0: FS, v: FS, fj: int, isJump: bool, reg: nat, cmp: Compare, n: nat)
    requires Inv(s, cmp, n) && v0 == (if isJump then s else JumpFS(s)) && v == Emit(v0, Loaders(reg)).(lasttarget := v.lasttarget)
    requires fj == if isJump then NO_JUMP else |s.code|
    ensures Listed(v.code, v.jpc) && Listed(v.code, fj) && Elems(v.code, v.jpc) == {}
    ensures Elems(v.code, fj) == if isJump then {} else Here(s) + {|s.code|}
  {
    hide Inv;
    NoElems(v.code);
    if !isJump {
      InvParts(s, cmp, n);
      JumpList(s);
      NoElems(v0.code);
      PatchNone(v0.code, |v0.code|, NO_REG, |v0.code|);
      assert v.code == v0.code + Loaders(reg);
      ElemsIn(v0.code, fj);
      ElemsSame(v0.code, v.code, fj);
    }
  }

  lemma NothingHere(v: FS, u: FS)
    requires MovedHere(v, u, {}) && v.jpc == NO_JUMP && Elems(v.code, v.jpc) == {}
    ensures u == v.(lasttarget := |v.code|)
  {
    ElemsIn(u.code, u.jpc);
    assert u.code == v.code;
    assert u.D == v.D;
  }

  lemma LoadersThere(s: FS, v0: FS, v: FS, u: FS, isJump: bool, reg: nat)
    requires v0 == (if isJump then s else JumpFS(s)) && v == Emit(v0, Loaders(reg)).(lasttarget := v.lasttarget)
    requires Relinked(v.code, u.code, Elems(v.code, v.jpc)) && Elems(v.code, v.jpc) == {} && u.lasttarget == |v.code|
    requires |s.code| > 0 ==> isJump ==> !IsTest(s.code[|s.code| - 1])
    ensures u.lasttarget == |u.code| == |v0.code| + 2
    ensures |v0.code| > 0 ==> LoadersAt(u, reg)
  {
    assert u.code == v.code;
    assert u.code[|v0.code| + 0] == Loaders(reg)[0] && u.code[|v0.code| + 1] == Loaders(reg)[1];
    if |v0.code| > 0 {
      assert u.code[|v0.code| - 1] == PatchAt(v0.code, Here(v0), |v0.code|, NO_REG, |v0.code|, |v0.code| - 1);
    }
  }

  lemma ReadyLists(s0: FS, s: FS, e: Exp, x: Expr, fr: nat, cmp: Compare, n: nat)
    requires Ready(s0, s, e, x, fr, cmp, n) && e.k.VJMP?
    ensures Listed(s.code, e.t) && Listed(s.code, e.k.pc) && Elems(s.code, e.k.pc) == {e.k.pc} && Elems(s.code, e.t) !! {e.k.pc}
    ensures 0 < e.k.pc < |s.code| && s.code[e.k.pc - 1].COMPARE?
  {
    hide Inv, Framed, Sem, Elems;
    ReadyTies(s0, s, e, x, fr, cmp, n);
    CompareShape(s0, s, e, cmp, n);
    SingleList(s.code, e.k.pc);
  }

  /** The comparison is in the list, and brings no value. */
  lemma CompareListed(s: FS, e: Exp, code': seq<Instr>, l: int, cmp: Compare, n: nat)
    requires e.k.VJMP? && 0 < e.k.pc < |s.code| && s.code[e.k.pc - 1].COMPARE? && Elems(s.code, e.k.pc) == {e.k.pc}
    requires Joined(s.code, code', e.t, e.k.pc, l)
    ensures e.k.pc in Elems(code', l) && !ValueJump(code', e.k.pc)
  {
  }

  ghost predicate AllValues(s: FS, L: set<nat>) {
    forall q :: q in L ==> ValueJump(s.code, q)
  }

  lemma LoaderEither(s: FS, L: set<nat>, M: set<nat>, reg: nat, b: bool, dtarget: int, need: bool)
    requires L <= M && (need ==> LoadersAt(s, reg) && dtarget == |s.code| - if b then 1 else 2) && (!need ==> AllValues(s, M))
    ensures LoaderOk(s, L, reg, b, dtarget)
  {
  }

  ghost function TargetMap(s: FS, L: set<nat>, dtarget: int): map<nat, nat> {
    map q | q in L :: if TargetOf(s.code, q, |s.code|, dtarget) >= 0 then TargetOf(s.code, q, |s.code|, dtarget) as nat else 0
  }

  lemma PatchedIs(s: FS, u: FS, L: set<nat>, reg: nat, b: bool, dtarget: int)
    requires LoaderOk(s, L, reg, b, dtarget)
    requires u == s.(code := PatchCode(s.code, L, |s.code|, reg, dtarget), D := s.D + TargetMap(s, L, dtarget))
    ensures PatchedFS(s, u, L, reg, dtarget)
  {
    forall q | q in L
      ensures TargetOf(s.code, q, |s.code|, dtarget) >= 0
    {
    }
    assert TargetMap(s, L, dtarget) == map q | q in L :: TargetOf(s.code, q, |s.code|, dtarget) as nat;
  }

  lemma LoadersStill(s: FS, u: FS, F: set<nat>, T: set<nat>, reg: nat, dtarget: int, need: bool)
    requires PatchedFS(s, u, F, reg, dtarget) && T !! F && (need ==> LoadersAt(s, reg)) && (!need ==> AllValues(s, T + F))
    requires forall q :: q in T + F ==> q < |s.code| && s.code[q].JMP?
    ensures if need then LoadersAt(u, reg) else AllValues(u, T)
  {
    assert forall p :: 0 <= p < |s.code| ==> u.code[p] == PatchAt(s.code, F, |s.code|, reg, dtarget, p);
    var l := |s.code|;
    if need {
      assert u.code[l - 1] == PatchAt(s.code, F, |s.code|, reg, dtarget, l - 1);
      assert u.code[l - 2] == PatchAt(s.code, F, |s.code|, reg, dtarget, l - 2);
      assert u.code[l - 3] == PatchAt(s.code, F, |s.code|, reg, dtarget, l - 3);
    } else {
      forall q | q in T
        ensures ValueJump(u.code, q)
      {
        assert ValueJump(s.code, q);
        assert u.code[q - 1] == PatchAt(s.code, F, |s.code|, reg, dtarget, q - 1);
      }
    }
  }

  lemma ReadyRegs(s0: FS, s: FS, e: Exp, x: Expr, cmp: Compare, n: nat)
    requires Compiled(s0, s, e, x, cmp, n)
    ensures Inv(s, cmp, n) && Lists(s, e.t, e.f) && n <= s.freereg < MAXREGS && |s.k| <= MAXARG_BX + 1
    ensures n <= s0.freereg && (e.k.VLOCAL? ==> e.k.r < n)
  {
    hide Inv, Lists, Framed, Sem, WF;
    ReadyTies(s0, s, e, x, s0.freereg, cmp, n);
    InvParts(s, cmp, n);
  }

  lemma ComparePlace(s0: FS, s: FS, e: Exp, x: Expr, cmp: Compare, n: nat)
    requires Compiled(s0, s, e, x, cmp, n) && e.k.VJMP?
    ensures 0 < e.k.pc < |s.code| && s.code[e.k.pc - 1].COMPARE?
  {
    hide Ready, Shell, Inv, Lists, Framed, Sem;
    ReadyTies(s0, s, e, x, s0.freereg, cmp, n);
    CompareShape(s0, s, e, cmp, n);
  }

  /** What joining the loose jump to a list needs. */
  lemma LooseLists(s0: FS, s: FS, t: int, f: int, j: nat, b: bool, x: Expr, fr: nat, fin: Final, cmp: Compare, n: nat)
    requires Loose(s0, s, t, f, j, b, x, fr, fin, cmp, n)
    ensures var m := if b then t else f;
      Listed(s.code, m) && Listed(s.code, j) && Elems(s.code, m) !! Elems(s.code, j)
  {
    hide Inv, Framed, Sem, Elems;
    SingleList(s.code, j);
  }

  /** What sending a list here needs. */
  lemma HereLists(s0: FS, s: FS, t: int, f: int, l: int, x: Expr, fr: nat, fin: Final, cmp: Compare, n: nat)
    requires Tied(s0, s, t, f, x, fr, fin, cmp, n) && (l == t || l == f)
    ensures Listed(s.code, s.jpc) && Listed(s.code, l) && Elems(s.code, s.jpc) !! Elems(s.code, l)
  {
    hide Inv, Framed, Sem;
    InvParts(s, cmp, n);
    HereDisjoint(s);
  }

  lemma NotLists(s0: FS, s: FS, e: Exp, x: Expr, fr: nat, cmp: Compare, n: nat)
    requires ReadyNot(s0, s, e, x, fr, cmp, n)
    ensures Listed(s.code, e.t) && Listed(s.code, e.f)
  {
    hide Inv, Framed, SemNot, Elems;
  }

  lemma OperandParts(s0: FS, s: FS, k: Kind, x: Expr, fr: nat, cmp: Compare, n: nat)
    requires ReadyOp(s0, s, k, x, fr, cmp, n)
    ensures Operand(k) && Inv(s, cmp, n) && n <= s.freereg < MAXREGS && Listed(s.code, s.jpc)
  {
    hide Inv, Framed, Sem;
    InvParts(s, cmp, n);
  }

  lemma FreeOp(s0: FS, s: FS, k: Kind, x: Expr, fr: nat, v: nat, cmp: Compare, n: nat)
    requires ReadyOp(s0, s, k, x, fr, cmp, n) && n <= v < MAXREGS
    ensures ReadyOp(s0, s.(freereg := v), k, x, fr, cmp, n)
  {
    hide Inv, Sem, SameJumps, PendingSet, WF;
    FreeInv(s, v, cmp, n);
  }

  lemma {:induction false} UsesMore(x: Expr, n: nat, m: nat)
    requires UsesLocals(x, n) && n <= m
    ensures UsesLocals(x, m)
  {
    match x
    case NotE(e) => UsesMore(e, n, m);
    case AndE(l, r) => UsesMore(l, n, m); UsesMore(r, n, m);
    case OrE(l, r) => UsesMore(l, n, m); UsesMore(r, n, m);
    case RelE(_, l, r) => UsesMore(l, n, m); UsesMore(r, n, m);
    case Paren(e) => UsesMore(e, n, m);
    case _ =>
  }

  lemma CompiledJmp(s0: FS, s: FS, e: Exp, x: Expr, cmp: Compare, n: nat)
    requires Ready(s0, s, e, x, s0.freereg, cmp, n) && e.k.VJMP? && s.freereg == s0.freereg
    ensures Compiled(s0, s, e, x, cmp, n)
  {
    hide Ready;
  }

  lemma CompiledVars(s0: FS, s: FS, e: Exp, x: Expr, cmp: Compare, n: nat)
    requires Compiled(s0, s, e, x, cmp, n)
    ensures Compiled(s0, s, if e.k.VLOCAL? then e.(k := VNONRELOC(e.k.r)) else e, x, cmp, n)
  {
    hide Ready;
    if e.k.VLOCAL? {
      LocalReady(s0, s, e, x, s0.freereg, cmp, n);
    }
  }

  lemma CompiledParen(s0: FS, s: FS, e: Exp, x: Expr, cmp: Compare, n: nat)
    requires Compiled(s0, s, e, x, cmp, n)
    ensures Compiled(s0, s, e, Paren(x), cmp, n)
  {
    hide Shell, Sem;
    ReadyTies(s0, s, e, x, s0.freereg, cmp, n);
    ParenSem(Abs(s0, cmp), Abs(s, cmp), Elems(s.code, e.t), Elems(s.code, e.f), x, s0.freereg, Value(e.k));
  }

  lemma ParenSem(a: Code, c: Code, T: set<nat>, F: set<nat>, x: Expr, fr: nat, fin: Final)
    requires Sem(a, c, T, F, x, fr, fin)
    ensures Sem(a, c, T, F, Paren(x), fr, fin)
  {
    hide Run, FinalOk, ExitOk;
    forall R0: Regs
      ensures SemAt(a, c, T, F, Paren(x), fr, fin, R0)
    {
      assert SemAt(a, c, T, F, x, fr, fin, R0);
    }
  }

  /** What joining the list of the first operand to that of the second needs. */
  lemma LogicLists(s0: FS, m: FS, s: FS, l: int, e: Exp, b: bool, x: Expr, y: Expr, cmp: Compare, n: nat)
    requires Tied(s0, m, if b then NO_JUMP else l, if b then l else NO_JUMP, x, s0.freereg, Truth(b), cmp, n)
    requires Compiled(m, s, e, y, cmp, n)
    ensures var o := if b then e.f else e.t; Listed(s.code, o) && Listed(s.code, l) && Elems(s.code, o) !! Elems(s.code, l)
  {
    hide Shell, Inv, Framed, Sem, Tied, KindOk, SameJumps, Elems;
    LogicParts(s0, m, s, l, e, b, x, s0.freereg, cmp, n);
    LogicListed(s0, m, s, l, e, b, x, s0.freereg, cmp, n);
  }

  lemma LogicListed(s0: FS, m: FS, s: FS, l: int, e: Exp, b: bool, x: Expr, fr: nat, cmp: Compare, n: nat)
    requires Tied(s0, m, if b then NO_JUMP else l, if b then l else NO_JUMP, x, fr, Truth(b), cmp, n)
    requires Shell(m, s, e, cmp, n)
    ensures Listed(s.code, l)
  {
    hide Inv, Sem, Elems, SameJumps;
    ListKept(m.code, s.code, l, PendingSet(m));
  }

  lemma LogicCompiled(s0: FS, m: FS, s: FS, l: int, e: Exp, code': seq<Instr>, l': int, b: bool, x: Expr, y: Expr, cmp: Compare, n: nat)
    requires Tied(s0, m, if b then NO_JUMP else l, if b then l else NO_JUMP, x, s0.freereg, Truth(b), cmp, n)
    requires Compiled(m, s, e, y, cmp, n) && m.freereg == s0.freereg && UsesLocals(y, n) && n <= s0.freereg
    requires Joined(s.code, code', if b then e.f else e.t, l, l')
    ensures Compiled(s0, s.(code := code'), LogicExp(e, b, l'), if b then AndE(x, y) else OrE(x, y), cmp, n)
  {
    hide Ready, Tied, Joined;
    UsesMore(y, n, s0.freereg);
    LogicStep(s0, m, s, l, e, code', l', b, x, y, s0.freereg, cmp, n);
  }

  /** Operand `k1` was ready in state `m`; the second one has been compiled after it. */
  ghost predicate Operands(s0: FS, m: FS, s: FS, k1: Kind, e2: Exp, x: Expr, y: Expr, cmp: Compare, n: nat) {
    && ReadyOp(s0, m, k1, x, s0.freereg, cmp, n) && RegsOk(m, k1, s0.freereg, n)
    && Compiled(m, s, e2, y, cmp, n) && UsesLocals(y, n) && n <= s0.freereg
  }

  lemma BothOperands(s0: FS, m: FS, s: FS, k1: Kind, e2: Exp, x: Expr, y: Expr, cmp: Compare, n: nat)
    requires ReadyOp(s0, m, k1, x, s0.freereg, cmp, n) && RegsOk(m, k1, s0.freereg, n)
    requires Compiled(m, s, e2, y, cmp, n) && UsesLocals(y, n) && n <= s0.freereg
    ensures Operands(s0, m, s, k1, e2, x, y, cmp, n)
  {
    hide ReadyOp, RegsOk, Compiled, UsesLocals;
  }

  lemma OperandsAre(s0: FS, m: FS, s: FS, k1: Kind, e2: Exp, x: Expr, y: Expr, cmp: Compare, n: nat)
    requires Operands(s0, m, s, k1, e2, x, y, cmp, n)
    ensures ReadyOp(s0, m, k1, x, s0.freereg, cmp, n) && RegsOk(m, k1, s0.freereg, n) && Operand(k1)
    ensures Compiled(m, s, e2, y, cmp, n) && UsesLocals(y, n) && n <= s0.freereg && n <= m.freereg < MAXREGS
    ensures Listed(s.code, s.jpc)
  {
    hide ReadyOp, Compiled, Inv, Listed;
    OperandParts(s0, m, k1, x, s0.freereg, cmp, n);
    ReadyRegs(m, s, e2, y, cmp, n);
    InvParts(s, cmp, n);
  }

  lemma RegsSame(m: FS, u: FS, k: Kind, fr: nat, n: nat)
    requires RegsOk(m, k, fr, n) && u.freereg == m.freereg
    ensures RegsOk(u, k, fr, n)
  {
  }

  lemma RelFreed(s0: FS, m: FS, s: FS, k1: Kind, k2: Kind, op: RelOp, x: Expr, y: Expr, cmp: Compare, n: nat)
    requires ReadyOp(s0, m, k1, x, s0.freereg, cmp, n) && RegsOk(m, k1, s0.freereg, n)
    requires ReadyOp(m, s, k2, y, m.freereg, cmp, n) && RegsOk(s, k2, m.freereg, n)
    requires UsesLocals(y, n) && n <= s0.freereg && Operand(k1) && Operand(k2)
    ensures var u := s.(freereg := s0.freereg);
      && Listed(u.code, u.jpc)
      && Ready(s0, Emit(u, [Comparison(op, AsRK(k1), AsRK(k2)), JMP(NO_JUMP)]), Exp(VJMP(|s.code| + 1), NO_JUMP, NO_JUMP), RelE(op, x, y), s0.freereg, cmp, n)
  {
    hide ReadyOp, Ready, Inv, Listed, Comparison, AsRK, Emit;
    OperandParts(s0, m, k1, x, s0.freereg, cmp, n);
    OperandParts(m, s, k2, y, m.freereg, cmp, n);
    FreeOp(m, s, k2, y, m.freereg, s0.freereg, cmp, n);
    UsesMore(y, n, s0.freereg);
    RelStep(s0, m, s.(freereg := s0.freereg), k1, k2, op, x, y, s0.freereg, m.freereg, cmp, n);
  }
}
