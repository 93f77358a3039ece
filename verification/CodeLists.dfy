/** Jump lists: pending jumps linked through their own offsets. */
module CodeLists {
  import opened Opcodes
  import opened CodeExec

  /** `getjump`: the jump after `l` in its list. */
  function NextJump(code: seq<Instr>, l: nat): int
    requires l < |code| && code[l].JMP?
  {
    if code[l].sBx == NO_JUMP then NO_JUMP else l + 1 + code[l].sBx
  }

  /** `s` is the list that starts at `l`. */
  ghost predicate IsList(code: seq<Instr>, l: int, s: seq<nat>)
    decreases |s|
  {
    if s == [] then l == NO_JUMP
    else l == s[0] && s[0] < |code| && code[s[0]].JMP? && IsList(code, NextJump(code, s[0]), s[1..])
  }

  ghost function ToSet(s: seq<nat>): set<nat> {
    set x | x in s
  }

  /** The list at `l` exists: it comes to an end. */
  ghost predicate Listed(code: seq<Instr>, l: int) {
    exists s :: IsList(code, l, s)
  }

  ghost function Elements(code: seq<Instr>, l: int): seq<nat>
    requires Listed(code, l)
    ensures IsList(code, l, Elements(code, l))
  {
    var s :| IsList(code, l, s); s
  }

  /** The jumps of the list at `l`. */
  ghost function Elems(code: seq<Instr>, l: int): set<nat> {
    if Listed(code, l) then ToSet(Elements(code, l)) else {}
  }

  lemma {:induction false} ListUnique(code: seq<Instr>, l: int, s: seq<nat>, u: seq<nat>)
    requires IsList(code, l, s) && IsList(code, l, u)
    ensures s == u
    decreases |s|
  {
    if s != [] && u != [] {
      ListUnique(code, NextJump(code, s[0]), s[1..], u[1..]);
      assert s == [s[0]] + s[1..] && u == [u[0]] + u[1..];
    }
  }

  lemma ElemsAre(code: seq<Instr>, l: int, s: seq<nat>)
    requires IsList(code, l, s)
    ensures Listed(code, l) && Elems(code, l) == ToSet(s)
  {
    ListUnique(code, l, s, Elements(code, l));
  }

  lemma NoElems(code: seq<Instr>)
    ensures Listed(code, NO_JUMP) && Elems(code, NO_JUMP) == {}
  {
    assert IsList(code, NO_JUMP, []);
    ElemsAre(code, NO_JUMP, []);
  }

  lemma {:induction false} ListTail(code: seq<Instr>, l: int, s: seq<nat>, i: nat)
    requires IsList(code, l, s) && i < |s|
    ensures s[i] < |code| && code[s[i]].JMP? && IsList(code, s[i], s[i..])
    decreases |s|
  {
    if i > 0 {
      ListTail(code, NextJump(code, s[0]), s[1..], i - 1);
      assert s[1..][i - 1..] == s[i..];
    }
  }

  /** A list has no jump twice: it would not come to an end. */
  lemma ListDistinct(code: seq<Instr>, l: int, s: seq<nat>, i: nat, j: nat)
    requires IsList(code, l, s) && i < j < |s|
    ensures s[i] != s[j]
  {
    ListTail(code, l, s, i);
    ListTail(code, l, s, j);
    if s[i] == s[j] {
      ListUnique(code, s[i], s[i..], s[j..]);
    }
  }

  /** A list depends on the offsets of its own jumps only. */
  lemma {:induction false} ListSame(code: seq<Instr>, code': seq<Instr>, l: int, s: seq<nat>)
    requires IsList(code, l, s) && |code| <= |code'|
    requires forall i :: 0 <= i < |s| ==> s[i] < |code| && code'[s[i]] == code[s[i]]
    ensures IsList(code', l, s)
    decreases |s|
  {
    if s != [] {
      assert code'[s[0]] == code[s[0]];
      ListSame(code, code', NextJump(code, s[0]), s[1..]);
    }
  }

  lemma ElemsIn(code: seq<Instr>, l: int)
    ensures forall q :: q in Elems(code, l) ==> q < |code| && code[q].JMP?
    ensures Listed(code, l) && l != NO_JUMP ==> l >= 0 && l in Elems(code, l)
  {
    if Listed(code, l) {
      var s := Elements(code, l);
      forall q | q in s
        ensures q < |code| && code[q].JMP?
      {
        var i :| 0 <= i < |s| && s[i] == q;
        ListTail(code, l, s, i);
      }
      if l != NO_JUMP {
        assert s[0] in s;
      }
    }
  }

  lemma ElemsSame(code: seq<Instr>, code': seq<Instr>, l: int)
    requires Listed(code, l) && |code| <= |code'|
    requires forall q :: q in Elems(code, l) ==> q < |code| && code'[q] == code[q]
    ensures Listed(code', l) && Elems(code', l) == Elems(code, l)
  {
    var s := Elements(code, l);
    assert forall i :: 0 <= i < |s| ==> s[i] in Elems(code, l);
    ListSame(code, code', l, s);
    ElemsAre(code', l, s);
  }

  // ---------- joining lists ----------

  /** The last jump of a list gets a link to another list. */
  lemma {:induction false} ListJoin(code: seq<Instr>, code': seq<Instr>, l: int, s: seq<nat>, m: int, u: seq<nat>)
    requires IsList(code, l, s) && IsList(code, m, u) && s != [] && u != []
    requires ToSet(s) !! ToSet(u) && |code'| == |code|
    requires var last := s[|s| - 1]; last < |code| && code' == code[last := JMP(m - (last + 1))]
    ensures IsList(code', l, s + u)
    decreases |s|
  {
    var last := s[|s| - 1];
    if |s| == 1 {
      assert last in ToSet(s);
      forall i | 0 <= i < |u|
        ensures u[i] < |code| && code'[u[i]] == code[u[i]]
      {
        assert u[i] in ToSet(u);
        ListTail(code, m, u, i);
      }
      ListSame(code, code', m, u);
      assert m == u[0] && u[0] in ToSet(u);
      assert (s + u)[1..] == u;
    } else {
      assert s[1..][|s| - 2] == last;
      ListDistinct(code, l, s, 0, |s| - 1);
      ListJoin(code, code', NextJump(code, s[0]), s[1..], m, u);
      assert (s + u)[1..] == s[1..] + u;
    }
  }

  lemma JoinedElems(code: seq<Instr>, code': seq<Instr>, l: int, s: seq<nat>, m: int)
    requires IsList(code, l, s) && s != [] && Listed(code, m) && m != NO_JUMP && ToSet(s) !! Elems(code, m)
    requires var last := s[|s| - 1]; last < |code| && code' == code[last := JMP(m - (last + 1))]
    ensures Listed(code', l) && Elems(code', l) == ToSet(s) + Elems(code, m)
  {
    var u := Elements(code, m);
    ListJoin(code, code', l, s, m, u);
    ElemsAre(code', l, s + u);
  }

  // ---------- patching ----------

  predicate ValueJump(code: seq<Instr>, q: nat) {
    0 < q <= |code| && code[q - 1].TESTSET?
  }

  function TargetOf(code: seq<Instr>, q: nat, vtarget: int, dtarget: int): int {
    if ValueJump(code, q) then vtarget else dtarget
  }

  /** `patchlistaux` at `p`: a jump gets its offset, the test of a value jump its register. */
  function PatchAt(code: seq<Instr>, L: set<nat>, vtarget: int, reg: nat, dtarget: int, p: nat): Instr
    requires p < |code|
  {
    if p in L then JMP(TargetOf(code, p, vtarget, dtarget) - (p + 1))
    else if p + 1 in L && code[p].TESTSET? then PatchTest(code[p], reg)
    else code[p]
  }

  function PatchCode(code: seq<Instr>, L: set<nat>, vtarget: int, reg: nat, dtarget: int): (r: seq<Instr>)
    ensures |r| == |code|
  {
    seq(|code|, p requires 0 <= p < |code| => PatchAt(code, L, vtarget, reg, dtarget, p))
  }

  lemma ElemsListed(code: seq<Instr>, l: int)
    requires Listed(code, l)
    ensures Elems(code, l) == ToSet(Elements(code, l))
  {
  }

  lemma ListWhole(s: seq<nat>)
    ensures s[0..] == s && ToSet(s[..0]) == {} && s[..|s|] == s
  {
  }

  /** The loops over jump lists are at element `i`. */
  lemma ListHead(code: seq<Instr>, l: int, s: seq<nat>, i: nat, list: int)
    requires IsList(code, l, s) && i <= |s| && IsList(code, list, s[i..]) && list != NO_JUMP
    ensures i < |s| && list == s[i] < |code| && code[s[i]].JMP? && s[i] !in ToSet(s[..i])
    ensures IsList(code, NextJump(code, list), s[i + 1..]) && ToSet(s[..i + 1]) == ToSet(s[..i]) + {s[i]}
  {
    assert list == s[i..][0] == s[i];
    ListTail(code, l, s, i);
    forall x | 0 <= x < i
      ensures s[x] != s[i]
    {
      ListDistinct(code, l, s, x, i);
    }
    assert s[..i + 1] == s[..i] + [s[i]];
    assert s[i..][1..] == s[i + 1..];
  }

  lemma ListEnds(code: seq<Instr>, s: seq<nat>, i: nat)
    requires i <= |s| && IsList(code, NO_JUMP, s[i..])
    ensures i == |s|
  {
  }

  lemma PatchNone(code: seq<Instr>, vtarget: int, reg: nat, dtarget: int)
    ensures PatchCode(code, {}, vtarget, reg, dtarget) == code
  {
  }

  /** One more jump is patched. */
  lemma PatchOne(code: seq<Instr>, L: set<nat>, vtarget: int, reg: nat, dtarget: int, q: nat)
    requires q < |code| && code[q].JMP? && q !in L && (forall x :: x in L ==> x < |code| && code[x].JMP?)
    ensures var c := PatchCode(code, L, vtarget, reg, dtarget);
      && c[q] == code[q] && ValueJump(c, q) == ValueJump(code, q)
      && (ValueJump(code, q) ==> c[q - 1] == code[q - 1])
      && (if q == 0 || !code[q - 1].TESTSET? then PatchCode(code, L + {q}, vtarget, reg, dtarget) == c[q := JMP(dtarget - (q + 1))]
          else PatchCode(code, L + {q}, vtarget, reg, dtarget) == c[q - 1 := PatchTest(code[q - 1], reg)][q := JMP(vtarget - (q + 1))])
  {
    var c, d := PatchCode(code, L, vtarget, reg, dtarget), PatchCode(code, L + {q}, vtarget, reg, dtarget);
    var e := if q == 0 || !code[q - 1].TESTSET? then c[q := JMP(dtarget - (q + 1))]
             else c[q - 1 := PatchTest(code[q - 1], reg)][q := JMP(vtarget - (q + 1))];
    forall p | 0 <= p < |code|
      ensures d[p] == e[p]
    {
    }
    assert d == e;
  }

  /** The same for removing the value of a jump. */
  function EmptyAt(code: seq<Instr>, L: set<nat>, p: nat): Instr
    requires p < |code|
  {
    if p + 1 in L && code[p].TESTSET? then PatchTest(code[p], NO_REG) else code[p]
  }

  function EmptyCode(code: seq<Instr>, L: set<nat>): (r: seq<Instr>)
    ensures |r| == |code|
  {
    seq(|code|, p requires 0 <= p < |code| => EmptyAt(code, L, p))
  }

  lemma EmptyOne(code: seq<Instr>, L: set<nat>, q: nat)
    requires q < |code| && code[q].JMP? && q !in L
    ensures var c := EmptyCode(code, L);
      && c[q] == code[q] && (q > 0 ==> c[q - 1] == code[q - 1])
      && EmptyCode(code, L + {q}) == if ValueJump(code, q) then c[q - 1 := PatchTest(code[q - 1], NO_REG)] else c
  {
    var c, d := EmptyCode(code, L), EmptyCode(code, L + {q});
    var e := if ValueJump(code, q) then c[q - 1 := PatchTest(code[q - 1], NO_REG)] else c;
    forall p | 0 <= p < |code|
      ensures d[p] == e[p]
    {
    }
    assert d == e;
  }
}
