/** Running code whose jumps are not all patched yet. */
module CodeExec {
  import opened Opcodes

  /** Code under construction. Jump offsets are erased: `D` gives the target of every jump that has one,
      and the jumps outside `D` are pending. */
  datatype Code = Code(ops: seq<Instr>, D: map<nat, nat>, k: seq<Val>, cmp: Compare)

  /** Control reaches the end, or leaves by a pending jump. */
  datatype Res = Fall(R: Regs) | Exit(j: nat, R: Regs)

  ghost function Exec(c: Code, p: nat, end: nat, R: Regs): Res
    decreases if p < end then end - p else 0
  {
    if p >= end || p >= |c.ops| then Fall(R)
    else
      var n := Effect(c.cmp, c.k, c.ops[p], p, R);
      if n.Halt? then Fall(R)
      else if n.Go? then Exec(c, n.p, end, n.R)
      else if p !in c.D then Exit(p, n.R)
      else if c.D[p] > p then Exec(c, c.D[p], end, n.R)
      else Fall(n.R)
  }

  ghost function Run(c: Code, end: nat, R: Regs): Res {
    Exec(c, 0, end, R)
  }

  predicate Controlled(ops: seq<Instr>, q: nat) {
    0 < q <= |ops| && IsTest(ops[q - 1])
  }

  /** What `ops[p]` needs of the instruction after it and of the constants. */
  predicate OpOk(c: Code, p: nat)
    requires p < |c.ops|
  {
    var i := c.ops[p];
    && (IsTest(i) ==> p + 1 < |c.ops| && c.ops[p + 1].JMP?)
    && (i.LOADBOOL? && i.skip ==> p + 1 < |c.ops| && c.ops[p + 1].LOADBOOL?)
    && (i.LOADK? ==> i.Bx < |c.k|)
    && (i.COMPARE? && i.B >= BITRK ==> i.B - BITRK < |c.k|)
    && (i.COMPARE? && i.C >= BITRK ==> i.C - BITRK < |c.k|)
    && !i.RETURN?
  }

  /** Targets lie ahead, and never between a test and its jump. */
  predicate TargetOk(c: Code, q: nat)
    requires q in c.D
  {
    q < |c.ops| && c.ops[q].JMP? && q < c.D[q] <= |c.ops| && !Controlled(c.ops, c.D[q])
  }

  ghost predicate WF(c: Code) {
    && (forall p :: 0 <= p < |c.ops| ==> OpOk(c, p))
    && (forall q :: q in c.D ==> TargetOk(c, q))
  }

  /** No path from before `mid` passes over `mid`. */
  ghost predicate Cut(c: Code, mid: nat) {
    && mid <= |c.ops|
    && !Controlled(c.ops, mid)
    && (mid > 0 ==> !(c.ops[mid - 1].LOADBOOL? && c.ops[mid - 1].skip))
    && (forall q :: q in c.D && q < mid ==> c.D[q] <= mid)
  }

  lemma ExecSplit(c: Code, p: nat, mid: nat, end: nat, R: Regs)
    requires WF(c) && Cut(c, mid) && p <= mid <= end && end <= |c.ops|
    ensures var r := Exec(c, p, mid, R); Exec(c, p, end, R) == if r.Fall? then Exec(c, mid, end, r.R) else r
    decreases mid - p
  {
    if p < mid {
      assert OpOk(c, p) && (p in c.D ==> TargetOk(c, p));
      var n := Effect(c.cmp, c.k, c.ops[p], p, R);
      if n.Go? {
        ExecSplit(c, n.p, mid, end, n.R);
      } else if n.Jump? && p in c.D && c.D[p] > p {
        ExecSplit(c, c.D[p], mid, end, n.R);
      }
    }
  }

  /** Only the code before `end`, the targets of its jumps and the constants it uses matter. */
  lemma ExecSame(c: Code, d: Code, p: nat, end: nat, R: Regs)
    requires end <= |c.ops| && end <= |d.ops| && c.cmp == d.cmp
    requires forall x :: 0 <= x < end ==> c.ops[x] == d.ops[x] && OpOk(c, x)
    requires forall q :: 0 <= q < end ==> (q in c.D <==> q in d.D) && (q in c.D ==> c.D[q] == d.D[q])
    requires c.k <= d.k
    ensures Exec(c, p, end, R) == Exec(d, p, end, R)
    decreases if p < end then end - p else 0
  {
    if p < end {
      var n := Effect(c.cmp, c.k, c.ops[p], p, R);
      assert n == Effect(d.cmp, d.k, d.ops[p], p, R);
      if n.Go? {
        ExecSame(c, d, n.p, end, n.R);
      } else if n.Jump? && p in c.D && c.D[p] > p {
        ExecSame(c, d, c.D[p], end, n.R);
      }
    }
  }

  // ---------- tests that keep no value ----------

  /** `patchtestreg` on a `TESTSET`: set the register, or drop the value if there is none to set or it
      is already there. */
  function PatchTest(i: Instr, reg: nat): Instr
    requires i.TESTSET?
  {
    if reg != NO_REG && reg != i.B then TESTSET(reg, i.B, i.want) else TEST(i.B, i.want)
  }

  predicate Unset(i: Instr) {
    i.TESTSET? && i.A == NO_REG
  }

  /** `d` is `c` with the values of the jumps `L` removed where there are any. */
  ghost predicate Emptied(c: Code, d: Code, L: set<nat>) {
    && d == c.(ops := d.ops) && |d.ops| == |c.ops|
    && forall p :: 0 <= p < |c.ops| ==> EmptiedAt(c, d, L, p)
  }

  ghost predicate EmptiedAt(c: Code, d: Code, L: set<nat>, p: nat)
    requires p < |c.ops| == |d.ops|
  {
    if p + 1 in L && c.ops[p].TESTSET? then Unset(c.ops[p]) && d.ops[p] == PatchTest(c.ops[p], NO_REG) else d.ops[p] == c.ops[p]
  }

  lemma EmptiedExec(c: Code, d: Code, L: set<nat>, p: nat, end: nat, R: Regs)
    requires Emptied(c, d, L)
    ensures Exec(c, p, end, R) == Exec(d, p, end, R)
    decreases if p < end then end - p else 0
  {
    if p < end && p < |c.ops| {
      assert EmptiedAt(c, d, L, p);
      var n := Effect(c.cmp, c.k, c.ops[p], p, R);
      assert n == Effect(d.cmp, d.k, d.ops[p], p, R);
      if n.Go? {
        EmptiedExec(c, d, L, n.p, end, n.R);
      } else if n.Jump? && p in c.D && c.D[p] > p {
        EmptiedExec(c, d, L, c.D[p], end, n.R);
      }
    }
  }

  lemma EmptiedWF(c: Code, d: Code, L: set<nat>)
    requires Emptied(c, d, L) && WF(c)
    ensures WF(d)
  {
    forall p | 0 <= p < |d.ops|
      ensures OpOk(d, p)
    {
      assert OpOk(c, p) && EmptiedAt(c, d, L, p);
      assert p + 1 < |c.ops| ==> EmptiedAt(c, d, L, p + 1);
    }
    forall q | q in d.D
      ensures TargetOk(d, q)
    {
      assert TargetOk(c, q) && EmptiedAt(c, d, L, q) && EmptiedAt(c, d, L, c.D[q] - 1);
    }
  }

  // ---------- new instructions ----------

  /** `d` is `c` with instructions appended, after the jumps to the end have lost their values. */
  ghost predicate Emitted(c: Code, d: Code, more: seq<Instr>) {
    && d == c.(ops := d.ops) && |d.ops| == |c.ops| + |more|
    && (forall i :: 0 <= i < |more| ==> d.ops[|c.ops| + i] == more[i])
    && (forall p :: 0 <= p < |c.ops| ==> d.ops[p] == c.ops[p] || (p + 1 in c.D && Unset(c.ops[p]) && d.ops[p] == PatchTest(c.ops[p], NO_REG)))
  }

  lemma EmittedRun(c: Code, d: Code, more: seq<Instr>, p: nat, R: Regs)
    requires WF(c) && Emitted(c, d, more)
    ensures Exec(d, p, |c.ops|, R) == Exec(c, p, |c.ops|, R)
    decreases if p < |c.ops| then |c.ops| - p else 0
  {
    if p < |c.ops| {
      var n := Effect(c.cmp, c.k, c.ops[p], p, R);
      assert n == Effect(d.cmp, d.k, d.ops[p], p, R);
      if n.Go? {
        EmittedRun(c, d, more, n.p, n.R);
      } else if n.Jump? && p in c.D {
        assert TargetOk(c, p);
        EmittedRun(c, d, more, c.D[p], n.R);
      }
    }
  }

  lemma EndCut(c: Code)
    requires WF(c)
    ensures Cut(c, |c.ops|)
  {
    if |c.ops| > 0 {
      assert OpOk(c, |c.ops| - 1);
    }
    forall q | q in c.D
      ensures c.D[q] <= |c.ops|
    {
      assert TargetOk(c, q);
    }
  }

  /** The new instructions are well placed. */
  ghost predicate MoreOk(c: Code, more: seq<Instr>) {
    forall i :: 0 <= i < |more| ==> MoreOkAt(c, more, i)
  }

  ghost predicate MoreOkAt(c: Code, more: seq<Instr>, i: nat)
    requires i < |more|
  {
    var x := more[i];
    && (IsTest(x) ==> i + 1 < |more| && more[i + 1].JMP?)
    && (x.LOADBOOL? && x.skip ==> i + 1 < |more| && more[i + 1].LOADBOOL?)
    && (x.LOADK? ==> x.Bx < |c.k|)
    && (x.COMPARE? && x.B >= BITRK ==> x.B - BITRK < |c.k|)
    && (x.COMPARE? && x.C >= BITRK ==> x.C - BITRK < |c.k|)
    && !x.RETURN?
  }

  lemma EmittedWF(c: Code, d: Code, more: seq<Instr>)
    requires WF(c) && Emitted(c, d, more) && MoreOk(c, more)
    ensures WF(d) && Cut(d, |c.ops|)
  {
    forall p | 0 <= p < |d.ops|
      ensures OpOk(d, p)
    {
      if p < |c.ops| {
        assert OpOk(c, p);
      } else {
        assert MoreOkAt(c, more, p - |c.ops|) && d.ops[p] == more[p - |c.ops|];
        assert p + 1 < |d.ops| ==> d.ops[p + 1] == more[p + 1 - |c.ops|];
      }
    }
    forall q | q in d.D
      ensures TargetOk(d, q) && d.D[q] <= |c.ops|
    {
      assert TargetOk(c, q);
    }
    EndCut(c);
  }

  /** Running code with new instructions at its end. */
  lemma EmittedSplit(c: Code, d: Code, more: seq<Instr>, R: Regs)
    requires WF(c) && Emitted(c, d, more) && MoreOk(c, more)
    ensures var r := Run(c, |c.ops|, R); Run(d, |d.ops|, R) == if r.Fall? then Exec(d, |c.ops|, |d.ops|, r.R) else r
  {
    hide WF, Cut, Emitted, MoreOk;
    EmittedRun(c, d, more, 0, R);
    EmittedWF(c, d, more);
    ExecSplit(d, 0, |c.ops|, |d.ops|, R);
  }

  // ---------- patching pending jumps ----------

  /** `d` is `c` with the pending jumps `L` patched; their values go to register `reg`. */
  ghost predicate Patched(c: Code, d: Code, L: set<nat>, reg: nat) {
    && d == c.(ops := d.ops, D := d.D) && |d.ops| == |c.ops|
    && (forall q :: q in L ==> q < |c.ops| && c.ops[q].JMP? && q !in c.D && q in d.D)
    && (forall q :: q in d.D ==> (q in L || q in c.D))
    && (forall q :: q in c.D ==> q in d.D && d.D[q] == c.D[q])
    && (forall p :: 0 <= p < |c.ops| ==> PatchedAt(c, d, L, reg, p))
  }

  ghost predicate PatchedAt(c: Code, d: Code, L: set<nat>, reg: nat, p: nat)
    requires p < |c.ops| == |d.ops|
  {
    if p + 1 in L && c.ops[p].TESTSET? then Unset(c.ops[p]) && d.ops[p] == PatchTest(c.ops[p], reg) else d.ops[p] == c.ops[p]
  }

  /** The registers when the patched jump `q` is taken. */
  function Assign(c: Code, q: nat, reg: nat, R: Regs): Regs {
    if 0 < q <= |c.ops| && c.ops[q - 1].TESTSET? then Set(R, reg, Get(R, c.ops[q - 1].B)) else R
  }

  /** After the patch, control that left by one of the jumps goes on at its target. */
  ghost function Resumed(c: Code, d: Code, L: set<nat>, reg: nat, end: nat, r: Res): Res {
    if r.Exit? && r.j in L && r.j in d.D then Exec(d, d.D[r.j], end, Assign(c, r.j, reg, r.R)) else r
  }

  lemma SetSame(R: Regs, i: nat)
    ensures Set(R, i, Get(R, i)) == R
  {
    if i < MAXREGS {
      assert R[i := R[i]] == R;
    }
  }

  lemma PatchedExec(c: Code, d: Code, L: set<nat>, reg: nat, p: nat, end: nat, R: Regs)
    requires WF(c) && WF(d) && Patched(c, d, L, reg) && !Controlled(c.ops, p) && end <= |c.ops|
    requires Cut(c, end)
    ensures Exec(d, p, end, R) == Resumed(c, d, L, reg, end, Exec(c, p, end, R))
    decreases if p < end then end - p else 0
  {
    if p < end {
      assert OpOk(c, p) && PatchedAt(c, d, L, reg, p);
      var n := Effect(c.cmp, c.k, c.ops[p], p, R);
      if IsTest(c.ops[p]) {
        assert PatchedAt(c, d, L, reg, p + 1);
        PatchedTest(c, d, L, reg, p, end, R);
      } else if n.Go? {
        PatchedExec(c, d, L, reg, n.p, end, n.R);
      } else if n.Jump? && p in c.D {
        assert TargetOk(c, p);
        PatchedExec(c, d, L, reg, c.D[p], end, n.R);
      }
    }
  }

  /** A test and the jump that it controls. */
  lemma PatchedTest(c: Code, d: Code, L: set<nat>, reg: nat, p: nat, end: nat, R: Regs)
    requires WF(c) && WF(d) && Patched(c, d, L, reg) && !Controlled(c.ops, p) && p < end <= |c.ops|
    requires Cut(c, end) && IsTest(c.ops[p])
    ensures Exec(d, p, end, R) == Resumed(c, d, L, reg, end, Exec(c, p, end, R))
    decreases end - p, 0
  {
    hide WF, Patched, Cut;
    TestPair(c, d, L, reg, p, end);
    var q := p + 1;
    var n := Effect(c.cmp, c.k, c.ops[p], p, R);
    if n.p == p + 2 {
      PatchedExec(c, d, L, reg, p + 2, end, R);
    } else if q in c.D {
      PatchedExec(c, d, L, reg, c.D[q], end, n.R);
    } else {
      PatchedTaken(c, d, L, reg, p, end, R);
    }
  }

  /** The test lets the pending jump be taken. */
  lemma PatchedTaken(c: Code, d: Code, L: set<nat>, reg: nat, p: nat, end: nat, R: Regs)
    requires p + 1 < end <= |c.ops| == |d.ops| && IsTest(c.ops[p]) && c.ops[p + 1].JMP? && d.ops[p + 1].JMP?
    requires d.cmp == c.cmp && d.k == c.k && p + 1 !in c.D
    requires Effect(c.cmp, c.k, c.ops[p], p, R).Go? && Effect(c.cmp, c.k, c.ops[p], p, R).p == p + 1
    requires p + 1 in L ==> p + 1 in d.D && d.D[p + 1] > p + 1
    requires p + 1 !in L ==> p + 1 !in d.D
    requires if p + 1 in L && c.ops[p].TESTSET? then Unset(c.ops[p]) && d.ops[p] == PatchTest(c.ops[p], reg)
             else d.ops[p] == c.ops[p]
    ensures Exec(d, p, end, R) == Resumed(c, d, L, reg, end, Exec(c, p, end, R))
  {
    var q := p + 1;
    var n := Effect(c.cmp, c.k, c.ops[p], p, R);
    assert Exec(c, p, end, R) == Exec(c, q, end, n.R) == Exit(q, n.R);
    if c.ops[p].TESTSET? && q in L {
      SetSame(R, c.ops[p].B);
    }
  }

  lemma TestPair(c: Code, d: Code, L: set<nat>, reg: nat, p: nat, end: nat)
    requires WF(c) && WF(d) && Patched(c, d, L, reg) && p < end <= |c.ops| && Cut(c, end) && IsTest(c.ops[p])
    ensures p + 1 < end <= |d.ops| == |c.ops| && c.ops[p + 1].JMP? && d.ops[p + 1].JMP? && !Controlled(c.ops, p + 2)
    ensures d.cmp == c.cmp && d.k == c.k
    ensures p + 1 in c.D ==> TargetOk(c, p + 1) && p + 1 !in L && p + 1 in d.D && d.D[p + 1] == c.D[p + 1]
    ensures p + 1 !in c.D && p + 1 !in L ==> p + 1 !in d.D
    ensures p + 1 in L ==> p + 1 in d.D && d.D[p + 1] > p + 1
    ensures if p + 1 in L && c.ops[p].TESTSET? then Unset(c.ops[p]) && d.ops[p] == PatchTest(c.ops[p], reg)
            else d.ops[p] == c.ops[p]
  {
    assert OpOk(c, p) && PatchedAt(c, d, L, reg, p) && PatchedAt(c, d, L, reg, p + 1);
    assert p + 1 in c.D ==> TargetOk(c, p + 1);
    assert p + 1 in d.D ==> TargetOk(d, p + 1);
  }
}
