/** The instructions that expressions compile to, and what the virtual machine does with them. */
module Opcodes {

  /** `Other` stands for numbers, strings and all other values that count as true. */
  datatype Val = Nil | Bool(b: bool) | Other(id: int)

  predicate Falsy(v: Val) {
    v == Nil || v == Bool(false)
  }

  datatype Rel = EQ | LT | LE

  /** Comparisons are deterministic and do not raise errors; nothing else is known of them. */
  type Compare = (Rel, Val, Val) -> bool

  const MAXREGS: nat := 255
  const NO_REG: nat := 255
  const NO_JUMP: int := -1
  const MAXARG_SBX: nat := 131071
  const MAXARG_BX: nat := 262143
  const BITRK: nat := 256
  const MAXINDEXRK: nat := 255

  datatype Instr =
    | MOVE(A: nat, B: nat)
    | LOADK(A: nat, Bx: nat)
    | LOADBOOL(A: nat, b: bool, skip: bool)
    | LOADNIL(A: nat, n: nat)
    | NOT(A: nat, B: nat)
    | JMP(sBx: int)
    | COMPARE(rel: Rel, want: bool, B: nat, C: nat)
    | TEST(A: nat, want: bool)
    | TESTSET(A: nat, B: nat, want: bool)
    | RETURN(A: nat, n: nat)

  /** The registers of a function: `maxstacksize` is below `MAXREGS`. */
  type Regs = s: seq<Val> | |s| == MAXREGS witness seq(MAXREGS, _ => Nil)

  function Get(R: Regs, i: nat): Val {
    if i < MAXREGS then R[i] else Nil
  }

  function Set(R: Regs, i: nat, v: Val): Regs {
    if i < MAXREGS then R[i := v] else R
  }

  function SetNil(R: Regs, from: nat, last: nat): Regs {
    seq(MAXREGS, i requires 0 <= i < MAXREGS => if from <= i <= last then Nil else R[i])
  }

  function Kst(k: seq<Val>, i: nat): Val {
    if i < |k| then k[i] else Nil
  }

  /** An operand that is a register or, from `BITRK` on, a constant. */
  function RK(k: seq<Val>, R: Regs, x: nat): Val {
    if x >= BITRK then Kst(k, x - BITRK) else Get(R, x)
  }

  /** What one instruction at `p` does: go on at another one, take the jump that it is, or return. */
  datatype Next = Go(p: nat, R: Regs) | Jump(R: Regs) | Halt(v: Val)

  function Effect(cmp: Compare, k: seq<Val>, i: Instr, p: nat, R: Regs): Next {
    match i
    case MOVE(A, B) => Go(p + 1, Set(R, A, Get(R, B)))
    case LOADK(A, x) => Go(p + 1, Set(R, A, Kst(k, x)))
    case LOADBOOL(A, b, skip) => Go(if skip then p + 2 else p + 1, Set(R, A, Bool(b)))
    case LOADNIL(A, n) => Go(p + 1, SetNil(R, A, A + n))
    case NOT(A, B) => Go(p + 1, Set(R, A, Bool(Falsy(Get(R, B)))))
    case JMP(_) => Jump(R)
    case COMPARE(rel, want, B, C) => Go(if cmp(rel, RK(k, R, B), RK(k, R, C)) != want then p + 2 else p + 1, R)
    case TEST(A, want) => Go(if Falsy(Get(R, A)) == want then p + 2 else p + 1, R)
    case TESTSET(A, B, want) =>
      if Falsy(Get(R, B)) == want then Go(p + 2, R) else Go(p + 1, Set(R, A, Get(R, B)))
    case RETURN(A, _) => Halt(Get(R, A))
  }

  /** Running code on the machine: the value returned, or none if control leaves the code or goes back. */
  datatype Outcome = Returned(v: Val) | Lost

  function Machine(cmp: Compare, k: seq<Val>, code: seq<Instr>, p: int, R: Regs): Outcome
    decreases |code| - p
  {
    if !(0 <= p < |code|) then Lost
    else
      var n := Effect(cmp, k, code[p], p, R);
      if n.Halt? then Returned(n.v)
      else if n.Go? then Machine(cmp, k, code, n.p, n.R)
      else if code[p].sBx >= 0 then Machine(cmp, k, code, p + 1 + code[p].sBx, n.R)
      else Lost
  }

  /** Operators that test their operands and skip the jump that follows them (`testTMode`). */
  predicate IsTest(i: Instr) {
    i.COMPARE? || i.TEST? || i.TESTSET?
  }

  // ---------- expressions and what they mean ----------

  datatype RelOp = Eq | Lt | Le | Ne | Gt | Ge

  datatype Expr =
    | Local(r: nat) | NilE | TrueE | FalseE | Num(n: int) | Str(s: int)
    | NotE(e: Expr) | AndE(l: Expr, r1: Expr) | OrE(l: Expr, r1: Expr)
    | RelE(op: RelOp, l: Expr, r1: Expr) | Paren(e: Expr)

  function Relate(cmp: Compare, op: RelOp, x: Val, y: Val): bool {
    match op
    case Eq => cmp(EQ, x, y)
    case Lt => cmp(LT, x, y)
    case Le => cmp(LE, x, y)
    case Ne => !cmp(EQ, x, y)
    case Gt => cmp(LT, y, x)
    case Ge => cmp(LE, y, x)
  }

  /** Numbers and strings as values: all different from nil and booleans. */
  function NumVal(n: int): Val { Other(2 * n) }
  function StrVal(s: int): Val { Other(2 * s + 1) }

  function Eval(cmp: Compare, x: Expr, R: Regs): Val {
    match x
    case Local(r) => Get(R, r)
    case NilE => Nil
    case TrueE => Bool(true)
    case FalseE => Bool(false)
    case Num(n) => NumVal(n)
    case Str(s) => StrVal(s)
    case NotE(e) => Bool(Falsy(Eval(cmp, e, R)))
    case AndE(l, r) => var v := Eval(cmp, l, R); if Falsy(v) then v else Eval(cmp, r, R)
    case OrE(l, r) => var v := Eval(cmp, l, R); if Falsy(v) then Eval(cmp, r, R) else v
    case RelE(op, l, r) => Bool(Relate(cmp, op, Eval(cmp, l, R), Eval(cmp, r, R)))
    case Paren(e) => Eval(cmp, e, R)
  }

  predicate UsesLocals(x: Expr, n: nat) {
    match x
    case Local(r) => r < n
    case NotE(e) => UsesLocals(e, n)
    case AndE(l, r) => UsesLocals(l, n) && UsesLocals(r, n)
    case OrE(l, r) => UsesLocals(l, n) && UsesLocals(r, n)
    case RelE(_, l, r) => UsesLocals(l, n) && UsesLocals(r, n)
    case Paren(e) => UsesLocals(e, n)
    case _ => true
  }

  ghost predicate Agree(n: nat, R: Regs, S: Regs) {
    forall i :: 0 <= i < n ==> Get(S, i) == Get(R, i)
  }

  /** The value of an expression depends on its locals only. */
  lemma {:induction false} EvalAgree(cmp: Compare, x: Expr, n: nat, R: Regs, S: Regs)
    requires UsesLocals(x, n) && Agree(n, R, S)
    ensures Eval(cmp, x, S) == Eval(cmp, x, R)
  {
    match x
    case NotE(e) => EvalAgree(cmp, e, n, R, S);
    case AndE(l, r) => EvalAgree(cmp, l, n, R, S); EvalAgree(cmp, r, n, R, S);
    case OrE(l, r) => EvalAgree(cmp, l, n, R, S); EvalAgree(cmp, r, n, R, S);
    case RelE(_, l, r) => EvalAgree(cmp, l, n, R, S); EvalAgree(cmp, r, n, R, S);
    case Paren(e) => EvalAgree(cmp, e, n, R, S);
    case _ =>
  }
}
