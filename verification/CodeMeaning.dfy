/** What expressions and instructions mean, in terms of values and registers alone. */
module CodeMeaning {
  import opened Opcodes

  // ---------- expressions ----------

  /** Comparisons: which operand comes first, and which of the three comparisons of the machine is made. */
  lemma Comparison(cmp: Compare, op: RelOp, x: Expr, y: Expr, R: Regs)
    ensures var v, w := Eval(cmp, x, R), Eval(cmp, y, R);
      match op
      case Eq => Eval(cmp, RelE(op, x, y), R) == Bool(cmp(EQ, v, w))
      case Ne => Eval(cmp, RelE(op, x, y), R) == Bool(!cmp(EQ, v, w))
      case Lt => Eval(cmp, RelE(op, x, y), R) == Bool(cmp(LT, v, w))
      case Gt => Eval(cmp, RelE(op, x, y), R) == Bool(cmp(LT, w, v))
      case Le => Eval(cmp, RelE(op, x, y), R) == Bool(cmp(LE, v, w))
      case Ge => Eval(cmp, RelE(op, x, y), R) == Bool(cmp(LE, w, v))
  {
    var e := RelE(op, x, y);
    assert e.op == op && e.l == x && e.r1 == y;
  }

  /** `x > y` is `y < x`, `x >= y` is `y <= x`, and `x ~= y` is `not (x == y)`. */
  lemma Mirrored(cmp: Compare, x: Expr, y: Expr, R: Regs)
    ensures Eval(cmp, RelE(Gt, x, y), R) == Eval(cmp, RelE(Lt, y, x), R)
    ensures Eval(cmp, RelE(Ge, x, y), R) == Eval(cmp, RelE(Le, y, x), R)
    ensures Eval(cmp, RelE(Ne, x, y), R) == Eval(cmp, NotE(RelE(Eq, x, y)), R)
  {
    hide Relate;
    Comparison(cmp, Gt, x, y, R);
    Comparison(cmp, Lt, y, x, R);
    Comparison(cmp, Ge, x, y, R);
    Comparison(cmp, Le, y, x, R);
    Comparison(cmp, Ne, x, y, R);
    Comparison(cmp, Eq, x, y, R);
  }

  /** Literals: equal numerals, and equal strings, are the same value, different ones are not, and no two literals of
      different kinds are. */
  lemma Literals(cmp: Compare, m: int, n: int, R: Regs)
    ensures Eval(cmp, Num(m), R) == Eval(cmp, Num(n), R) <==> m == n
    ensures Eval(cmp, Str(m), R) == Eval(cmp, Str(n), R) <==> m == n
    ensures Eval(cmp, Num(m), R) != Eval(cmp, Str(n), R)
    ensures Eval(cmp, NilE, R) == Nil && Eval(cmp, TrueE, R) == Bool(true) && Eval(cmp, FalseE, R) == Bool(false)
    ensures Eval(cmp, Num(m), R).Other? && Eval(cmp, Str(m), R).Other?
  {
  }

  /** Only nil and false count as false; `and` and `or` evaluate to one of their operands. */
  lemma Logic(cmp: Compare, x: Expr, y: Expr, R: Regs)
    ensures var v, w := Eval(cmp, x, R), Eval(cmp, y, R); var no := v == Nil || v == Bool(false);
      && Eval(cmp, NotE(x), R) == Bool(no) && Eval(cmp, Paren(x), R) == v
      && Eval(cmp, AndE(x, y), R) == (if no then v else w) && Eval(cmp, OrE(x, y), R) == if no then w else v
  {
  }

  lemma Locals(cmp: Compare, r: nat, R: Regs)
    ensures r < 255 ==> Eval(cmp, Local(r), R) == R[r]
  {
  }

  /** Every expression over the first `n` locals may be compiled. */
  lemma LocalsAllowed(x: Expr, y: Expr, op: RelOp, r: nat, n: nat)
    ensures UsesLocals(Local(r), n) <==> r < n
    ensures UsesLocals(NilE, n) && UsesLocals(TrueE, n) && UsesLocals(FalseE, n) && UsesLocals(Num(r), n) && UsesLocals(Str(r), n)
    ensures UsesLocals(x, n) <==> UsesLocals(NotE(x), n) && UsesLocals(Paren(x), n)
    ensures UsesLocals(x, n) && UsesLocals(y, n) <==> UsesLocals(AndE(x, y), n) && UsesLocals(OrE(x, y), n) && UsesLocals(RelE(op, x, y), n)
  {
  }

  /** `o` is the value of `x` where the local variables are those of `R`: the statements above, for what a machine
      returns. */
  ghost predicate Returns(cmp: Compare, x: Expr, R: Regs, o: Outcome) {
    o.Returned? &&
    match x
    case Local(r) => r < 255 ==> o.v == R[r]
    case NilE => o.v == Nil
    case TrueE => o.v == Bool(true)
    case FalseE => o.v == Bool(false)
    case Num(n) => o.v.Other? && (forall m, S: Regs :: o.v == Eval(cmp, Num(m), S) <==> m == n) && forall s, S: Regs :: o.v != Eval(cmp, Str(s), S)
    case Str(n) => o.v.Other? && (forall m, S: Regs :: o.v == Eval(cmp, Str(m), S) <==> m == n) && forall s, S: Regs :: o.v != Eval(cmp, Num(s), S)
    case Paren(y) => o.v == Eval(cmp, y, R)
    case NotE(y) => var v := Eval(cmp, y, R); o.v == Bool(v == Nil || v == Bool(false))
    case AndE(y, z) => var v := Eval(cmp, y, R); o.v == if v == Nil || v == Bool(false) then v else Eval(cmp, z, R)
    case OrE(y, z) => var v := Eval(cmp, y, R); o.v == if v == Nil || v == Bool(false) then Eval(cmp, z, R) else v
    case RelE(op, y, z) =>
      var v, w := Eval(cmp, y, R), Eval(cmp, z, R);
      match op
      case Eq => o.v == Bool(cmp(EQ, v, w))
      case Ne => o.v == Bool(!cmp(EQ, v, w))
      case Lt => o.v == Bool(cmp(LT, v, w))
      case Le => o.v == Bool(cmp(LE, v, w))
      case Gt => o.v == Bool(cmp(LT, w, v))
      case Ge => o.v == Bool(cmp(LE, w, v))
  }

  lemma EvalReturns(cmp: Compare, x: Expr, R: Regs)
    ensures Returns(cmp, x, R, Returned(Eval(cmp, x, R)))
  {
    match x
    case Num(n) => LiteralsDiffer(cmp, n, R);
    case Str(n) => LiteralsDiffer(cmp, n, R);
    case RelE(op, y, z) => Comparison(cmp, op, y, z, R);
    case NotE(y) => Logic(cmp, y, y, R);
    case AndE(y, z) => Logic(cmp, y, z, R);
    case OrE(y, z) => Logic(cmp, y, z, R);
    case _ =>
  }

  lemma LiteralsDiffer(cmp: Compare, n: int, R: Regs)
    ensures forall m, S: Regs :: Eval(cmp, Num(n), R) == Eval(cmp, Num(m), S) <==> m == n
    ensures forall m, S: Regs :: Eval(cmp, Str(n), R) == Eval(cmp, Str(m), S) <==> m == n
    ensures forall m, S: Regs :: Eval(cmp, Num(n), R) != Eval(cmp, Str(m), S) && Eval(cmp, Str(n), R) != Eval(cmp, Num(m), S)
  {
  }

  // ---------- instructions ----------

  ghost predicate At(code: seq<Instr>, p: nat, i: Instr) {
    p < |code| && code[p] == i
  }

  /** Instructions that load a register and go on. */
  lemma Loads(cmp: Compare, k: seq<Val>, code: seq<Instr>, p: nat, R: Regs, a: nat, b: nat)
    requires a < 255
    ensures At(code, p, MOVE(a, b)) && b < 255 ==> Machine(cmp, k, code, p, R) == Machine(cmp, k, code, p + 1, R[a := R[b]])
    ensures At(code, p, LOADK(a, b)) && b < |k| ==> Machine(cmp, k, code, p, R) == Machine(cmp, k, code, p + 1, R[a := k[b]])
    ensures At(code, p, NOT(a, b)) && b < 255 ==>
      Machine(cmp, k, code, p, R) == Machine(cmp, k, code, p + 1, R[a := Bool(R[b] == Nil || R[b] == Bool(false))])
  {
  }

  lemma LoadsBool(cmp: Compare, k: seq<Val>, code: seq<Instr>, p: nat, R: Regs, a: nat, b: bool)
    requires a < 255
    ensures At(code, p, LOADBOOL(a, b, false)) ==> Machine(cmp, k, code, p, R) == Machine(cmp, k, code, p + 1, R[a := Bool(b)])
    ensures At(code, p, LOADBOOL(a, b, true)) ==> Machine(cmp, k, code, p, R) == Machine(cmp, k, code, p + 2, R[a := Bool(b)])
  {
  }

  /** LOADNIL clears register `a` and the `n` after it. */
  lemma LoadsNil(cmp: Compare, k: seq<Val>, code: seq<Instr>, p: nat, R: Regs, a: nat, n: nat, S: Regs)
    requires At(code, p, LOADNIL(a, n)) && forall i :: 0 <= i < 255 ==> S[i] == if a <= i <= a + n then Nil else R[i]
    ensures Machine(cmp, k, code, p, R) == Machine(cmp, k, code, p + 1, S)
  {
    assert SetNil(R, a, a + n) == S;
  }

  /** Tests skip the next instruction unless they come out as wanted; TESTSET then also copies its register. */
  lemma Tests(cmp: Compare, k: seq<Val>, code: seq<Instr>, p: nat, R: Regs, a: nat, b: nat, want: bool)
    requires a < 255 && b < 255
    ensures At(code, p, TEST(b, want)) ==>
      var yes := R[b] != Nil && R[b] != Bool(false);
      Machine(cmp, k, code, p, R) == Machine(cmp, k, code, if yes == want then p + 1 else p + 2, R)
    ensures At(code, p, TESTSET(a, b, want)) ==>
      var yes := R[b] != Nil && R[b] != Bool(false);
      Machine(cmp, k, code, p, R) == if yes == want then Machine(cmp, k, code, p + 1, R[a := R[b]]) else Machine(cmp, k, code, p + 2, R)
  {
  }

  /** Comparisons of registers and, from 256 on, constants. */
  lemma Compares(cmp: Compare, k: seq<Val>, code: seq<Instr>, p: nat, R: Regs, rel: Rel, want: bool, b: nat, c: nat)
    requires At(code, p, COMPARE(rel, want, b, c))
    requires (b < 255 || 256 <= b < 256 + |k|) && (c < 255 || 256 <= c < 256 + |k|)
    ensures var v, w := if b < 255 then R[b] else k[b - 256], if c < 255 then R[c] else k[c - 256];
      Machine(cmp, k, code, p, R) == Machine(cmp, k, code, if cmp(rel, v, w) == want then p + 1 else p + 2, R)
  {
  }

  lemma JumpsAndReturns(cmp: Compare, k: seq<Val>, code: seq<Instr>, p: nat, R: Regs, d: nat, a: nat, n: nat)
    requires a < 255
    ensures At(code, p, JMP(d)) ==> Machine(cmp, k, code, p, R) == Machine(cmp, k, code, p + 1 + d, R)
    ensures At(code, p, RETURN(a, n)) ==> Machine(cmp, k, code, p, R) == Returned(R[a])
  {
  }
}
