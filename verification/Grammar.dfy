/** Section 3.4.8 of the Lua 5.3 manual: what operator precedence means for the text of expressions. The levels are
    those of the manual; the numbers in the table of priorities matter in proofs only. */
module Grammar {
  import opened Precedence
  import opened Wrappers

  /** The levels of the manual from the loosest to the tightest; level 10 is that of the unary operators. */
  function Level(op: BinOp): nat {
    match op
    case OR => 0
    case AND => 1
    case LT => 2 case GT => 2 case LE => 2 case GE => 2 case NE => 2 case EQ => 2
    case BOR => 3
    case BXOR => 4
    case BAND => 5
    case SHL => 6 case SHR => 6
    case CONCAT => 7
    case ADD => 8 case SUB => 8
    case MUL => 9 case DIV => 9 case IDIV => 9 case MOD => 9
    case POW => 11
  }

  /** Concatenation and exponentiation group to the right, all others to the left. */
  predicate RightAssociative(op: BinOp) {
    op == CONCAT || op == POW
  }

  /** The symbols of the operators. */
  lemma LogicSymbols()
    ensures GetBinOp(OrWord) == Some(OR) && GetBinOp(AndWord) == Some(AND)
    ensures GetBinOp(Less) == Some(LT) && GetBinOp(Greater) == Some(GT) && GetBinOp(LessEqual) == Some(LE)
    ensures GetBinOp(GreaterEqual) == Some(GE) && GetBinOp(NotEqual) == Some(NE) && GetBinOp(Equal) == Some(EQ)
  {
  }

  lemma BitSymbols()
    ensures GetBinOp(Bar) == Some(BOR) && GetBinOp(Tilde) == Some(BXOR) && GetBinOp(Ampersand) == Some(BAND)
    ensures GetBinOp(ShiftLeft) == Some(SHL) && GetBinOp(ShiftRight) == Some(SHR)
  {
  }

  lemma ValueSymbols()
    ensures GetBinOp(Plus) == Some(ADD) && GetBinOp(Minus) == Some(SUB) && GetBinOp(Star) == Some(MUL) && GetBinOp(Caret) == Some(POW)
    ensures GetBinOp(Slash) == Some(DIV) && GetBinOp(DoubleSlash) == Some(IDIV) && GetBinOp(Percent) == Some(MOD)
    ensures GetBinOp(TwoDots) == Some(CONCAT)
  {
  }

  lemma NoSymbol(t: Token)
    ensures t.Name? || t.Other? || t == LeftParen || t == RightParen || t == NotWord || t == Hash ==> GetBinOp(t) == None
  {
  }

  lemma UnarySymbols(t: Token)
    ensures GetUnOp(NotWord) == Some(NOT) && GetUnOp(Hash) == Some(LEN) && GetUnOp(Minus) == Some(MINUS) && GetUnOp(Tilde) == Some(BNOT)
    ensures t != NotWord && t != Hash && t != Minus && t != Tilde ==> GetUnOp(t) == None
  {
  }

  /** Where the table of priorities puts a level. */
  lemma Priorities(op: BinOp)
    ensures Left(op) == (var i := Level(op); if i <= 6 then i + 1 else if i == 11 then 14 else if i == 7 then 9 else i + 2)
    ensures Right(op) == if RightAssociative(op) then Left(op) - 1 else Left(op)
    ensures RightAssociative(op) <==> Level(op) == 7 || Level(op) == 11
    ensures op == POW <==> Level(op) == 11
    ensures Level(op) != 10 && Level(op) <= 11
  {
  }

  lemma Ladder(op1: BinOp, op2: BinOp)
    ensures Left(op2) > Right(op1) <==> Level(op1) < Level(op2) || (Level(op1) == Level(op2) && RightAssociative(op1))
    ensures Left(op1) > UNARY_PRIORITY <==> op1 == POW
  {
    hide Left, Right, Level, RightAssociative;
    Priorities(op1);
    Priorities(op2);
  }

  /** `LUAI_MAXCCALLS` calls may be nested. */
  lemma NestingLimit(id: nat, level: nat)
    ensures Sub([Name(id)], 0, level) == if level < 200 then Ok(Leaf(id), []) else Error
  {
  }

  // ---------- operands ----------

  /** Wherever an operand is read, text `s` is read as `t`; `d` calls of `subexpr` are nested in it. */
  ghost predicate Operand(s: seq<Token>, t: Tree, d: nat) {
    forall rest: seq<Token>, limit: nat, level: nat :: level + d <= MAXCCALLS ==> Sub(s + rest, limit, level) == More(t, rest, limit, level)
  }

  lemma NameOperand(id: nat)
    ensures Operand([Name(id)], Leaf(id), 1)
  {
    forall rest: seq<Token>, limit: nat, level: nat | level + 1 <= MAXCCALLS
      ensures Sub([Name(id)] + rest, limit, level) == More(Leaf(id), rest, limit, level)
    {
      assert ([Name(id)] + rest)[1..] == rest;
    }
  }

  /** An expression in parentheses. */
  lemma EnclosedOperand(e: Tree)
    ensures Operand(Enclosed(e), e, 1 + BareDepth(e, 0, 0))
  {
    forall rest: seq<Token>, limit: nat, level: nat | level + 1 + BareDepth(e, 0, 0) <= MAXCCALLS
      ensures Sub(Enclosed(e) + rest, limit, level) == More(e, rest, limit, level)
    {
      EnclosedRead(e, rest, limit, level);
    }
  }

  lemma EnclosedRead(e: Tree, rest: seq<Token>, limit: nat, level: nat)
    requires level + 1 + BareDepth(e, 0, 0) <= MAXCCALLS
    ensures Sub(Enclosed(e) + rest, limit, level) == More(e, rest, limit, level)
  {
    hide Sub, More, Bare, BareDepth, Left, Right;
    var ts, close := Enclosed(e) + rest, [RightParen] + rest;
    assert ts[0] == LeftParen && ts[1..] == Bare(e, 0, 0) + close;
    assert close[0] == RightParen && close[1..] == rest;
    assert Fits(e, 0, 0) && Ends(close);
    ReadBare(e, 0, 0, close, level + 1);
    StopAtEnd(e, close, 0, level + 1);
    SubCases(ts, limit, level);
  }

  lemma OperandRead(s: seq<Token>, t: Tree, d: nat, rest: seq<Token>, limit: nat, level: nat)
    requires Operand(s, t, d) && level + d <= MAXCCALLS
    ensures Sub(s + rest, limit, level) == More(t, rest, limit, level)
  {
  }

  /** No binary operator goes on with the expression. */
  predicate Ends(rest: seq<Token>) {
    rest == [] || GetBinOp(rest[0]).None?
  }

  lemma StopAtEnd(t: Tree, rest: seq<Token>, limit: nat, level: nat)
    requires Ends(rest)
    ensures More(t, rest, limit, level) == Ok(t, rest)
  {
    MoreCases(t, rest, limit, level);
  }

  /** One more operator and its right operand, where the limit lets it in. */
  lemma MoreStep(t: Tree, sym: Token, op: BinOp, ts: seq<Token>, limit: nat, level: nat)
    requires GetBinOp(sym) == Some(op)
    ensures var x := Sub(ts, Right(op), level + 1);
      More(t, [sym] + ts, limit, level) == if Left(op) <= limit then Ok(t, [sym] + ts)
        else if x.Error? then Error else More(Bin(op, t, x.t), x.rest, limit, level)
  {
    hide Sub, More, Left, Right, GetBinOp, Follow;
    assert ([sym] + ts)[0] == sym && ([sym] + ts)[1..] == ts;
    FollowIs([sym] + ts, op);
    MoreCases(t, [sym] + ts, limit, level);
  }

  // ---------- the manual ----------

  /** `a op1 b op2 c`: the tighter operator takes the middle operand; on the same level the left one, except for
      concatenation and exponentiation. */
  lemma Grouping(t1: Token, op1: BinOp, t2: Token, op2: BinOp,
      a: seq<Token>, A: Tree, b: seq<Token>, B: Tree, c: seq<Token>, C: Tree, d: nat, rest: seq<Token>, level: nat)
    requires GetBinOp(t1) == Some(op1) && GetBinOp(t2) == Some(op2) && Ends(rest)
    requires Operand(a, A, d) && Operand(b, B, d) && Operand(c, C, d) && level + d + 2 <= MAXCCALLS
    ensures Sub(a + ([t1] + (b + ([t2] + (c + rest)))), 0, level) ==
      Ok(if Level(op1) < Level(op2) || (Level(op1) == Level(op2) && RightAssociative(op1)) then Bin(op1, A, Bin(op2, B, C)) else Bin(op2, Bin(op1, A, B), C), rest)
  {
    hide Sub, More, Left, Right, GetBinOp, Follow, Level, Operand, RightAssociative, Ends;
    Ladder(op1, op2);
    var tail := [t2] + (c + rest);
    OperandRead(a, A, d, [t1] + (b + tail), 0, level);
    MoreStep(A, t1, op1, b + tail, 0, level);
    OperandRead(b, B, d, tail, Right(op1), level + 1);
    MoreStep(B, t2, op2, c + rest, Right(op1), level + 1);
    if Left(op2) > Right(op1) {
      OperandRead(c, C, d, rest, Right(op2), level + 2);
      StopAtEnd(C, rest, Right(op2), level + 2);
      StopAtEnd(Bin(op2, B, C), rest, Right(op1), level + 1);
      StopAtEnd(Bin(op1, A, Bin(op2, B, C)), rest, 0, level);
    } else {
      MoreStep(Bin(op1, A, B), t2, op2, c + rest, 0, level);
      OperandRead(c, C, d, rest, Right(op2), level + 1);
      StopAtEnd(C, rest, Right(op2), level + 1);
      StopAtEnd(Bin(op2, Bin(op1, A, B), C), rest, 0, level);
    }
  }

  /** A unary operator takes `a ^ b` whole, and only `a` before every other binary operator. */
  lemma UnaryGrouping(t: Token, u: UnOp, t1: Token, op: BinOp,
      a: seq<Token>, A: Tree, b: seq<Token>, B: Tree, d: nat, rest: seq<Token>, level: nat)
    requires GetUnOp(t) == Some(u) && GetBinOp(t1) == Some(op) && Ends(rest)
    requires Operand(a, A, d) && Operand(b, B, d) && level + d + 2 <= MAXCCALLS
    ensures Sub([t] + (a + ([t1] + (b + rest))), 0, level) == Ok(if op == POW then Un(u, Bin(POW, A, B)) else Bin(op, Un(u, A), B), rest)
  {
    hide Sub, More, Left, Right, GetBinOp, GetUnOp, Follow, Level, Operand, Ends, RightAssociative;
    Ladder(op, op);
    var ts := a + ([t1] + (b + rest));
    assert ([t] + ts)[0] == t && ([t] + ts)[1..] == ts;
    SubCases([t] + ts, 0, level);
    OperandRead(a, A, d, [t1] + (b + rest), UNARY_PRIORITY, level + 1);
    MoreStep(A, t1, op, b + rest, UNARY_PRIORITY, level + 1);
    if Left(op) > UNARY_PRIORITY {
      OperandRead(b, B, d, rest, Right(op), level + 2);
      StopAtEnd(B, rest, Right(op), level + 2);
      StopAtEnd(Bin(op, A, B), rest, UNARY_PRIORITY, level + 1);
      StopAtEnd(Un(u, Bin(op, A, B)), rest, 0, level);
    } else {
      MoreStep(Un(u, A), t1, op, b + rest, 0, level);
      OperandRead(b, B, d, rest, Right(op), level + 1);
      StopAtEnd(B, rest, Right(op), level + 1);
      StopAtEnd(Bin(op, Un(u, A), B), rest, 0, level);
    }
  }

  /** On the right of any binary operator a unary one applies to its operand: `a ^ -b`. */
  lemma UnaryOperand(t: Token, u: UnOp, t1: Token, op: BinOp,
      a: seq<Token>, A: Tree, b: seq<Token>, B: Tree, d: nat, rest: seq<Token>, level: nat)
    requires GetUnOp(t) == Some(u) && GetBinOp(t1) == Some(op) && Ends(rest)
    requires Operand(a, A, d) && Operand(b, B, d) && level + d + 2 <= MAXCCALLS
    ensures Sub(a + ([t1] + ([t] + (b + rest))), 0, level) == Ok(Bin(op, A, Un(u, B)), rest)
  {
    hide Sub, More, Left, Right, GetBinOp, GetUnOp, Follow, Level, Operand, Ends, RightAssociative;
    Ladder(op, op);
    var ts := [t] + (b + rest);
    OperandRead(a, A, d, [t1] + ts, 0, level);
    MoreStep(A, t1, op, ts, 0, level);
    assert ts[0] == t && ts[1..] == b + rest;
    SubCases(ts, Right(op), level + 1);
    OperandRead(b, B, d, rest, UNARY_PRIORITY, level + 2);
    StopAtEnd(B, rest, UNARY_PRIORITY, level + 2);
    StopAtEnd(Un(u, B), rest, Right(op), level + 1);
    StopAtEnd(Bin(op, A, Un(u, B)), rest, 0, level);
  }

  /** `a - b - c` and `a ^ b ^ c`, with names. */
  lemma NamesGroup(a: nat, b: nat, c: nat)
    ensures Sub([Name(a), Minus, Name(b), Minus, Name(c)], 0, 0) == Ok(Bin(SUB, Bin(SUB, Leaf(a), Leaf(b)), Leaf(c)), [])
    ensures Sub([Name(a), Caret, Name(b), Caret, Name(c)], 0, 0) == Ok(Bin(POW, Leaf(a), Bin(POW, Leaf(b), Leaf(c))), [])
    ensures Sub([Minus, Name(a), Caret, Name(b)], 0, 0) == Ok(Un(MINUS, Bin(POW, Leaf(a), Leaf(b))), [])
  {
    hide Sub;
    var x, y, z := [Name(a)], [Name(b)], [Name(c)];
    NameOperand(a);
    NameOperand(b);
    NameOperand(c);
    Grouping(Minus, SUB, Minus, SUB, x, Leaf(a), y, Leaf(b), z, Leaf(c), 1, [], 0);
    Grouping(Caret, POW, Caret, POW, x, Leaf(a), y, Leaf(b), z, Leaf(c), 1, [], 0);
    UnaryGrouping(Minus, MINUS, Caret, POW, x, Leaf(a), y, Leaf(b), 1, [], 0);
    assert x + ([Minus] + (y + ([Minus] + (z + [])))) == [Name(a), Minus, Name(b), Minus, Name(c)];
    assert x + ([Caret] + (y + ([Caret] + (z + [])))) == [Name(a), Caret, Name(b), Caret, Name(c)];
    assert [Minus] + (x + ([Caret] + (y + []))) == [Minus, Name(a), Caret, Name(b)];
  }
}
