/** Operator precedence: the expression grammar as `subexpr` reads it, and printing with few parentheses. */
module Precedence {
  import opened Wrappers

  datatype BinOp = ADD | SUB | MUL | MOD | POW | DIV | IDIV | BAND | BOR | BXOR | SHL | SHR | CONCAT
    | EQ | LT | LE | NE | GT | GE | AND | OR

  datatype UnOp = MINUS | BNOT | NOT | LEN

  /** Symbols; the minus sign and the tilde are both unary and binary operators. */
  datatype Token = Name(id: nat) | LeftParen | RightParen
    | Plus | Minus | Star | Percent | Caret | Slash | DoubleSlash | Ampersand | Bar | Tilde | ShiftLeft | ShiftRight
    | TwoDots | Equal | Less | LessEqual | NotEqual | Greater | GreaterEqual | AndWord | OrWord | NotWord | Hash
    | Other(code: nat)

  /** `getunopr`. */
  function GetUnOp(t: Token): Option<UnOp> {
    match t
    case NotWord => Some(NOT)
    case Minus => Some(MINUS)
    case Tilde => Some(BNOT)
    case Hash => Some(LEN)
    case _ => None
  }

  /** `getbinopr`. */
  function GetBinOp(t: Token): Option<BinOp> {
    match t
    case Plus => Some(ADD)
    case Minus => Some(SUB)
    case Star => Some(MUL)
    case Percent => Some(MOD)
    case Caret => Some(POW)
    case Slash => Some(DIV)
    case DoubleSlash => Some(IDIV)
    case Ampersand => Some(BAND)
    case Bar => Some(BOR)
    case Tilde => Some(BXOR)
    case ShiftLeft => Some(SHL)
    case ShiftRight => Some(SHR)
    case TwoDots => Some(CONCAT)
    case NotEqual => Some(NE)
    case Equal => Some(EQ)
    case Less => Some(LT)
    case LessEqual => Some(LE)
    case Greater => Some(GT)
    case GreaterEqual => Some(GE)
    case AndWord => Some(AND)
    case OrWord => Some(OR)
    case _ => None
  }

  function UnToken(op: UnOp): (t: Token)
    ensures GetUnOp(t) == Some(op)
  {
    match op case MINUS => Minus case BNOT => Tilde case NOT => NotWord case LEN => Hash
  }

  function BinToken(op: BinOp): (t: Token)
    ensures GetBinOp(t) == Some(op)
  {
    match op
    case ADD => Plus case SUB => Minus case MUL => Star case MOD => Percent case POW => Caret case DIV => Slash
    case IDIV => DoubleSlash case BAND => Ampersand case BOR => Bar case BXOR => Tilde case SHL => ShiftLeft
    case SHR => ShiftRight case CONCAT => TwoDots case EQ => Equal case LT => Less case LE => LessEqual
    case NE => NotEqual case GT => Greater case GE => GreaterEqual case AND => AndWord case OR => OrWord
  }

  // ---------- the table of priorities ----------

  function Left(op: BinOp): (p: nat)
    ensures 0 < p
  {
    match op
    case ADD => 10 case SUB => 10 case MUL => 11 case MOD => 11 case POW => 14 case DIV => 11 case IDIV => 11
    case BAND => 6 case BOR => 4 case BXOR => 5 case SHL => 7 case SHR => 7 case CONCAT => 9
    case EQ => 3 case LT => 3 case LE => 3 case NE => 3 case GT => 3 case GE => 3 case AND => 2 case OR => 1
  }

  function Right(op: BinOp): nat {
    match op
    case ADD => 10 case SUB => 10 case MUL => 11 case MOD => 11 case POW => 13 case DIV => 11 case IDIV => 11
    case BAND => 6 case BOR => 4 case BXOR => 5 case SHL => 7 case SHR => 7 case CONCAT => 8
    case EQ => 3 case LT => 3 case LE => 3 case NE => 3 case GT => 3 case GE => 3 case AND => 2 case OR => 1
  }

  const UNARY_PRIORITY: nat := 12
  const MAXCCALLS: nat := 200

  datatype Tree = Leaf(id: nat) | Un(uop: UnOp, e: Tree) | Bin(op: BinOp, l: Tree, r: Tree)

  /** The left priority of the operator at the start of `ts`, 0 if there is none. */
  function Follow(ts: seq<Token>): nat {
    if ts == [] then 0 else match GetBinOp(ts[0]) case Some(op) => Left(op) case None => 0
  }

  // ---------- the grammar ----------

  datatype Parsed = Ok(t: Tree, rest: seq<Token>) | Error

  /** The expression that `subexpr` reads with limit `limit`, at nesting level `level`: an operand, then
      operators as long as their left priority exceeds the limit. */
  function Sub(ts: seq<Token>, limit: nat, level: nat): (r: Parsed)
    ensures r.Ok? ==> |r.rest| < |ts| && Follow(r.rest) <= limit
    decreases |ts|, 1
  {
    if level >= MAXCCALLS || ts == [] then Error
    else if GetUnOp(ts[0]).Some? then
      var x := Sub(ts[1..], UNARY_PRIORITY, level + 1);
      if x.Error? then Error else More(Un(GetUnOp(ts[0]).value, x.t), x.rest, limit, level)
    else if ts[0].Name? then More(Leaf(ts[0].id), ts[1..], limit, level)
    else if ts[0] == LeftParen then
      var x := Sub(ts[1..], 0, level + 1);
      if x.Error? || x.rest == [] || x.rest[0] != RightParen then Error else More(x.t, x.rest[1..], limit, level)
    else Error
  }

  function More(t: Tree, ts: seq<Token>, limit: nat, level: nat): (r: Parsed)
    ensures r.Ok? ==> |r.rest| <= |ts| && Follow(r.rest) <= limit
    decreases |ts|, 0
  {
    if Follow(ts) <= limit then Ok(t, ts)
    else
      var op := GetBinOp(ts[0]).value;
      var x := Sub(ts[1..], Right(op), level + 1);
      if x.Error? then Error else More(Bin(op, t, x.t), x.rest, limit, level)
  }

  // ---------- printing ----------

  /** `e` needs no parentheses between a context that accepts left priorities above `limit` and an
      operator of left priority `follow`. */
  predicate Fits(e: Tree, limit: nat, follow: nat) {
    match e
    case Leaf(_) => true
    case Un(_, _) => follow <= UNARY_PRIORITY
    case Bin(op, _, _) => Left(op) > limit && follow <= Right(op)
  }

  function Bare(e: Tree, limit: nat, follow: nat): seq<Token>
    decreases e, 0
  {
    match e
    case Leaf(id) => [Name(id)]
    case Un(op, x) => [UnToken(op)] + Print(x, UNARY_PRIORITY, follow)
    case Bin(op, l, r) => Print(l, limit, Left(op)) + [BinToken(op)] + Print(r, Right(op), follow)
  }

  function Print(e: Tree, limit: nat, follow: nat): seq<Token>
    decreases e, 2
  {
    if Fits(e, limit, follow) then Bare(e, limit, follow) else Enclosed(e)
  }

  function Enclosed(e: Tree): seq<Token>
    decreases e, 1
  {
    [LeftParen] + Bare(e, 0, 0) + [RightParen]
  }

  /** How many calls of `subexpr` are nested when the printed text is read. */
  function Depth(e: Tree, limit: nat, follow: nat): (d: nat)
    ensures d > 0
    decreases e, 1
  {
    if Fits(e, limit, follow) then BareDepth(e, limit, follow) else 1 + BareDepth(e, 0, 0)
  }

  function BareDepth(e: Tree, limit: nat, follow: nat): (d: nat)
    ensures d > 0
    decreases e, 0
  {
    match e
    case Leaf(_) => 1
    case Un(_, x) => 1 + Depth(x, UNARY_PRIORITY, follow)
    case Bin(op, l, r) => Max(Depth(l, limit, Left(op)), 1 + Depth(r, Right(op), follow))
  }

  function Max(a: nat, b: nat): nat {
    if a > b then a else b
  }

  // ---------- the round trip ----------

  /** What `subexpr` does after it has read `e`, if the nesting is not too deep. */
  function After(e: Tree, rest: seq<Token>, limit: nat, level: nat, depth: nat): Parsed {
    if level + depth <= MAXCCALLS then More(e, rest, limit, level) else Error
  }

  lemma {:induction false} ReadBare(e: Tree, limit: nat, follow: nat, rest: seq<Token>, level: nat)
    requires Fits(e, limit, follow) && Follow(rest) <= follow
    ensures Sub(Bare(e, limit, follow) + rest, limit, level) == After(e, rest, limit, level, BareDepth(e, limit, follow))
    decreases e, 0
  {
    hide Sub, More, GetUnOp, GetBinOp, Print, Depth, Left, Right, Follow;
    var ts := Bare(e, limit, follow) + rest;
    match e
    case Leaf(id) =>
      assert ts[0] == Name(id) && ts[1..] == rest;
      NameIsNoOp(id);
      SubCases(ts, limit, level);
    case Un(op, x) =>
      assert ts[0] == UnToken(op) && ts[1..] == Print(x, UNARY_PRIORITY, follow) + rest;
      SubCases(ts, limit, level);
      ReadPrinted(x, UNARY_PRIORITY, follow, rest, level + 1);
      MoreCases(x, rest, UNARY_PRIORITY, level + 1);
    case Bin(op, l, r) =>
      var tail := Print(r, Right(op), follow) + rest;
      assert ts == Print(l, limit, Left(op)) + ([BinToken(op)] + tail);
      var next := [BinToken(op)] + tail;
      assert next[0] == BinToken(op) && next[1..] == tail;
      FollowIs(next, op);
      ReadPrinted(l, limit, Left(op), next, level);
      ReadPrinted(r, Right(op), follow, rest, level + 1);
      MoreCases(l, next, limit, level);
      MoreCases(r, rest, Right(op), level + 1);
  }

  lemma NameIsNoOp(id: nat)
    ensures GetUnOp(Name(id)) == None
  {
  }

  lemma FollowIs(ts: seq<Token>, op: BinOp)
    requires ts != [] && GetBinOp(ts[0]) == Some(op)
    ensures Follow(ts) == Left(op)
  {
  }

  lemma {:induction false} ReadPrinted(e: Tree, limit: nat, follow: nat, rest: seq<Token>, level: nat)
    requires Follow(rest) <= follow
    ensures Sub(Print(e, limit, follow) + rest, limit, level) == After(e, rest, limit, level, Depth(e, limit, follow))
    decreases e, 1
  {
    if Fits(e, limit, follow) {
      ReadBare(e, limit, follow, rest, level);
    } else {
      var ts := Enclosed(e) + rest;
      assert ts[1..] == Bare(e, 0, 0) + ([RightParen] + rest);
      assert ([RightParen] + rest)[1..] == rest;
      ReadBare(e, 0, 0, [RightParen] + rest, level + 1);
    }
  }

  /** Printed with only the parentheses that priorities demand, a tree is read back, and reading stops at the
      first operator of no higher left priority; the only other outcome, for text nested too deeply, is an
      error. */
  lemma ReadBack(e: Tree, limit: nat, follow: nat, rest: seq<Token>, level: nat)
    requires Follow(rest) <= follow && Follow(rest) <= limit
    ensures Sub(Print(e, limit, follow) + rest, limit, level)
      == if level + Depth(e, limit, follow) <= MAXCCALLS then Ok(e, rest) else Error
  {
    ReadPrinted(e, limit, follow, rest, level);
  }

  // ---------- no parentheses are superfluous ----------

  /** The operand at the left end of a tree, and the operand to its right, if any. */
  function Height(t: Tree): nat {
    match t case Leaf(_) => 0 case Un(_, _) => 0 case Bin(_, l, _) => 1 + Height(l)
  }

  /** Going on to read only adds at the root: what was there stays at the left. */
  ghost predicate AtLeft(t: Tree, e: Tree)
    decreases t
  {
    t == e || (t.Bin? && AtLeft(t.l, e))
  }

  lemma {:induction false} MoreKeeps(t: Tree, ts: seq<Token>, limit: nat, level: nat)
    ensures var r := More(t, ts, limit, level); r.Ok? ==> AtLeft(r.t, t)
    decreases |ts|
  {
    if Follow(ts) > limit {
      var op := GetBinOp(ts[0]).value;
      var x := Sub(ts[1..], Right(op), level + 1);
      if x.Ok? {
        MoreKeeps(Bin(op, t, x.t), x.rest, limit, level);
        var r := More(Bin(op, t, x.t), x.rest, limit, level);
        if r.Ok? {
          LeftPart(r.t, Bin(op, t, x.t));
        }
      }
    }
  }

  lemma {:induction false} LeftPart(t: Tree, e: Tree)
    requires AtLeft(t, e) && e.Bin?
    ensures AtLeft(t, e.l)
    decreases t
  {
    if t != e {
      LeftPart(t.l, e);
    } else {
      assert AtLeft(t.l, e.l);
    }
  }

  /** Trees of the same height at the left of the same tree are equal. */
  lemma {:induction false} SameHeight(t: Tree, e: Tree, f: Tree)
    requires AtLeft(t, e) && AtLeft(t, f) && Height(e) == Height(f)
    ensures e == f
    decreases t
  {
    if t != e && t != f {
      SameHeight(t.l, e, f);
    } else if t == e && t != f {
      LowerLeft(t.l, f);
    } else if t == f && t != e {
      LowerLeft(t.l, e);
    }
  }

  lemma {:induction false} LowerLeft(t: Tree, e: Tree)
    requires AtLeft(t, e)
    ensures Height(e) <= Height(t)
    decreases t
  {
    if t != e {
      LowerLeft(t.l, e);
    }
  }

  /** An operand takes the operator that follows it, if that binds more tightly than the limit. */
  lemma Absorbs(e: Tree, ts: seq<Token>, limit: nat, level: nat)
    requires Follow(ts) > limit
    ensures var r := More(e, ts, limit, level); r.Ok? ==> r.t != e
  {
    var op := GetBinOp(ts[0]).value;
    var x := Sub(ts[1..], Right(op), level + 1);
    if x.Ok? {
      MoreKeeps(Bin(op, e, x.t), x.rest, limit, level);
      var r := More(e, ts, limit, level);
      if r.Ok? && r.t == e {
        LowerLeft(e, Bin(op, e, x.t));
      }
    }
  }

  lemma NeededUn(e: Tree, limit: nat, follow: nat, rest: seq<Token>, level: nat)
    requires e.Un? && follow > UNARY_PRIORITY && Follow(rest) == follow && More(e, rest, limit, level).Ok?
    ensures Sub(Bare(e, limit, follow) + rest, limit, level) != More(e, rest, limit, level)
  {
    hide Print, Fits, Sub, More, GetUnOp, GetBinOp, Left, Right, Depth;
    var ts, x := Bare(e, limit, follow) + rest, e.e;
    MoreKeeps(e, rest, limit, level);
    assert ts[0] == UnToken(e.uop) && ts[1..] == Print(x, UNARY_PRIORITY, follow) + rest;
    hide Bare;
    ReadPrinted(x, UNARY_PRIORITY, follow, rest, level + 1);
    SubCases(ts, limit, level);
    var y := Sub(ts[1..], UNARY_PRIORITY, level + 1);
    Absorbs(x, rest, UNARY_PRIORITY, level + 1);
    if level < MAXCCALLS && y.Ok? {
      MoreKeeps(Un(e.uop, y.t), y.rest, limit, level);
      if Sub(ts, limit, level) == More(e, rest, limit, level) {
        SameHeight(More(e, rest, limit, level).t, e, Un(e.uop, y.t));
      }
    }
  }

  lemma NeededRight(e: Tree, limit: nat, follow: nat, rest: seq<Token>, level: nat)
    requires e.Bin? && Left(e.op) > limit && follow > Right(e.op) && Follow(rest) == follow && More(e, rest, limit, level).Ok?
    ensures More(e.l, [BinToken(e.op)] + Print(e.r, Right(e.op), follow) + rest, limit, level) != More(e, rest, limit, level)
  {
    var tail := Print(e.r, Right(e.op), follow) + rest;
    var ts := [BinToken(e.op)] + Print(e.r, Right(e.op), follow) + rest;
    assert ts[1..] == tail;
    MoreKeeps(e, rest, limit, level);
    ReadPrinted(e.r, Right(e.op), follow, rest, level + 1);
    hide Print;
    Absorbs(e.r, rest, Right(e.op), level + 1);
    var y := Sub(tail, Right(e.op), level + 1);
    if y.Ok? {
      assert More(e.l, ts, limit, level) == More(Bin(e.op, e.l, y.t), y.rest, limit, level);
      MoreKeeps(Bin(e.op, e.l, y.t), y.rest, limit, level);
      if More(e.l, ts, limit, level) == More(e, rest, limit, level) {
        SameHeight(More(e, rest, limit, level).t, e, Bin(e.op, e.l, y.t));
      }
    }
  }

  /** Where a tree does not fit, its text without parentheses is not read as that tree: parentheses are
      printed only where they are needed. `rest` starts with the operator that follows. */
  lemma Needed(e: Tree, limit: nat, follow: nat, rest: seq<Token>, level: nat)
    requires !Fits(e, limit, follow) && Follow(rest) == follow
    requires More(e, rest, limit, level).Ok?
    ensures Sub(Bare(e, limit, follow) + rest, limit, level) != More(e, rest, limit, level)
  {
    if e.Un? {
      NeededUn(e, limit, follow, rest, level);
    } else {
      var tail := [BinToken(e.op)] + Print(e.r, Right(e.op), follow) + rest;
      assert Bare(e, limit, follow) + rest == Print(e.l, limit, Left(e.op)) + tail;
      ReadPrinted(e.l, limit, Left(e.op), tail, level);
      if Left(e.op) > limit {
        NeededRight(e, limit, follow, rest, level);
      }
      hide Print, Sub;
    }
  }

  // ---------- the parser ----------

  /** The part of the lexer and of the C call counter that the parser of expressions uses. */
  class Parser {
    const tokens: seq<Token>
    var pos: nat
    var nCcalls: nat

    constructor (tokens: seq<Token>, nCcalls: nat)
      ensures this.tokens == tokens && this.nCcalls == nCcalls && pos == 0
    {
      this.tokens, this.nCcalls, pos := tokens, nCcalls, 0;
    }

    ghost function Rest(): seq<Token>
      reads `pos
    {
      if pos <= |tokens| then tokens[pos..] else []
    }

    /** The current token; 0 stands for the end of the text. */
    function Current(): (t: Token)
      reads `pos
      ensures Rest() != [] ==> t == Rest()[0]
      ensures Rest() == [] ==> t == Other(0)
    {
      if pos < |tokens| then tokens[pos] else Other(0)
    }

    lemma RestIs()
      requires pos <= |tokens|
      ensures |Rest()| == |tokens| - pos
      ensures GetBinOp(Current()) == if Rest() == [] then None else GetBinOp(Rest()[0])
    {
    }

    method Next()
      requires pos < |tokens|
      modifies `pos
      ensures pos == old(pos) + 1 && Rest() == old(Rest())[1..]
    {
      pos := pos + 1;
    }

    /** `simpleexp` for names, and expressions in parentheses. */
    method SimpleExp() returns (r: Option<Tree>)
      requires pos <= |tokens| && nCcalls > 0 && GetUnOp(Current()).None?
      modifies `pos, `nCcalls
      ensures pos <= |tokens|
      ensures var ts := old(Rest());
        match r
        case Some(t) => nCcalls == old(nCcalls) && ts != [] &&
          if ts[0].Name? then t == Leaf(ts[0].id) && Rest() == ts[1..]
          else ts[0] == LeftParen && var x := Sub(ts[1..], 0, nCcalls); x.Ok? && t == x.t && x.rest != [] && x.rest[0] == RightParen && Rest() == x.rest[1..]
        case None => ts == [] || !(ts[0].Name? || (ts[0] == LeftParen && var x := Sub(ts[1..], 0, old(nCcalls)); x.Ok? && x.rest != [] && x.rest[0] == RightParen))
      decreases |tokens| - pos, 0
    {
      var token := Current();
      if token == LeftParen {
        Next();
        var ok, t, op := SubExpr(0);
        if !ok || Current() != RightParen {
          return None;
        }
        Next();
        return Some(t);
      } else if token.Name? {
        Next();
        return Some(Leaf(token.id));
      } else {
        return None;
      }
    }

    /** The operand at the start of `subexpr`: `unop subexpr` or a simple expression. */
    method Operand(ghost limit: nat) returns (r: Option<Tree>)
      requires pos <= |tokens| && 0 < nCcalls <= MAXCCALLS
      modifies `pos, `nCcalls
      ensures pos <= |tokens|
      ensures var p := Sub(old(Rest()), limit, old(nCcalls) - 1);
        if r.Some? then p == More(r.value, Rest(), limit, old(nCcalls) - 1) && nCcalls == old(nCcalls) && pos > old(pos) else p == Error
      decreases |tokens| - pos, 1
    {
      hide Sub, More, GetUnOp, GetBinOp;
      NoneAtEnd();
      SubCases(Rest(), limit, nCcalls - 1);
      var uop := GetUnOp(Current());
      if uop.Some? {
        Next();
        var ok, t, op := SubExpr(UNARY_PRIORITY);
        return if ok then Some(Un(uop.value, t)) else None;
      }
      r := SimpleExp();
    }

    /** `subexpr`: the tree, and the first operator that it leaves. */
    method SubExpr(limit: nat) returns (ok: bool, t: Tree, op: Option<BinOp>)
      requires pos <= |tokens|
      modifies `pos, `nCcalls
      ensures pos <= |tokens|
      ensures ok ==> Sub(old(Rest()), limit, old(nCcalls)) == Ok(t, Rest()) && op == GetBinOp(Current()) && nCcalls == old(nCcalls) && pos > old(pos)
      ensures !ok ==> Sub(old(Rest()), limit, old(nCcalls)) == Error
      decreases |tokens| - pos, 2
    {
      hide Sub, More, GetUnOp, GetBinOp, Left, Right, Follow, Rest, Current;
      ghost var ts, level := Rest(), nCcalls;
      t, op := Leaf(0), None;
      nCcalls := nCcalls + 1;
      if nCcalls > MAXCCALLS {
        SubCases(ts, limit, level);
        return false, t, op;
      }
      var operand := Operand(limit);
      if operand.None? {
        return false, t, op;
      }
      t := operand.value;
      NoneAtEnd();
      op := GetBinOp(Current());
      while op.Some? && Left(op.value) > limit
        invariant old(pos) < pos <= |tokens| && nCcalls == level + 1 && op == GetBinOp(Current())
        invariant Sub(ts, limit, level) == More(t, Rest(), limit, level)
        decreases |tokens| - pos
      {
        ghost var rest := Rest();
        RestIs();
        OneMore(t, rest, op, limit, level);
        Next();
        var nextop, v2;
        ok, v2, nextop := SubExpr(Right(op.value));
        if !ok {
          return;
        }
        t := Bin(op.value, t, v2);
        op := nextop;
      }
      RestIs();
      NoMore(t, Rest(), op, limit, level);
      nCcalls := nCcalls - 1;
      ok := true;
    }
  }

  lemma SubCases(ts: seq<Token>, limit: nat, level: nat)
    ensures level >= MAXCCALLS || ts == [] ==> Sub(ts, limit, level) == Error
    ensures level < MAXCCALLS && ts != [] && GetUnOp(ts[0]).Some? ==>
      var x := Sub(ts[1..], UNARY_PRIORITY, level + 1);
      Sub(ts, limit, level) == if x.Error? then Error else More(Un(GetUnOp(ts[0]).value, x.t), x.rest, limit, level)
    ensures level < MAXCCALLS && ts != [] && ts[0].Name? ==> Sub(ts, limit, level) == More(Leaf(ts[0].id), ts[1..], limit, level)
    ensures level < MAXCCALLS && ts != [] && ts[0] == LeftParen ==>
      var x := Sub(ts[1..], 0, level + 1);
      Sub(ts, limit, level) == if x.Error? || x.rest == [] || x.rest[0] != RightParen then Error else More(x.t, x.rest[1..], limit, level)
    ensures ts != [] && GetUnOp(ts[0]).None? && !ts[0].Name? && ts[0] != LeftParen ==> Sub(ts, limit, level) == Error
  {
  }

  lemma StopsHere(ts: seq<Token>, op: Option<BinOp>, limit: nat)
    requires ts != [] ==> op == GetBinOp(ts[0])
    requires op.Some? ==> Left(op.value) <= limit
    ensures Follow(ts) <= limit
  {
  }

  /** A turn of the loop in `SubExpr`. */
  lemma OneMore(t: Tree, ts: seq<Token>, op: Option<BinOp>, limit: nat, level: nat)
    requires op == if ts == [] then None else GetBinOp(ts[0])
    requires op.Some? && Left(op.value) > limit
    ensures ts != []
    ensures var x := Sub(ts[1..], Right(op.value), level + 1);
      More(t, ts, limit, level) == if x.Error? then Error else More(Bin(op.value, t, x.t), x.rest, limit, level)
  {
    FollowIs(ts, op.value);
    MoreCases(t, ts, limit, level);
  }

  lemma NoMore(t: Tree, ts: seq<Token>, op: Option<BinOp>, limit: nat, level: nat)
    requires op == if ts == [] then None else GetBinOp(ts[0])
    requires op.None? || Left(op.value) <= limit
    ensures More(t, ts, limit, level) == Ok(t, ts)
  {
    StopsHere(ts, op, limit);
    MoreCases(t, ts, limit, level);
  }

  lemma NoneAtEnd()
    ensures GetBinOp(Other(0)) == None && GetUnOp(Other(0)) == None
  {
  }

  lemma MoreCases(t: Tree, ts: seq<Token>, limit: nat, level: nat)
    ensures Follow(ts) <= limit ==> More(t, ts, limit, level) == Ok(t, ts)
    ensures Follow(ts) > limit ==> ts != [] && GetBinOp(ts[0]).Some?
    ensures Follow(ts) > limit ==>
      var op := GetBinOp(ts[0]).value;
      var x := Sub(ts[1..], Right(op), level + 1);
      More(t, ts, limit, level) == if x.Error? then Error else More(Bin(op, t, x.t), x.rest, limit, level)
  {
  }
}
