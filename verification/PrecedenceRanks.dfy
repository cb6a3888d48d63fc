/** How operators group, by the levels of section 3.4.8 of the Lua 5.3 Reference Manual. */
module PrecedenceRanks {
  import opened Options
  import opened Precedence

  /** The levels of the manual, from the lowest to the highest. */
  function Rank(op: BinOpr): nat {
    match op
    case Or => 1
    case And => 2
    case Lt => 3 case Gt => 3 case Le => 3 case Ge => 3 case Ne => 3 case Eq => 3
    case BOr => 4
    case BXor => 5
    case BAnd => 6
    case Shl => 7 case Shr => 7
    case Concat => 8
    case Add => 9 case Sub => 9
    case Mul => 10 case Div => 10 case IDiv => 10 case Mod => 10
    case Pow => 12
  }

  const UNARY_RANK: nat := 11

  /** Concatenation and exponentiation are right associative, all others left associative. */
  predicate RightAssociative(op: BinOpr) {
    op == Concat || op == Pow
  }

  /** In `a p b q c` the operand `b` belongs to `q`. */
  predicate TakesRight(p: BinOpr, q: BinOpr) {
    Rank(q) > Rank(p) || (Rank(q) == Rank(p) && RightAssociative(q))
  }

  /** No operator at the right edge of `e` takes its operand away when `q` comes next. */
  predicate Ends(e: Expr, q: BinOpr) {
    match e
    case Var(_) => true
    case Unary(_, x) => Rank(q) < UNARY_RANK && Ends(x, q)
    case Binary(p, _, r) => !TakesRight(p, q) && Ends(r, q)
  }

  /** The expression is grouped as the levels want it, without any parentheses. */
  predicate Grouped(e: Expr) {
    match e
    case Var(_) => true
    case Unary(_, x) => Grouped(x) && (x.Binary? ==> Rank(x.op) > UNARY_RANK)
    case Binary(q, l, r) => Grouped(l) && Grouped(r) && Ends(l, q) && (r.Binary? ==> TakesRight(q, r.op))
  }

  /** The expression without parentheses. */
  function Flat(e: Expr): seq<Token> {
    match e
    case Var(n) => [Name(n)]
    case Unary(op, x) => [UnToken(op)] + Flat(x)
    case Binary(op, l, r) => Flat(l) + [BinToken(op)] + Flat(r)
  }

  // ---------- priorities and levels ----------

  lemma RankLeft(op: BinOpr)
    ensures Left(op) == if Rank(op) < 8 then Rank(op) else if Rank(op) == 12 then 14 else if Rank(op) == 8 then 9
      else Rank(op) + 1
  {
  }

  lemma RankRight(op: BinOpr)
    ensures Right(op) == if Rank(op) <= 8 then Rank(op) else Rank(op) + 1
    ensures RightAssociative(op) <==> Rank(op) == 8 || Rank(op) == 12
    ensures 0 < Rank(op) <= 12 && Rank(op) != UNARY_RANK
  {
  }

  lemma Taken(p: BinOpr, q: BinOpr)
    ensures Left(q) > Right(p) <==> TakesRight(p, q)
    ensures Left(q) > UNARY_PRIORITY <==> Rank(q) > UNARY_RANK
    ensures Left(q) >= Right(q) > 0
  {
    hide Left, Right, Rank, RightAssociative;
    RankLeft(q);
    RankRight(q);
    RankRight(p);
  }

  /** Operators above `limit` at the left edge. */
  predicate LeftOk(e: Expr, limit: nat) {
    e.Binary? ==> Left(e.op) > limit && LeftOk(e.l, limit)
  }

  /** The operator of priority `next` behind the expression takes nothing away. */
  predicate RightOk(e: Expr, next: nat) {
    match e
    case Var(_) => true
    case Unary(_, x) => next <= UNARY_PRIORITY && RightOk(x, next)
    case Binary(p, _, r) => next <= Right(p) && RightOk(r, next)
  }

  lemma {:induction false} EndsRight(e: Expr, q: BinOpr)
    ensures Ends(e, q) <==> RightOk(e, Left(q))
    decreases e
  {
    hide Left, Right, Rank, TakesRight;
    match e
    case Var(_) =>
    case Unary(_, x) =>
      Taken(q, q);
      RankRight(q);
      EndsRight(x, q);
    case Binary(p, _, r) =>
      Taken(p, q);
      EndsRight(r, q);
  }

  lemma {:induction false} RightLess(e: Expr, next: nat, less: nat)
    requires RightOk(e, next) && less <= next
    ensures RightOk(e, less)
    decreases e
  {
    match e
    case Var(_) =>
    case Unary(_, x) => RightLess(x, next, less);
    case Binary(_, _, r) => RightLess(r, next, less);
  }

  /** Left of an operator there are only such that bind at least as tightly. */
  lemma {:induction false} LeftEdge(e: Expr, limit: nat)
    requires Grouped(e) && (e.Binary? ==> Left(e.op) > limit)
    ensures LeftOk(e, limit)
    decreases e
  {
    hide Left, Right, Rank, TakesRight;
    if e.Binary? && e.l.Binary? {
      Taken(e.l.op, e.op);
      Taken(e.l.op, e.l.op);
      LeftEdge(e.l, limit);
    } else if e.Binary? {
      LeftEdge(e.l, limit);
    }
  }

  /** The printer writes no parentheses around what is grouped by the levels. */
  lemma {:induction false} NoParentheses(e: Expr, limit: nat, next: nat)
    requires Grouped(e) && LeftOk(e, limit) && RightOk(e, next)
    ensures Print(e, limit, next) == Flat(e)
    decreases e
  {
    hide Left, Right, Rank, TakesRight, Ends, RightAssociative;
    match e
    case Var(_) =>
    case Unary(_, x) =>
      if x.Binary? {
        Taken(x.op, x.op);
      }
      LeftEdge(x, UNARY_PRIORITY);
      NoParentheses(x, UNARY_PRIORITY, next);
    case Binary(op, l, r) =>
      EndsRight(l, op);
      NoParentheses(l, limit, Left(op));
      if r.Binary? {
        Taken(op, r.op);
      }
      LeftEdge(r, Right(op));
      NoParentheses(r, Right(op), next);
  }

  lemma {:induction false} RightNothing(e: Expr)
    ensures RightOk(e, 0)
    decreases e
  {
    match e
    case Var(_) =>
    case Unary(_, x) => RightNothing(x);
    case Binary(_, _, r) => RightNothing(r);
  }

  lemma LeftNothing(e: Expr)
    requires Grouped(e)
    ensures LeftOk(e, 0)
  {
    if e.Binary? {
      Taken(e.op, e.op);
    }
    LeftEdge(e, 0);
  }

  // ---------- what the parser reads ----------

  /** An expression that is grouped by the levels is read from its tokens alone. */
  lemma GroupedReads(e: Expr, rest: seq<Token>)
    requires Grouped(e) && GetBinOpr(Next(rest)).None? && Levels(e, 0, 0) < LUAI_MAXCCALLS
    ensures SubExpr(0, Flat(e) + rest, 0) == Done(e, rest)
  {
    hide SubExpr, Print, Grouped, LeftOk, RightOk, Flat;
    LeftNothing(e);
    RightNothing(e);
    NoParentheses(e, 0, 0);
    ParsePrint(e, rest);
  }

  /** What is read stands for its tokens and is grouped by the levels. */
  ghost predicate Read(toks: seq<Token>, limit: nat, r: Result) {
    r.Done? ==>
      && Grouped(r.e) && Flat(r.e) + r.rest == toks && (r.e.Binary? ==> Left(r.e.op) > limit)
      && RightOk(r.e, Priority(r.rest)) && Priority(r.rest) <= limit
  }

  lemma {:induction false} SubExprGrouped(limit: nat, toks: seq<Token>, level: nat)
    requires OpenParen !in toks
    ensures Read(toks, limit, SubExpr(limit, toks, level))
    decreases |toks|, 2
  {
    hide Left, Right, Rank, TakesRight, Ends, Operators, Priority;
    if SubExpr(limit, toks, level).Done? {
      assert toks != [] && toks[0] in toks && toks == [toks[0]] + toks[1..];
      if GetUnOpr(Next(toks)).Some? {
        var op := GetUnOpr(Next(toks)).value;
        UnaryTokens(toks[0], op);
        SubExprGrouped(UNARY_PRIORITY, toks[1..], level + 1);
        var x := SubExpr(UNARY_PRIORITY, toks[1..], level + 1);
        if x.e.Binary? {
          Taken(x.e.op, x.e.op);
        }
        assert [toks[0]] + (Flat(x.e) + x.rest) == Flat(Unary(op, x.e)) + x.rest;
        SuffixPlain(toks, Flat(Unary(op, x.e)), x.rest);
        OperatorsGrouped(limit, Unary(op, x.e), x.rest, level + 1);
      } else {
        NameFirst(limit, toks, level);
        var v := Var(toks[0].n);
        assert Flat(v) + toks[1..] == toks;
        OperatorsGrouped(limit, v, toks[1..], level + 1);
      }
    }
  }

  lemma NameFirst(limit: nat, toks: seq<Token>, level: nat)
    requires SubExpr(limit, toks, level).Done? && GetUnOpr(Next(toks)).None?
    requires toks != [] && toks[0] != OpenParen
    ensures toks[0].Name?
    ensures SubExpr(limit, toks, level) == Operators(limit, Var(toks[0].n), toks[1..], level + 1)
  {
  }

  lemma UnaryTokens(t: Token, op: UnOpr)
    requires GetUnOpr(t) == Some(op)
    ensures t == UnToken(op)
  {
  }

  lemma BinaryTokens(t: Token, op: BinOpr)
    requires GetBinOpr(t) == Some(op)
    ensures t == BinToken(op)
  {
  }

  lemma SuffixPlain(toks: seq<Token>, a: seq<Token>, b: seq<Token>)
    requires OpenParen !in toks && a + b == toks
    ensures OpenParen !in b && |b| <= |toks|
  {
    forall i | 0 <= i < |b| ensures b[i] in toks {
      assert toks[|a| + i] == b[i];
    }
  }

  lemma {:induction false} OperatorsGrouped(limit: nat, v: Expr, toks: seq<Token>, level: nat)
    requires OpenParen !in toks && Grouped(v) && RightOk(v, Priority(toks)) && (v.Binary? ==> Left(v.op) > limit)
    ensures Read(Flat(v) + toks, limit, Operators(limit, v, toks, level))
    decreases |toks|, 1
  {
    hide Left, Right, Rank, TakesRight, Ends, RightOk, SubExpr;
    var op := GetBinOpr(Next(toks));
    if op.Some? && Left(op.value) > limit {
      var op := op.value;
      BinaryTokens(toks[0], op);
      assert toks == [toks[0]] + toks[1..];
      SubExprGrouped(Right(op), toks[1..], level);
      var x := SubExpr(Right(op), toks[1..], level);
      if x.Done? {
        SuffixPlain(toks[1..], Flat(x.e), x.rest);
        JoinGrouped(op, v, x.e, Priority(x.rest));
        assert Flat(v) + ([toks[0]] + (Flat(x.e) + x.rest)) == Flat(Binary(op, v, x.e)) + x.rest;
        OperatorsGrouped(limit, Binary(op, v, x.e), x.rest, level);
      }
    } else {
      NothingTaken(toks, limit);
    }
  }

  lemma NothingTaken(toks: seq<Token>, limit: nat)
    requires GetBinOpr(Next(toks)).Some? ==> Left(GetBinOpr(Next(toks)).value) <= limit
    ensures Priority(toks) <= limit
  {
  }

  lemma JoinGrouped(op: BinOpr, l: Expr, r: Expr, next: nat)
    requires Grouped(l) && Grouped(r) && RightOk(l, Left(op)) && RightOk(r, next) && next <= Right(op)
    requires r.Binary? ==> Left(r.op) > Right(op)
    ensures Grouped(Binary(op, l, r)) && RightOk(Binary(op, l, r), next)
  {
    hide Left, Right, Rank, TakesRight, Ends;
    EndsRight(l, op);
    if r.Binary? {
      Taken(op, r.op);
    }
  }

  /** Tokens without parentheses are read as an expression exactly when they are its tokens
      and it is grouped by the levels. */
  lemma ReadsExactly(toks: seq<Token>, e: Expr, rest: seq<Token>)
    requires OpenParen !in toks && GetBinOpr(Next(rest)).None? && Levels(e, 0, 0) < LUAI_MAXCCALLS
    ensures SubExpr(0, toks, 0) == Done(e, rest) <==> Grouped(e) && toks == Flat(e) + rest
  {
    hide SubExpr, Levels, Flat, Grouped;
    SubExprGrouped(0, toks, 0);
    if Grouped(e) && toks == Flat(e) + rest {
      GroupedReads(e, rest);
    }
  }

  function Height(e: Expr): nat {
    match e
    case Var(_) => 0
    case Unary(_, x) => 1 + Height(x)
    case Binary(_, l, r) => 1 + Max(Height(l), Height(r))
  }

  /** The parser goes at most two levels deeper for each operator. */
  lemma {:induction false} DepthBound(e: Expr, limit: nat, next: nat)
    ensures Levels(e, limit, next) <= 2 * Height(e) + 1
    decreases e, 1
  {
    BareDepth(e, limit, next);
    BareDepth(e, 0, 0);
  }

  lemma {:induction false} BareDepth(e: Expr, limit: nat, next: nat)
    ensures BareLevels(e, limit, next) <= 2 * Height(e)
    decreases e, 0
  {
    match e
    case Var(_) =>
    case Unary(_, x) => DepthBound(x, UNARY_PRIORITY, next);
    case Binary(op, l, r) =>
      DepthBound(l, limit, Left(op));
      DepthBound(r, Right(op), next);
  }

  lemma ReadTree(e: Expr)
    requires Grouped(e) && Height(e) <= 2
    ensures SubExpr(0, Flat(e), 0) == Done(e, [])
  {
    hide SubExpr, Grouped, Flat;
    DepthBound(e, 0, 0);
    GroupedReads(e, []);
    assert Flat(e) + [] == Flat(e);
  }

  lemma Single(a: nat, p: BinOpr, b: nat, q: BinOpr)
    ensures
      var t := Binary(p, Var(a), Var(b));
      && Grouped(t) && Height(t) == 1 && Flat(t) == [Name(a), BinToken(p), Name(b)]
      && (Ends(t, q) <==> !TakesRight(p, q))
  {
    var t := Binary(p, Var(a), Var(b));
    assert Flat(t) == [Name(a)] + [BinToken(p)] + [Name(b)];
    assert Height(Var(a)) == 0 && Height(Var(b)) == 0;
    assert Grouped(Var(a)) && Grouped(Var(b)) && Ends(Var(a), p) && Ends(Var(b), q);
  }

  /** Two operators: the second takes the operand between them if its level is higher, or
      the same and it is right associative. */
  lemma Pairs(a: nat, p: BinOpr, b: nat, q: BinOpr, c: nat)
    ensures SubExpr(0, [Name(a), BinToken(p), Name(b), BinToken(q), Name(c)], 0) ==
      Done(if TakesRight(p, q) then Binary(p, Var(a), Binary(q, Var(b), Var(c)))
           else Binary(q, Binary(p, Var(a), Var(b)), Var(c)), [])
  {
    hide SubExpr, BinToken, TakesRight;
    Single(a, p, b, q);
    Single(b, q, c, q);
    if TakesRight(p, q) {
      var r := Binary(q, Var(b), Var(c));
      var e := Binary(p, Var(a), r);
      assert Grouped(e) && Height(e) == 2 && Flat(e) == Flat(Var(a)) + [BinToken(p)] + Flat(r);
      assert Flat(e) == [Name(a), BinToken(p), Name(b), BinToken(q), Name(c)];
      ReadTree(e);
    } else {
      var l := Binary(p, Var(a), Var(b));
      var e := Binary(q, l, Var(c));
      assert Grouped(e) && Height(e) == 2 && Flat(e) == Flat(l) + [BinToken(q)] + Flat(Var(c));
      assert Flat(e) == [Name(a), BinToken(p), Name(b), BinToken(q), Name(c)];
      ReadTree(e);
    }
  }

  /** A unary operator takes a binary operation as its operand only if that is a power. */
  lemma UnaryPairs(u: UnOpr, a: nat, q: BinOpr, b: nat)
    ensures SubExpr(0, [UnToken(u), Name(a), BinToken(q), Name(b)], 0) ==
      Done(if q == Pow then Unary(u, Binary(q, Var(a), Var(b))) else Binary(q, Unary(u, Var(a)), Var(b)), [])
  {
    hide SubExpr, BinToken, UnToken;
    if q == Pow {
      Single(a, q, b, q);
      var x := Binary(q, Var(a), Var(b));
      var e := Unary(u, x);
      assert Grouped(e) && Height(e) == 2 && Flat(e) == [UnToken(u)] + Flat(x);
      assert Flat(e) == [UnToken(u), Name(a), BinToken(q), Name(b)];
      ReadTree(e);
    } else {
      var l := Unary(u, Var(a));
      var e := Binary(q, l, Var(b));
      assert Rank(q) < UNARY_RANK && Ends(Var(a), q) && Ends(l, q);
      assert Flat(l) == [UnToken(u)] + Flat(Var(a)) && Height(Var(a)) == 0 && Height(l) == 1;
      assert Grouped(Var(a)) && Grouped(Var(b)) && Height(Var(b)) == 0;
      assert Grouped(l) && Flat(Var(b)) == [Name(b)];
      assert Grouped(e) && Height(e) == 2 && Flat(e) == Flat(l) + [BinToken(q)] + Flat(Var(b));
      assert Flat(e) == [UnToken(u), Name(a), BinToken(q), Name(b)];
      ReadTree(e);
    }
  }
}
