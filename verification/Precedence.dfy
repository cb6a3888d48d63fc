/** Precedence climbing, and a printer that writes only the parentheses it needs. */
module Precedence {
  import opened Options

  datatype BinOpr =
    | Add | Sub | Mul | Mod | Pow | Div | IDiv | BAnd | BOr | BXor | Shl | Shr | Concat
    | Eq | Lt | Le | Ne | Gt | Ge | And | Or

  datatype UnOpr = Minus | BNot | Not | Len

  /** The tokens of expressions; minus and tilde are binary and unary operators. */
  datatype Token =
    | Name(n: nat) | OpenParen | CloseParen | TkMinus | TkTilde | TkNot | TkHash
    | TkBinary(op: BinOpr) | TkOther(k: nat)

  function GetUnOpr(t: Token): Option<UnOpr> {
    match t
    case TkNot => Some(Not)
    case TkMinus => Some(Minus)
    case TkTilde => Some(BNot)
    case TkHash => Some(Len)
    case _ => None
  }

  /** Each binary operator has its own token, except the two that are unary as well. */
  function GetBinOpr(t: Token): Option<BinOpr> {
    match t
    case TkMinus => Some(Sub)
    case TkTilde => Some(BXor)
    case TkBinary(op) => if op == Sub || op == BXor then None else Some(op)
    case _ => None
  }

  function BinToken(op: BinOpr): (t: Token)
    ensures GetBinOpr(t) == Some(op)
  {
    if op == Sub then TkMinus else if op == BXor then TkTilde else TkBinary(op)
  }

  function UnToken(op: UnOpr): (t: Token)
    ensures GetUnOpr(t) == Some(op)
  {
    match op
    case Minus => TkMinus
    case BNot => TkTilde
    case Not => TkNot
    case Len => TkHash
  }

  function Left(op: BinOpr): nat {
    match op
    case Add => 10 case Sub => 10
    case Mul => 11 case Mod => 11
    case Pow => 14
    case Div => 11 case IDiv => 11
    case BAnd => 6 case BOr => 4 case BXor => 5
    case Shl => 7 case Shr => 7
    case Concat => 9
    case Eq => 3 case Lt => 3 case Le => 3 case Ne => 3 case Gt => 3 case Ge => 3
    case And => 2 case Or => 1
  }

  function Right(op: BinOpr): nat {
    match op
    case Add => 10 case Sub => 10
    case Mul => 11 case Mod => 11
    case Pow => 13
    case Div => 11 case IDiv => 11
    case BAnd => 6 case BOr => 4 case BXor => 5
    case Shl => 7 case Shr => 7
    case Concat => 8
    case Eq => 3 case Lt => 3 case Le => 3 case Ne => 3 case Gt => 3 case Ge => 3
    case And => 2 case Or => 1
  }

  const UNARY_PRIORITY: nat := 12
  const LUAI_MAXCCALLS: nat := 200

  datatype Expr = Var(n: nat) | Unary(uop: UnOpr, e: Expr) | Binary(op: BinOpr, l: Expr, r: Expr)

  // ---------- the parser as functions ----------

  datatype Result = Done(e: Expr, rest: seq<Token>) | Error

  function Next(toks: seq<Token>): Token {
    if toks == [] then TkOther(0) else toks[0]
  }

  /** The left priority of the operator that comes next; 0 when there is none. */
  function Priority(toks: seq<Token>): nat {
    if GetBinOpr(Next(toks)).Some? then Left(GetBinOpr(Next(toks)).value) else 0
  }

  function SubExpr(limit: nat, toks: seq<Token>, level: nat): (r: Result)
    ensures r.Done? ==> |r.rest| < |toks|
    decreases |toks|, 2
  {
    if level >= LUAI_MAXCCALLS then Error
    else
      var u := GetUnOpr(Next(toks));
      var first :=
        if u.Some? then
          var x := SubExpr(UNARY_PRIORITY, toks[1..], level + 1);
          if x.Done? then Done(Unary(u.value, x.e), x.rest) else Error
        else SimpleExp(toks, level + 1);
      if first.Done? then Operators(limit, first.e, first.rest, level + 1) else Error
  }

  /** A name or an expression in parentheses. */
  function SimpleExp(toks: seq<Token>, level: nat): (r: Result)
    ensures r.Done? ==> |r.rest| < |toks|
    decreases |toks|, 1
  {
    match Next(toks)
    case Name(n) => Done(Var(n), toks[1..])
    case OpenParen =>
      var x := SubExpr(0, toks[1..], level);
      if x.Done? && Next(x.rest) == CloseParen then Done(x.e, x.rest[1..]) else Error
    case _ => Error
  }

  /** Takes operators with a priority above the limit, with their right operands. */
  function Operators(limit: nat, v: Expr, toks: seq<Token>, level: nat): (r: Result)
    ensures r.Done? ==> |r.rest| <= |toks|
    decreases |toks|, 0
  {
    var op := GetBinOpr(Next(toks));
    if op.Some? && Left(op.value) > limit then
      var x := SubExpr(Right(op.value), toks[1..], level);
      if x.Done? then Operators(limit, Binary(op.value, v, x.e), x.rest, level) else Error
    else Done(v, toks)
  }

  // ---------- the printer ----------

  /** Whether `e` needs no parentheses where operators above `limit` are taken and one of
      priority `next` comes behind. */
  predicate Fits(e: Expr, limit: nat, next: nat) {
    match e
    case Var(_) => true
    case Unary(_, _) => next <= UNARY_PRIORITY
    case Binary(op, _, _) => Left(op) > limit && next <= Right(op)
  }

  function Print(e: Expr, limit: nat, next: nat): seq<Token>
    decreases e, 1
  {
    if Fits(e, limit, next) then Bare(e, limit, next) else [OpenParen] + Bare(e, 0, 0) + [CloseParen]
  }

  /** The expression without parentheses around it. */
  function Bare(e: Expr, limit: nat, next: nat): seq<Token>
    decreases e, 0
  {
    match e
    case Var(n) => [Name(n)]
    case Unary(op, x) => [UnToken(op)] + Print(x, UNARY_PRIORITY, next)
    case Binary(op, l, r) => Print(l, limit, Left(op)) + [BinToken(op)] + Print(r, Right(op), next)
  }

  function Max(a: nat, b: nat): nat {
    if a > b then a else b
  }

  /** How deep the parser goes for the printed expression. */
  function Levels(e: Expr, limit: nat, next: nat): nat
    decreases e, 1
  {
    if Fits(e, limit, next) then BareLevels(e, limit, next) else 1 + BareLevels(e, 0, 0)
  }

  function BareLevels(e: Expr, limit: nat, next: nat): nat
    decreases e, 0
  {
    match e
    case Var(_) => 0
    case Unary(_, x) => 1 + Levels(x, UNARY_PRIORITY, next)
    case Binary(op, l, r) => Max(Levels(l, limit, Left(op)), 1 + Levels(r, Right(op), next))
  }

  // ---------- parsing what was printed ----------

  lemma Associate(a: seq<Token>, t: Token, b: seq<Token>, rest: seq<Token>)
    ensures a + [t] + b + rest == a + ([t] + (b + rest))
    ensures [t] + b + rest == [t] + (b + rest)
    ensures ([t] + (b + rest))[1..] == b + rest
  {
  }

  lemma UnaryStep(limit: nat, op: UnOpr, toks: seq<Token>, level: nat)
    requires level < LUAI_MAXCCALLS
    ensures
      var x := SubExpr(UNARY_PRIORITY, toks, level + 1);
      SubExpr(limit, [UnToken(op)] + toks, level) ==
        if x.Done? then Operators(limit, Unary(op, x.e), x.rest, level + 1) else Error
  {
    assert ([UnToken(op)] + toks)[1..] == toks;
  }

  lemma BinaryStep(limit: nat, v: Expr, op: BinOpr, toks: seq<Token>, level: nat)
    ensures
      var x := SubExpr(Right(op), toks, level);
      Operators(limit, v, [BinToken(op)] + toks, level) ==
        if Left(op) <= limit then Done(v, [BinToken(op)] + toks)
        else if x.Done? then Operators(limit, Binary(op, v, x.e), x.rest, level) else Error
  {
    assert ([BinToken(op)] + toks)[1..] == toks;
  }

  lemma BehindPriority(op: BinOpr, toks: seq<Token>)
    ensures Priority([BinToken(op)] + toks) == Left(op)
  {
  }

  /** No operator is taken. */
  lemma TakesNone(limit: nat, v: Expr, toks: seq<Token>, level: nat)
    requires Priority(toks) <= limit
    ensures Operators(limit, v, toks, level) == Done(v, toks)
  {
  }

  /** The bare form, where it may stand, is read as the expression, and reading goes on
      with the operators behind it. */
  lemma {:induction false} BareReads(e: Expr, limit: nat, next: nat, rest: seq<Token>, level: nat)
    requires (e.Unary? ==> next <= UNARY_PRIORITY) && (e.Binary? ==> Left(e.op) > limit && next <= Right(e.op))
    requires Priority(rest) <= next && level + BareLevels(e, limit, next) < LUAI_MAXCCALLS
    ensures SubExpr(limit, Bare(e, limit, next) + rest, level) == Operators(limit, e, rest, level + 1)
    decreases e, 0
  {
    match e
    case Var(n) =>
      assert ([Name(n)] + rest)[1..] == rest;
    case Unary(op, x) =>
      hide SubExpr, Operators, Print, Levels, Priority, UnToken;
      var p := Print(x, UNARY_PRIORITY, next);
      Associate([], UnToken(op), p, rest);
      PrintReads(x, UNARY_PRIORITY, next, rest, level + 1);
      TakesNone(UNARY_PRIORITY, x, rest, level + 2);
      UnaryStep(limit, op, p + rest, level);
    case Binary(op, l, r) =>
      hide SubExpr, Operators, Print, Levels, Priority, BinToken, Left, Right;
      var p, q := Print(l, limit, Left(op)), Print(r, Right(op), next);
      var behind := [BinToken(op)] + (q + rest);
      Associate(p, BinToken(op), q, rest);
      BehindPriority(op, q + rest);
      PrintReads(l, limit, Left(op), behind, level);
      PrintReads(r, Right(op), next, rest, level + 1);
      TakesNone(Right(op), r, rest, level + 2);
      BinaryStep(limit, l, op, q + rest, level + 1);
  }

  lemma {:induction false} PrintReads(e: Expr, limit: nat, next: nat, rest: seq<Token>, level: nat)
    requires Priority(rest) <= next && level + Levels(e, limit, next) < LUAI_MAXCCALLS
    ensures SubExpr(limit, Print(e, limit, next) + rest, level) == Operators(limit, e, rest, level + 1)
    decreases e, 1
  {
    if Fits(e, limit, next) {
      BareReads(e, limit, next, rest, level);
    } else {
      var b := Bare(e, 0, 0);
      BareReads(e, 0, 0, [CloseParen] + rest, level + 1);
      assert [OpenParen] + b + [CloseParen] + rest == [OpenParen] + (b + ([CloseParen] + rest));
      assert ([OpenParen] + (b + ([CloseParen] + rest)))[1..] == b + ([CloseParen] + rest);
      assert ([CloseParen] + rest)[1..] == rest;
    }
  }

  /** Parsing inverts printing. */
  lemma ParsePrint(e: Expr, rest: seq<Token>)
    requires GetBinOpr(Next(rest)).None? && Levels(e, 0, 0) < LUAI_MAXCCALLS
    ensures SubExpr(0, Print(e, 0, 0) + rest, 0) == Done(e, rest)
  {
    PrintReads(e, 0, 0, rest, 0);
  }

  // ---------- no pair of parentheses can be left out ----------

  function Size(e: Expr): nat {
    match e
    case Var(_) => 1
    case Unary(_, x) => 1 + Size(x)
    case Binary(_, l, r) => 1 + Size(l) + Size(r)
  }

  /** `v` is found in `t` by going to left operands. */
  predicate OnSpine(v: Expr, t: Expr) {
    v == t || (t.Binary? && OnSpine(v, t.l))
  }

  function Bottom(t: Expr): Expr {
    if t.Binary? then Bottom(t.l) else t
  }

  lemma {:induction false} OperatorsSpine(limit: nat, v: Expr, w: Expr, toks: seq<Token>, level: nat)
    requires OnSpine(v, w) && Operators(limit, w, toks, level).Done?
    ensures OnSpine(v, Operators(limit, w, toks, level).e) && Bottom(Operators(limit, w, toks, level).e) == Bottom(w)
    decreases |toks|
  {
    var op := GetBinOpr(Next(toks));
    if op.Some? && Left(op.value) > limit {
      var x := SubExpr(Right(op.value), toks[1..], level);
      OperatorsSpine(limit, v, Binary(op.value, w, x.e), x.rest, level);
    }
  }

  lemma {:induction false} SpineSize(v: Expr, t: Expr)
    requires OnSpine(v, t)
    ensures Size(v) <= Size(t)
    decreases t
  {
    if v != t {
      SpineSize(v, t.l);
    }
  }

  lemma {:induction false} SpineUnique(a: Expr, b: Expr, t: Expr)
    requires OnSpine(a, t) && OnSpine(b, t) && a.Binary? && b.Binary? && a.l == b.l
    ensures a == b
    decreases t
  {
    if a != t && b != t {
      SpineUnique(a, b, t.l);
    } else if a != t {
      SpineSize(a, t.l);
    } else if b != t {
      SpineSize(b, t.l);
    }
  }

  /** Where an operator with a priority above the limit comes next, it is taken. */
  lemma TakesMore(limit: nat, v: Expr, toks: seq<Token>, level: nat)
    requires Priority(toks) > limit && Operators(limit, v, toks, level).Done?
    ensures Size(Operators(limit, v, toks, level).e) > Size(v)
  {
    var op := GetBinOpr(Next(toks)).value;
    var x := SubExpr(Right(op), toks[1..], level);
    var w := Binary(op, v, x.e);
    OperatorsSpine(limit, w, w, x.rest, level);
    SpineSize(w, Operators(limit, w, x.rest, level).e);
  }

  /** A binary expression whose right operand takes the operator behind it. */
  lemma RightTakes(op: BinOpr, l: Expr, r: Expr, limit: nat, rest: seq<Token>, level: nat)
    requires Priority(rest) > Right(op) && Operators(limit, Binary(op, l, r), rest, level).Done?
    requires
      var x := Operators(Right(op), r, rest, level + 1);
      x.Done? && Operators(limit, Binary(op, l, x.e), x.rest, level).Done?
    ensures
      var x := Operators(Right(op), r, rest, level + 1);
      Operators(limit, Binary(op, l, x.e), x.rest, level) != Operators(limit, Binary(op, l, r), rest, level)
  {
    var x := Operators(Right(op), r, rest, level + 1);
    var a, b := Binary(op, l, x.e), Binary(op, l, r);
    TakesMore(Right(op), r, rest, level + 1);
    OperatorsSpine(limit, a, a, x.rest, level);
    OperatorsSpine(limit, b, b, rest, level);
    if Operators(limit, a, x.rest, level).e == Operators(limit, b, rest, level).e {
      SpineUnique(a, b, Operators(limit, b, rest, level).e);
    }
  }

  lemma OperandTakes(op: UnOpr, y: Expr, limit: nat, rest: seq<Token>, level: nat)
    requires Priority(rest) > UNARY_PRIORITY && Operators(limit, Unary(op, y), rest, level).Done?
    requires
      var x := Operators(UNARY_PRIORITY, y, rest, level + 1);
      x.Done? && Operators(limit, Unary(op, x.e), x.rest, level).Done?
    ensures
      var x := Operators(UNARY_PRIORITY, y, rest, level + 1);
      Operators(limit, Unary(op, x.e), x.rest, level) != Operators(limit, Unary(op, y), rest, level)
  {
    var x := Operators(UNARY_PRIORITY, y, rest, level + 1);
    TakesMore(UNARY_PRIORITY, y, rest, level + 1);
    OperatorsSpine(limit, Unary(op, x.e), Unary(op, x.e), x.rest, level);
    OperatorsSpine(limit, Unary(op, y), Unary(op, y), rest, level);
  }

  lemma OperatorsRest(limit: nat, v: Expr, toks: seq<Token>, level: nat)
    requires Operators(limit, v, toks, level).Done?
    ensures |Operators(limit, v, toks, level).rest| <= |toks|
  {
  }

  /** Where the printer writes parentheses, the expression without them would be read as
      something else. */
  lemma Needed(e: Expr, limit: nat, next: nat, rest: seq<Token>, level: nat)
    requires !Fits(e, limit, next) && Priority(rest) == next && level + BareLevels(e, limit, next) < LUAI_MAXCCALLS
    requires Operators(limit, e, rest, level + 1).Done?
    ensures SubExpr(limit, Bare(e, limit, next) + rest, level) != Operators(limit, e, rest, level + 1)
  {
    hide SubExpr, Operators, Print, Priority, Levels, UnToken, BinToken, Left, Right;
    match e
    case Unary(op, x) =>
      var p := Print(x, UNARY_PRIORITY, next);
      Associate([], UnToken(op), p, rest);
      PrintReads(x, UNARY_PRIORITY, next, rest, level + 1);
      UnaryStep(limit, op, p + rest, level);
      var y := Operators(UNARY_PRIORITY, x, rest, level + 2);
      if y.Done? && Operators(limit, Unary(op, y.e), y.rest, level + 1).Done? {
        OperandTakes(op, x, limit, rest, level + 1);
      }
    case Binary(op, l, r) =>
      var p, q := Print(l, limit, Left(op)), Print(r, Right(op), next);
      var behind := [BinToken(op)] + (q + rest);
      Associate(p, BinToken(op), q, rest);
      BehindPriority(op, q + rest);
      PrintReads(l, limit, Left(op), behind, level);
      BinaryStep(limit, l, op, q + rest, level + 1);
      OperatorsRest(limit, e, rest, level + 1);
      if Left(op) > limit {
        PrintReads(r, Right(op), next, rest, level + 1);
        var y := Operators(Right(op), r, rest, level + 2);
        if y.Done? && Operators(limit, Binary(op, l, y.e), y.rest, level + 1).Done? {
          RightTakes(op, l, r, limit, rest, level + 1);
        }
      }
  }

  // ---------- the parser ----------

  class LexState {
    var toks: seq<Token>
    var level: nat

    constructor (toks: seq<Token>)
      ensures this.toks == toks && level == 0
    {
      this.toks, this.level := toks, 0;
    }

    /** Reads an expression with operators above the limit; `op` is the operator that was
        not taken. */
    method Subexpr(limit: nat) returns (ok: bool, v: Expr, op: Option<BinOpr>)
      modifies this
      ensures ok <==> SubExpr(limit, old(toks), old(level)).Done?
      ensures ok ==>
        && Done(v, toks) == SubExpr(limit, old(toks), old(level)) && level == old(level)
        && op == GetBinOpr(Next(toks))
      decreases |toks|, 2
    {
      ghost var t0 := toks;
      ok, v, op := false, Var(0), None;
      if level >= LUAI_MAXCCALLS {
        return;
      }
      level := level + 1;
      var uop := GetUnOpr(Next(toks));
      if uop.Some? {
        toks := toks[1..];
        ok, v, op := Subexpr(UNARY_PRIORITY);
        if !ok {
          return;
        }
        v := Unary(uop.value, v);
      } else {
        ok, v := Simpleexp();
        if !ok {
          return;
        }
      }
      op := GetBinOpr(Next(toks));
      while op.Some? && Left(op.value) > limit
        invariant op == GetBinOpr(Next(toks)) && level == old(level) + 1 && |toks| < |t0|
        invariant SubExpr(limit, t0, old(level)) == Operators(limit, v, toks, level)
        decreases |toks|
      {
        toks := toks[1..];
        var v2, nextop;
        ok, v2, nextop := Subexpr(Right(op.value));
        if !ok {
          return;
        }
        v := Binary(op.value, v, v2);
        op := nextop;
      }
      level := level - 1;
      ok := true;
    }

    method Simpleexp() returns (ok: bool, v: Expr)
      modifies this
      ensures ok <==> SimpleExp(old(toks), old(level)).Done?
      ensures ok ==> Done(v, toks) == SimpleExp(old(toks), old(level)) && level == old(level)
      decreases |toks|, 1
    {
      ok, v := false, Var(0);
      match Next(toks)
      case Name(n) =>
        toks := toks[1..];
        return true, Var(n);
      case OpenParen =>
        toks := toks[1..];
        var op;
        ok, v, op := Subexpr(0);
        if !ok {
          return;
        }
        if Next(toks) != CloseParen {
          return false, v;
        }
        toks := toks[1..];
      case _ =>
        return;
    }
  }

  /** What was printed is parsed back. */
  method PrintAndParse(e: Expr, rest: seq<Token>) returns (ok: bool, v: Expr, ls: LexState)
    requires GetBinOpr(Next(rest)).None? && Levels(e, 0, 0) < LUAI_MAXCCALLS
    ensures ok && v == e && ls.toks == rest
  {
    ParsePrint(e, rest);
    ls := new LexState(Print(e, 0, 0) + rest);
    var op;
    ok, v, op := ls.Subexpr(0);
  }
}
