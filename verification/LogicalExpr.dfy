/** The expressions of the source language, their values, and how the values of two
    operands combine in the code generated for a binary operator. */
module LogicalExpr {
  import opened Options
  import opened LuaVM
  import opened JumpLists
  import opened ShortCircuit
  import opened CodegenSteps
  import opened CodegenState

  datatype CompareOpr = EqOpr | NeOpr | LtOpr | GtOpr | LeOpr | GeOpr

  datatype Expr =
    | NilExpr
    | BoolExpr(b: bool)
    | IntExpr(i: int)
    | StrExpr(s: string)
    | LocalExpr(reg: int)
    | UpvalExpr(idx: int)
    | NotExpr(e: Expr)
    | UnaryExpr(uop: UnaryOp, e: Expr)
    | AndExpr(l: Expr, r: Expr)
    | OrExpr(l: Expr, r: Expr)
    | CompareExpr(cop: CompareOpr, l: Expr, r: Expr)
    | ArithExpr(aop: ArithOp, l: Expr, r: Expr)

  /** Local variables live in the registers below `nactvar`. */
  predicate LocalsBelow(a: Expr, nactvar: int) {
    match a
    case LocalExpr(reg) => 0 <= reg < nactvar
    case NotExpr(e) => LocalsBelow(e, nactvar)
    case UnaryExpr(_, e) => LocalsBelow(e, nactvar)
    case AndExpr(l, r) => LocalsBelow(l, nactvar) && LocalsBelow(r, nactvar)
    case OrExpr(l, r) => LocalsBelow(l, nactvar) && LocalsBelow(r, nactvar)
    case CompareExpr(_, l, r) => LocalsBelow(l, nactvar) && LocalsBelow(r, nactvar)
    case ArithExpr(_, l, r) => LocalsBelow(l, nactvar) && LocalsBelow(r, nactvar)
    case _ => true
  }

  function CompareValues(op: CompareOpr, env: Env, x: Value, y: Value): bool {
    match op
    case EqOpr => env.comp(EQ, x, y)
    case NeOpr => !env.comp(EQ, x, y)
    case LtOpr => env.comp(LT, x, y)
    case GtOpr => env.comp(LT, y, x)
    case LeOpr => env.comp(LE, x, y)
    case GeOpr => env.comp(LE, y, x)
  }

  /** The value of an expression when the registers hold `r`. */
  function Eval(a: Expr, env: Env, r: Regs): Value {
    match a
    case NilExpr => Nil
    case BoolExpr(b) => Bool(b)
    case IntExpr(i) => Int(i)
    case StrExpr(s) => Str(s)
    case LocalExpr(reg) => Get(r, reg)
    case UpvalExpr(idx) => Get(env.up, idx)
    case NotExpr(e) => Bool(!Truthy(Eval(e, env, r)))
    case UnaryExpr(op, e) => env.unary(op, Eval(e, env, r))
    case AndExpr(l, r') => if Truthy(Eval(l, env, r)) then Eval(r', env, r) else Eval(l, env, r)
    case OrExpr(l, r') => if Truthy(Eval(l, env, r)) then Eval(l, env, r) else Eval(r', env, r)
    case CompareExpr(op, l, r') => Bool(CompareValues(op, env, Eval(l, env, r), Eval(r', env, r)))
    case ArithExpr(op, l, r') => env.arith(op, Eval(l, env, r), Eval(r', env, r))
  }

  /** The machine compares integers by their order. */
  ghost predicate OrdersIntegers(env: Env) {
    forall a, b ::
      && (env.comp(EQ, Int(a), Int(b)) <==> a == b)
      && (env.comp(LT, Int(a), Int(b)) <==> a < b)
      && (env.comp(LE, Int(a), Int(b)) <==> a <= b)
  }

  /** On such a machine each comparison of integers is the one that its sign says. */
  lemma IntegerComparisons(x: Expr, y: Expr, env: Env, r: Regs, a: int, b: int)
    requires OrdersIntegers(env) && Eval(x, env, r) == Int(a) && Eval(y, env, r) == Int(b)
    ensures Eval(CompareExpr(EqOpr, x, y), env, r) == Bool(a == b)
    ensures Eval(CompareExpr(NeOpr, x, y), env, r) == Bool(a != b)
    ensures Eval(CompareExpr(LtOpr, x, y), env, r) == Bool(a < b)
    ensures Eval(CompareExpr(GtOpr, x, y), env, r) == Bool(a > b)
    ensures Eval(CompareExpr(LeOpr, x, y), env, r) == Bool(a <= b)
    ensures Eval(CompareExpr(GeOpr, x, y), env, r) == Bool(a >= b)
  {
    assert env.comp(EQ, Int(a), Int(b)) <==> a == b;
    assert env.comp(LT, Int(b), Int(a)) <==> b < a;
    assert env.comp(LE, Int(b), Int(a)) <==> b <= a;
  }

  /** What the compiler may compute itself: the result of an operation on two integers,
      or on one, unless it must be left to run time. */
  datatype Folder = Folder(arith: (ArithOp, int, int) -> Option<int>, unary: (UnaryOp, int) -> Option<int>)

  /** The machine and the compiler agree on the folded operations. */
  ghost predicate Agrees(env: Env, fold: Folder) {
    && (forall op, a, b :: fold.arith(op, a, b).Some? ==>
        env.arith(op, Int(a), Int(b)) == Int(fold.arith(op, a, b).value))
    && (forall op, a :: fold.unary(op, a).Some? ==> env.unary(op, Int(a)) == Int(fold.unary(op, a).value))
  }

  ghost predicate EnvOk(env: Env, k: seq<Value>, fold: Folder) {
    k <= env.k && Agrees(env, fold)
  }

  lemma {:induction false} EvalAgree(a: Expr, env: Env, r: Regs, r': Regs, base: int, nactvar: int)
    requires LocalsBelow(a, nactvar) && nactvar <= base && Agree(r, r', base, -1)
    ensures Eval(a, env, r') == Eval(a, env, r)
    decreases a
  {
    match a
    case NotExpr(e) => EvalAgree(e, env, r, r', base, nactvar);
    case UnaryExpr(_, e) => EvalAgree(e, env, r, r', base, nactvar);
    case AndExpr(x, y) => EvalAgree(x, env, r, r', base, nactvar); EvalAgree(y, env, r, r', base, nactvar);
    case OrExpr(x, y) => EvalAgree(x, env, r, r', base, nactvar); EvalAgree(y, env, r, r', base, nactvar);
    case CompareExpr(_, x, y) => EvalAgree(x, env, r, r', base, nactvar); EvalAgree(y, env, r, r', base, nactvar);
    case ArithExpr(_, x, y) => EvalAgree(x, env, r, r', base, nactvar); EvalAgree(y, env, r, r', base, nactvar);
    case _ =>
  }

  /** From its start `s`, or from a jump that was pending to it, the code delivers the
      value of the expression. */
  ghost predicate Computes(J0: set<int>, s: int, c: seq<Instr>, j: int, e: ExpDesc, a: Expr, base: int, k: seq<Value>,
                           fold: Folder) {
    forall env: Env, x, r, v :: EnvOk(env, k, fold) && (x == s || x in J0) && v == Eval(a, env, r) ==>
      Delivers(c, j, e, base, -1, env, x, r, v)
  }

  /** Code for the expression `a` was added at the end of `c0`. */
  ghost predicate Compiled(c0: seq<Instr>, j0: int, c: seq<Instr>, j: int, e: ExpDesc, a: Expr, base: int,
                           k: seq<Value>, fold: Folder) {
    && ExpState(c, j, e, |c0|)
    && Frame(c0, JS(c0, j0), c, JS(c, j), |c0|)
    && Computes(JS(c0, j0), |c0|, c, j, e, a, base, k, fold)
  }

  /** A state in which an expression can start. */
  ghost predicate Ready(c: seq<Instr>, j: int) {
    IsList(c, j) && Pend(c, JS(c, j), {}, {}, |c|)
  }

  /** An expression that needs no code. */
  predicate Immediate(a: Expr, e: ExpDesc, k: seq<Value>) {
    && e.t == NO_JUMP && e.f == NO_JUMP
    && match a
       case NilExpr => e.k == VNIL
       case BoolExpr(b) => e.k == if b then VTRUE else VFALSE
       case IntExpr(i) => e.k == VKINT && e.ival == i
       case StrExpr(s) => e.k == VK && 0 <= e.info < |k| && k[e.info] == Str(s)
       case LocalExpr(reg) => e.k == VLOCAL && e.info == reg
       case UpvalExpr(idx) => e.k == VUPVAL && e.info == idx
       case _ => false
  }

  lemma CompileImmediate(c: seq<Instr>, j: int, a: Expr, e: ExpDesc, base: int, k: seq<Value>, fold: Folder)
    requires Ready(c, j) && Immediate(a, e, k)
    ensures Compiled(c, j, c, j, e, a, base, k, fold)
  {
    NoJump(c);
    var J := JS(c, j);
    InBounds(c, j);
    FrameSame(c, J, |c|);
    hide JS, IsList, Run;
    assert !Waits(e);
    forall env: Env, x, r, v | EnvOk(env, k, fold) && (x == |c| || x in J) && v == Eval(a, env, r)
      ensures Delivers(c, j, e, base, -1, env, x, r, v)
    {
      assert EndStop(Val(e)) == {};
      var P := J + {} + {} + EndStop(Val(e));
      RunPending(c, P, env, x, r);
      RunEnd(c, P, env, r);
      assert Run(c, P, env, x, r).pc == x && Run(c, P, env, x, r).r == r;
    }
  }

  /** A step that keeps the value keeps what the code computes. */
  lemma CompileStep(c0: seq<Instr>, j0: int, c1: seq<Instr>, j1: int, e1: ExpDesc, a: Expr, k1: seq<Value>,
                    c2: seq<Instr>, j2: int, e2: ExpDesc, base: int, k: seq<Value>, fold: Folder)
    requires Ready(c0, j0) && k1 <= k && Compiled(c0, j0, c1, j1, e1, a, base, k1, fold)
    requires Became(c1, j1, e1, c2, j2, e2, |c0|, base, -1, k)
    ensures Compiled(c0, j0, c2, j2, e2, a, base, k, fold)
  {
    PendJumps(c0, JS(c0, j0), {}, {}, |c0|);
    hide JS, IsList, Frame, Delivers, ExpState, Pend;
    FrameTrans2(c0, JS(c0, j0), c1, JS(c1, j1), c2, JS(c2, j2), |c0|);
    forall env: Env, x, r, v | EnvOk(env, k, fold) && (x == |c0| || x in JS(c0, j0)) && v == Eval(a, env, r)
      ensures Delivers(c2, j2, e2, base, -1, env, x, r, v)
    {
      assert EnvOk(env, k1, fold);
      assert Delivers(c1, j1, e1, base, -1, env, x, r, v);
    }
  }

  lemma EvalNot(a: Expr, env: Env, r: Regs)
    ensures Eval(NotExpr(a), env, r) == Bool(!Truthy(Eval(a, env, r)))
  {
  }

  lemma CompileNot(c0: seq<Instr>, j0: int, c1: seq<Instr>, j1: int, e1: ExpDesc, a: Expr, k1: seq<Value>,
                   c2: seq<Instr>, j2: int, e2: ExpDesc, base: int, k: seq<Value>, fold: Folder)
    requires Ready(c0, j0) && k1 <= k && Compiled(c0, j0, c1, j1, e1, a, base, k1, fold)
    requires Negates(c1, j1, e1, c2, j2, e2, |c0|, base, k)
    ensures Compiled(c0, j0, c2, j2, e2, NotExpr(a), base, k, fold)
  {
    PendJumps(c0, JS(c0, j0), {}, {}, |c0|);
    hide JS, IsList, Frame, Delivers, ExpState, Pend, Eval;
    FrameTrans2(c0, JS(c0, j0), c1, JS(c1, j1), c2, JS(c2, j2), |c0|);
    forall env: Env, x, r, v | EnvOk(env, k, fold) && (x == |c0| || x in JS(c0, j0)) && v == Eval(NotExpr(a), env, r)
      ensures Delivers(c2, j2, e2, base, -1, env, x, r, v)
    {
      EvalNot(a, env, r);
      assert EnvOk(env, k1, fold);
      assert Delivers(c1, j1, e1, base, -1, env, x, r, Eval(a, env, r));
    }
  }

  /** `a and b` when `b` is true, `a or b` when it is false. */
  function Junction(b: bool, l: Expr, r: Expr): Expr {
    if b then AndExpr(l, r) else OrExpr(l, r)
  }

  /** The code for the first operand goes on to the second one exactly on the value `b`. */
  ghost predicate FirstOperand(c0: seq<Instr>, j0: int, c1: seq<Instr>, j1: int, t: int, f: int, b: bool, a: Expr,
                               base: int, k: seq<Value>, fold: Folder) {
    && |c0| <= |c1| && IsList(c1, j1) && IsList(c1, t) && IsList(c1, f)
    && (if b then t else f) == NO_JUMP
    && Pend(c1, JS(c1, j1), JS(c1, t), JS(c1, f), |c0|)
    && Aimed(c1, JS(c1, j1) + JS(c1, t) + JS(c1, f), |c0|)
    && Frame(c0, JS(c0, j0), c1, JS(c1, j1), |c0|)
    && forall env: Env, x, r, v :: EnvOk(env, k, fold) && (x == |c0| || x in JS(c0, j0)) && v == Eval(a, env, r) ==>
         Good(c1, JS(c1, j1), JS(c1, t), JS(c1, f), Thru(b), base, -1, env, x, r, v)
  }

  lemma MakeFirstOperand(c0: seq<Instr>, j0: int, c1: seq<Instr>, j1: int, e1: ExpDesc, a: Expr, k1: seq<Value>,
                         c2: seq<Instr>, j2: int, t: int, f: int, b: bool, base: int, k: seq<Value>, fold: Folder)
    requires Ready(c0, j0) && k1 <= k && Compiled(c0, j0, c1, j1, e1, a, base, k1, fold)
    requires GoesOn(c1, j1, e1, c2, j2, t, f, b, |c0|, base, k)
    ensures FirstOperand(c0, j0, c2, j2, t, f, b, a, base, k, fold)
    ensures Ready(c2, j2)
  {
    PendJumps(c0, JS(c0, j0), {}, {}, |c0|);
    PendReady(c2, JS(c2, j2), JS(c2, t), JS(c2, f), |c0|);
    hide JS, IsList, Frame, Delivers, Good, Pend;
    FrameTrans2(c0, JS(c0, j0), c1, JS(c1, j1), c2, JS(c2, j2), |c0|);
    forall env: Env, x, r, v | EnvOk(env, k, fold) && (x == |c0| || x in JS(c0, j0)) && v == Eval(a, env, r)
      ensures Good(c2, JS(c2, j2), JS(c2, t), JS(c2, f), Thru(b), base, -1, env, x, r, v)
    {
      assert EnvOk(env, k1, fold);
      assert Delivers(c1, j1, e1, base, -1, env, x, r, v);
    }
  }

  lemma PendReady(c: seq<Instr>, J: set<int>, T: set<int>, F: set<int>, s: int)
    requires Pend(c, J, T, F, s)
    ensures Pend(c, J, {}, {}, |c|)
  {
  }

  lemma EvalJunction(b: bool, a1: Expr, a2: Expr, env: Env, r: Regs)
    ensures Eval(Junction(b, a1, a2), env, r) ==
      if Truthy(Eval(a1, env, r)) == b then Eval(a2, env, r) else Eval(a1, env, r)
  {
  }

  lemma FrameShrink(c1: seq<Instr>, J1: set<int>, c2: seq<Instr>, J2: set<int>, s: int, s': int)
    requires Frame(c1, J1, c2, J2, s') && 0 <= s <= s'
    ensures Frame(c1, J1, c2, J2, s)
  {
  }

  lemma PendJoin(c1: seq<Instr>, J1: set<int>, T1: set<int>, F1: set<int>, s: int, c2: seq<Instr>, J2: set<int>,
                 T2: set<int>, F2: set<int>)
    requires Pend(c1, J1, T1, F1, s) && Pend(c2, J2, T2, F2, |c1|) && Frame(c1, J1, c2, J2, |c1|) && 0 <= s <= |c1|
    ensures Pend(c2, J2, T2 + T1, F2 + F1, s)
  {
    forall p | p in T1 + F1 ensures p !in J2 + T2 + F2 {
      assert Open(c1, p);
      assert p in T2 || p in F2 ==> |c1| < p;
    }
    assert (T1 + F1) * (J2 + T2 + F2) == {};
    forall p | p in T1 || p in F1
      ensures Open(c2, p) && Control(c2, p) == Control(c1, p)
    {
      assert Open(c1, p);
      assert IsTest(Control(c1, p));
      assert p - 1 in J1 ==> Open(c1, p - 1);
    }
    forall i | s <= i && Unset(c2, i)
      ensures i + 1 in J2 || i + 1 in T2 + T1 || i + 1 in F2 + F1
    {
      if i < |c1| {
        assert Unset(c1, i);
      }
    }
  }

  lemma FrameList(c1: seq<Instr>, J1: set<int>, c2: seq<Instr>, J2: set<int>, h: int)
    requires Frame(c1, J1, c2, J2, |c1|) && IsList(c1, h) && JS(c1, h) !! J1
    ensures IsList(c2, h) && JS(c2, h) == JS(c1, h)
  {
    hide IsList, JS;
    InBounds(c1, h);
    ListFrame(c1, c2, h);
  }

  /** The exits of both operands are pending after the second one. */
  lemma JunctionState(c0: seq<Instr>, J0: set<int>, c1: seq<Instr>, j1: int, t1: int, f1: int, b: bool,
                      c2: seq<Instr>, j2: int, e2: ExpDesc, c3: seq<Instr>, l3: int)
    requires |c0| <= |c1| && IsList(c1, j1) && IsList(c1, t1) && IsList(c1, f1) && (if b then t1 else f1) == NO_JUMP
    requires Pend(c1, JS(c1, j1), JS(c1, t1), JS(c1, f1), |c0|) && Frame(c0, J0, c1, JS(c1, j1), |c0|) && Jumps(c0, J0)
    requires Aimed(c1, JS(c1, j1) + JS(c1, t1) + JS(c1, f1), |c0|)
    requires ExpState(c2, j2, e2, |c1|) && Frame(c1, JS(c1, j1), c2, JS(c2, j2), |c1|)
    requires
      var l1, l2 := if b then f1 else t1, if b then e2.f else e2.t;
      Relinked(c2, c3, JS(c2, l2)) && IsList(c3, l3) && JS(c3, l3) == JS(c2, l2) + JS(c1, l1)
    ensures
      var e3 := if b then e2.(f := l3) else e2.(t := l3);
      && ExpState(c3, j2, e3, |c0|)
      && JS(c3, j2) == JS(c2, j2) && JS(c3, e3.t) == JS(c2, e2.t) + JS(c1, t1)
      && JS(c3, e3.f) == JS(c2, e2.f) + JS(c1, f1)
      && Frame(c0, J0, c3, JS(c2, j2), |c0|)
      && Pend(c2, JS(c2, j2), JS(c2, e2.t) + JS(c1, t1), JS(c2, e2.f) + JS(c1, f1), |c0|)
  {
    hide JS, IsList, Frame, Aimed, Pend;
    NoJump(c1);
    var J1, J2, T1, F1, T2, F2 := JS(c1, j1), JS(c2, j2), JS(c1, t1), JS(c1, f1), JS(c2, e2.t), JS(c2, e2.f);
    var L := if b then F2 else T2;
    StateLists(c2, j2, e2, |c1|);
    PendBounds(c1, J1, T1, F1, |c0|);
    PendJoin(c1, J1, T1, F1, |c0|, c2, J2, T2, F2);
    PendRelink(c2, J2, T2 + T1, F2 + F1, |c0|, c3, L);
    RelinkList(c2, c3, L, j2);
    RelinkList(c2, c3, L, if b then e2.t else e2.f);
    FrameShrink(c1, J1, c2, J2, |c0|, |c1|);
    FrameTrans2(c0, J0, c1, J1, c2, J2, |c0|);
    PendJumps(c2, J2, T2 + T1, F2 + F1, |c0|);
    PendAfter(c2, J2, T2 + T1, F2 + F1, |c0|);
    FrameRelink(c2, J2, c3, J2, L, |c0|);
    FrameTrans2(c0, J0, c2, J2, c3, J2, |c0|);
    JunctionAimed(c1, J1, T1, F1, |c0|, c2, J2, T2, F2, Held(e2), c3, L);
    JunctionWaits(c1, f1, t1, c2, j2, e2, c3, L);
    assert T2 + {} == T2 && F2 + {} == F2;
  }

  lemma PendAfter(c: seq<Instr>, J: set<int>, T: set<int>, F: set<int>, s: int)
    requires Pend(c, J, T, F, s)
    ensures forall p :: p in T || p in F ==> s < p
  {
  }

  lemma JunctionAimed(c1: seq<Instr>, J1: set<int>, T1: set<int>, F1: set<int>, s: int, c2: seq<Instr>, J2: set<int>,
                      T2: set<int>, F2: set<int>, H: set<int>, c3: seq<Instr>, L: set<int>)
    requires Aimed(c1, J1 + T1 + F1, s) && Aimed(c2, J2 + T2 + F2 + H, |c1|) && Frame(c1, J1, c2, J2, |c1|)
      && 0 <= s <= |c1|
    requires Relinked(c2, c3, L) && L <= T2 + F2
    ensures Aimed(c3, J2 + (T2 + T1) + (F2 + F1) + H, s)
  {
    var M := J2 + (T2 + T1) + (F2 + F1) + H;
    AimedJoin(c1, J1, J1 + T1 + F1, s, c2, J2, J2 + T2 + F2 + H, M);
    hide Frame;
    AimedRelink(c2, M, s, c3, L);
  }

  lemma JunctionWaits(c1: seq<Instr>, f1: int, t1: int, c2: seq<Instr>, j2: int, e2: ExpDesc, c3: seq<Instr>,
                      L: set<int>)
    requires ExpState(c2, j2, e2, |c1|) && Relinked(c2, c3, L) && L <= JS(c2, e2.t) + JS(c2, e2.f)
    requires forall p :: p in JS(c1, t1) || p in JS(c1, f1) ==> p < |c1|
    ensures Waits(e2) ==> 0 <= Waiting(e2) < |c2| && c3[Waiting(e2)] == c2[Waiting(e2)]
    ensures e2.k == VJMP ==> e2.info !in JS(c1, t1) + JS(c1, f1) && c3[e2.info] == c2[e2.info]
  {
    DemoteWaits(c2, j2, e2, |c1|);
  }

  lemma JunctionRun(c1: seq<Instr>, J1: set<int>, T1: set<int>, F1: set<int>, s: int, b: bool,
                    c2: seq<Instr>, j2: int, e2: ExpDesc, base: int, c3: seq<Instr>, e3: ExpDesc,
                    env: Env, x: int, r: Regs, v1: Value, v2: Value)
    requires Pend(c1, J1, T1, F1, s) && 0 <= s && (if b then T1 == {} else F1 == {})
      && Frame(c1, J1, c2, JS(c2, j2), |c1|)
    requires ExpState(c2, j2, e2, |c1|)
    requires Pend(c2, JS(c2, j2), JS(c2, e2.t) + T1, JS(c2, e2.f) + F1, s)
    requires Relinked(c2, c3, if b then JS(c2, e2.f) else JS(c2, e2.t))
    requires e3.k == e2.k && e3.info == e2.info && e3.ival == e2.ival
    requires Good(c1, J1, T1, F1, Thru(b), base, -1, env, x, r, v1)
    requires
      var o := Run(c1, J1 + T1 + F1, env, x, r);
      Truthy(v1) == b && (o.pc == |c1| || o.pc in J1) ==> Delivers(c2, j2, e2, base, -1, env, o.pc, o.r, v2)
    ensures
      Good(c3, JS(c2, j2), JS(c2, e2.t) + T1, JS(c2, e2.f) + F1, Val(e3), base, -1, env, x, r,
        if Truthy(v1) == b then v2 else v1)
  {
    var J2, T2, F2 := JS(c2, j2), JS(c2, e2.t), JS(c2, e2.f);
    hide JS, IsList, Run, Good, Frame, Pend, ExpState;
    StateStops(c2, j2, e2, |c1|);
    var v := if Truthy(v1) == b then v2 else v1;
    Sequence(c1, J1, T1, F1, s, b, c2, J2, T2, F2, e2, base, env, x, r, v1, v2);
    PendBounds(c2, J2, T2 + T1, F2 + F1, s);
    Relink(c2, c3, J2, T2 + T1, F2 + F1, Val(e2), base, -1, env, x, r, v);
    SwapEnd(c3, J2, T2 + T1, F2 + F1, e2, e3, base, env, x, r, v);
  }

  lemma PendBounds(c: seq<Instr>, J: set<int>, T: set<int>, F: set<int>, s: int)
    requires Pend(c, J, T, F, s)
    ensures Paired(c) && forall p :: p in J || p in T || p in F ==> 0 <= p < |c|
  {
    assert forall p :: p in J || p in T || p in F ==> Open(c, p);
  }

  lemma StateStops(c: seq<Instr>, j: int, e: ExpDesc, s: int)
    requires ExpState(c, j, e, s)
    ensures forall p :: p in JS(c, e.t) + JS(c, e.f) + EndStop(Val(e)) ==> s <= p < |c|
  {
    DemoteWaits(c, j, e, s);
    hide JS, IsList;
    assert forall p :: p in JS(c, e.t) || p in JS(c, e.f) ==> Open(c, p);
  }

  /** Lists of the second operand after the ones of the first one were added to them. */
  lemma CompileJunction(c0: seq<Instr>, j0: int, c1: seq<Instr>, j1: int, t1: int, f1: int, k1: seq<Value>, b: bool,
                        a1: Expr, c2: seq<Instr>, j2: int, e2: ExpDesc, a2: Expr, base: int, k: seq<Value>,
                        fold: Folder, nactvar: int, c3: seq<Instr>, l3: int)
    requires Ready(c0, j0) && FirstOperand(c0, j0, c1, j1, t1, f1, b, a1, base, k1, fold) && k1 <= k
    requires Compiled(c1, j1, c2, j2, e2, a2, base, k, fold) && LocalsBelow(a2, nactvar) && nactvar <= base
    requires
      var l1, l2 := if b then f1 else t1, if b then e2.f else e2.t;
      Relinked(c2, c3, JS(c2, l2)) && IsList(c3, l3) && JS(c3, l3) == JS(c2, l2) + JS(c1, l1)
    ensures
      Compiled(c0, j0, c3, j2, if b then e2.(f := l3) else e2.(t := l3), Junction(b, a1, a2), base, k, fold)
  {
    var e3 := if b then e2.(f := l3) else e2.(t := l3);
    var J0, J1 := JS(c0, j0), JS(c1, j1);
    var T1, F1 := JS(c1, t1), JS(c1, f1);
    PendJumps(c0, J0, {}, {}, |c0|);
    NoJump(c1);
    JunctionState(c0, J0, c1, j1, t1, f1, b, c2, j2, e2, c3, l3);
    hide JS, IsList, Run, Good, Frame, Pend, ExpState, Eval, Junction;
    forall env: Env, x, r, v | EnvOk(env, k, fold) && (x == |c0| || x in J0) && v == Eval(Junction(b, a1, a2), env, r)
      ensures Delivers(c3, j2, e3, base, -1, env, x, r, v)
    {
      var v1, v2 := Eval(a1, env, r), Eval(a2, env, r);
      EvalJunction(b, a1, a2, env, r);
      assert EnvOk(env, k1, fold);
      assert Good(c1, J1, T1, F1, Thru(b), base, -1, env, x, r, v1);
      var o := Run(c1, J1 + T1 + F1, env, x, r);
      GoodAgree(c1, J1, T1, F1, b, base, env, x, r, v1);
      EvalAgree(a2, env, r, o.r, base, nactvar);
      JunctionRun(c1, J1, T1, F1, |c0|, b, c2, j2, e2, base, c3, e3, env, x, r, v1, v2);
    }
  }

  lemma GoodAgree(c: seq<Instr>, J: set<int>, T: set<int>, F: set<int>, b: bool, base: int, env: Env, x: int, r: Regs,
                  v: Value)
    requires Good(c, J, T, F, Thru(b), base, -1, env, x, r, v)
    ensures Agree(r, Run(c, J + T + F, env, x, r).r, base, -1)
  {
    hide Run, Agree;
    assert J + T + F + EndStop(Thru(b)) == J + T + F;
  }

  // ---------- binary operators on two values ----------

  predicate NoLists(e: ExpDesc) {
    e.t == NO_JUMP && e.f == NO_JUMP
  }

  const NOTHING := ExpDesc(VNIL, 0, 0, NO_JUMP, NO_JUMP)

  /** The code ends with the values of two expressions available. */
  ghost predicate TwoOperands(c0: seq<Instr>, j0: int, c: seq<Instr>, j: int, e1: ExpDesc, e2: ExpDesc, a1: Expr,
                              a2: Expr, base: int, k: seq<Value>, fold: Folder) {
    && ExpState(c, j, NOTHING, |c0|)
    && Frame(c0, JS(c0, j0), c, JS(c, j), |c0|)
    && forall env: Env, x, r, v1, v2 ::
         EnvOk(env, k, fold) && (x == |c0| || x in JS(c0, j0)) && v1 == Eval(a1, env, r) && v2 == Eval(a2, env, r) ==>
         Both(c, JS(c, j), e1, e2, base, env, x, r, v1, v2)
  }

  lemma StateNothing(c: seq<Instr>, j: int, e: ExpDesc, s: int)
    requires ExpState(c, j, e, s) && NoLists(e) && e.k != VJMP
    ensures ExpState(c, j, NOTHING, s) && JS(c, e.t) == {} && JS(c, e.f) == {} && Pend(c, JS(c, j), {}, {}, s)
  {
    NoJump(c);
  }

  lemma MakeTwoOperands(c0: seq<Instr>, j0: int, c1: seq<Instr>, j1: int, e1: ExpDesc, a1: Expr, k1: seq<Value>,
                        c2: seq<Instr>, j2: int, e2: ExpDesc, a2: Expr, base: int, base2: int, k: seq<Value>,
                        fold: Folder, nactvar: int)
    requires Ready(c0, j0) && Compiled(c0, j0, c1, j1, e1, a1, base, k1, fold) && NoLists(e1) && k1 <= k
    requires Compiled(c1, j1, c2, j2, e2, a2, base2, k, fold) && NoLists(e2) && !Waits(e2)
    requires base <= base2 && LocalsBelow(a2, nactvar) && nactvar <= base
    requires e1.k == VK || e1.k == VKINT || (e1.k == VNONRELOC && 0 <= e1.info < base2)
    requires base2 == base || base2 == base + 1
    ensures TwoOperands(c0, j0, c2, j2, e1, e2, a1, a2, base, k, fold)
  {
    hide JS, IsList, Run, Good, Frame, Pend, ExpState, Eval, Both;
    var J0, J1, J2 := JS(c0, j0), JS(c1, j1), JS(c2, j2);
    StateNothing(c1, j1, e1, |c0|);
    StateNothing(c2, j2, e2, |c1|);
    PendJumps(c0, J0, {}, {}, |c0|);
    PendBounds(c1, J1, {}, {}, |c0|);
    NothingState(c0, J0, c1, j1, c2, j2);
    forall env: Env, x, r, v1, v2 | EnvOk(env, k, fold) && (x == |c0| || x in J0) && v1 == Eval(a1, env, r)
      && v2 == Eval(a2, env, r)
      ensures Both(c2, J2, e1, e2, base, env, x, r, v1, v2)
    {
      assert EnvOk(env, k1, fold);
      assert Delivers(c1, j1, e1, base, -1, env, x, r, v1);
      var o := Run(c1, J1, env, x, r);
      DeliversAgree(c1, j1, e1, base, env, x, r, v1);
      if o.pc == |c1| || o.pc in J1 {
        EvalAgree(a2, env, r, o.r, base, nactvar);
        assert Delivers(c2, j2, e2, base2, -1, env, o.pc, o.r, v2);
      }
      MakeBoth(c1, J1, e1, c2, J2, e2, base, base2, env, x, r, v1, v2);
    }
  }

  lemma NothingState(c0: seq<Instr>, J0: set<int>, c1: seq<Instr>, j1: int, c2: seq<Instr>, j2: int)
    requires ExpState(c1, j1, NOTHING, |c0|) && ExpState(c2, j2, NOTHING, |c1|) && Jumps(c0, J0)
    requires Frame(c0, J0, c1, JS(c1, j1), |c0|) && Frame(c1, JS(c1, j1), c2, JS(c2, j2), |c1|)
    ensures ExpState(c2, j2, NOTHING, |c0|) && Frame(c0, J0, c2, JS(c2, j2), |c0|)
    ensures forall p :: p in JS(c1, j1) ==> 0 <= p < |c1| && c1[p].JMP?
  {
    StateNothing(c1, j1, NOTHING, |c0|);
    StateNothing(c2, j2, NOTHING, |c1|);
    InBounds(c1, j1);
    hide JS, IsList, Frame, Aimed;
    PendJoin(c1, JS(c1, j1), {}, {}, |c0|, c2, JS(c2, j2), {}, {});
    var L2 := JS(c2, j2) + JS(c2, NO_JUMP) + JS(c2, NO_JUMP) + Held(NOTHING);
    AimedJoin(c1, JS(c1, j1), JS(c1, j1) + JS(c1, NO_JUMP) + JS(c1, NO_JUMP) + Held(NOTHING), |c0|, c2, JS(c2, j2),
      L2, L2);
    FrameShrink(c1, JS(c1, j1), c2, JS(c2, j2), |c0|, |c1|);
    FrameTrans2(c0, J0, c1, JS(c1, j1), c2, JS(c2, j2), |c0|);
  }

  lemma DeliversAgree(c: seq<Instr>, j: int, e: ExpDesc, base: int, env: Env, x: int, r: Regs, v: Value)
    requires Delivers(c, j, e, base, -1, env, x, r, v) && NoLists(e) && !Waits(e)
    ensures Agree(r, Run(c, JS(c, j), env, x, r).r, base, -1)
  {
    NoJump(c);
    hide Run, Agree, JS, IsList;
    assert JS(c, j) + {} + {} + EndStop(Val(e)) == JS(c, j);
  }

  lemma SwapOperands(c0: seq<Instr>, j0: int, c: seq<Instr>, j: int, e1: ExpDesc, e2: ExpDesc, a1: Expr, a2: Expr,
                     base: int, k: seq<Value>, fold: Folder)
    requires TwoOperands(c0, j0, c, j, e1, e2, a1, a2, base, k, fold)
    ensures TwoOperands(c0, j0, c, j, e2, e1, a2, a1, base, k, fold)
  {
    hide JS, IsList, Frame, Pend, Eval, Both;
    forall env: Env, x, r, v1, v2 | EnvOk(env, k, fold) && (x == |c0| || x in JS(c0, j0)) && v1 == Eval(a2, env, r)
      && v2 == Eval(a1, env, r)
      ensures Both(c, JS(c, j), e2, e1, base, env, x, r, v1, v2)
    {
      BothSwap(c, JS(c, j), e1, e2, base, env, x, r, v2, v1);
    }
  }

  /** A numeral that was kept as first operand gets its place after the second one. */
  lemma PlaceNumeral(c0: seq<Instr>, j0: int, c1: seq<Instr>, j1: int, e1: ExpDesc, e2: ExpDesc, a1: Expr, a2: Expr,
                     k1: seq<Value>, c2: seq<Instr>, j2: int, e1': ExpDesc, base: int, base2: int, k: seq<Value>,
                     fold: Folder)
    requires Ready(c0, j0) && TwoOperands(c0, j0, c1, j1, e1, e2, a1, a2, base, k1, fold) && k1 <= k
    requires e1.k == VKINT && NoLists(e1) && IsOperand(e2) && base <= base2 && (e2.k == VNONRELOC ==> e2.info < base2)
    requires Became(c1, j1, e1, c2, j2, e1', |c1|, base2, -1, k) && NoLists(e1') && !Waits(e1')
    ensures TwoOperands(c0, j0, c2, j2, e1', e2, a1, a2, base, k, fold)
  {
    var J0, J1, J2 := JS(c0, j0), JS(c1, j1), JS(c2, j2);
    StateNothing(c1, j1, NOTHING, |c0|);
    StateNothing(c2, j2, e1', |c1|);
    PendJumps(c0, J0, {}, {}, |c0|);
    PendBounds(c1, J1, {}, {}, |c0|);
    NoJump(c1);
    NothingState(c0, J0, c1, j1, c2, j2);
    hide JS, IsList, Run, Good, Frame, Pend, ExpState, Eval, Both;
    forall env: Env, x, r, v1, v2 | EnvOk(env, k, fold) && (x == |c0| || x in J0) && v1 == Eval(a1, env, r)
      && v2 == Eval(a2, env, r)
      ensures Both(c2, J2, e1', e2, base, env, x, r, v1, v2)
    {
      assert EnvOk(env, k1, fold);
      assert Both(c1, J1, e1, e2, base, env, x, r, v1, v2);
      BothSecond(c1, J1, e1, e2, base, env, x, r, v1, v2);
      var o := Run(c1, J1, env, x, r);
      NumeralHere(c1, j1, e1, base2, env, o.pc, o.r, v1);
      MakeBoth(c1, J1, e2, c2, J2, e1', base, base2, env, x, r, v2, v1);
      BothSwap(c2, J2, e2, e1', base, env, x, r, v2, v1);
    }
  }

  lemma BothSecond(c: seq<Instr>, J: set<int>, e1: ExpDesc, e2: ExpDesc, base: int, env: Env, x: int, r: Regs,
                   v1: Value, v2: Value)
    requires Both(c, J, e1, e2, base, env, x, r, v1, v2)
    ensures Good(c, J, {}, {}, Val(e2), base, -1, env, x, r, v2)
    ensures var o := Run(c, J, env, x, r); (o.pc == |c| || o.pc in J) && ValueAt(c, e1, env, o.r) == v1
  {
    hide Run, Agree;
    assert J + {} + {} + EndStop(Val(e2)) == J;
  }

  lemma NumeralHere(c: seq<Instr>, j: int, e: ExpDesc, base: int, env: Env, y: int, r: Regs, v: Value)
    requires (y == |c| || y in JS(c, j)) && e.k == VKINT && NoLists(e) && v == Int(e.ival)
    ensures Delivers(c, j, e, base, -1, env, y, r, v)
  {
    NoJump(c);
    hide JS, IsList, Run;
    var P := JS(c, j) + {} + {} + EndStop(Val(e));
    RunPending(c, P, env, y, r);
    RunEnd(c, P, env, r);
  }

  /** The opcode of a comparison, the outcome it looks for, and whether its operands
      are exchanged. */
  function Opcode(op: CompareOpr): CompOp {
    match op case EqOpr => EQ case NeOpr => EQ case LtOpr => LT case GtOpr => LT case LeOpr => LE case GeOpr => LE
  }

  predicate Exchanged(op: CompareOpr) {
    op == GtOpr || op == GeOpr
  }

  lemma OpcodeValue(op: CompareOpr, env: Env, x: Value, y: Value)
    ensures CompareValues(op, env, x, y) ==
      (env.comp(Opcode(op), if Exchanged(op) then y else x, if Exchanged(op) then x else y) == (op != NeOpr))
  {
  }

  /** Instruction `i` on the operands `x` and `y` computes the expression `a`. */
  predicate Implements(i: Instr, a: Expr, x: Expr, y: Expr) {
    match a
    case CompareExpr(op, l, r) =>
      && i.COMP? && i.op == Opcode(op) && i.cond == (op != NeOpr)
      && (if Exchanged(op) then x == r && y == l else x == l && y == r)
    case ArithExpr(op, l, r) => i.ARITH? && i.bop == op && x == l && y == r
    case _ => false
  }

  lemma EvalBinary(a: Expr, env: Env, r: Regs)
    ensures a.CompareExpr? ==> Eval(a, env, r) == Bool(CompareValues(a.cop, env, Eval(a.l, env, r), Eval(a.r, env, r)))
    ensures a.ArithExpr? ==> Eval(a, env, r) == env.arith(a.aop, Eval(a.l, env, r), Eval(a.r, env, r))
  {
  }

  lemma ImplementsEval(i: Instr, a: Expr, x: Expr, y: Expr, env: Env, r: Regs)
    requires Implements(i, a, x, y)
    ensures Eval(a, env, r) == Apply(i, env, Eval(x, env, r), Eval(y, env, r))
  {
    hide Eval, CompareValues, Opcode;
    EvalBinary(a, env, r);
    if a.CompareExpr? {
      OpcodeValue(a.cop, env, Eval(a.l, env, r), Eval(a.r, env, r));
    }
  }

  /** The instructions for a binary operation, and the descriptor of its result. */
  function Tail(i: Instr): seq<Instr> {
    if i.COMP? then [i, JMP(NO_JUMP)] else [i]
  }

  function Outcome(i: Instr, n: int): ExpDesc {
    if i.COMP? then ExpDesc(VJMP, n + 1, 0, NO_JUMP, NO_JUMP) else ExpDesc(VRELOCABLE, n, 0, NO_JUMP, NO_JUMP)
  }

  lemma TailFacts(i: Instr, n: int)
    ensures |Tail(i)| > 0 && Tail(i)[0] == i && Waits(Outcome(i, n)) && Waiting(Outcome(i, n)) == n
      && NoLists(Outcome(i, n))
  {
  }

  lemma CompileBinary(c0: seq<Instr>, j0: int, c: seq<Instr>, j: int, e1: ExpDesc, e2: ExpDesc, a1: Expr, a2: Expr,
                      i: Instr, a: Expr, base: int, k: seq<Value>, fold: Folder)
    requires Ready(c0, j0) && TwoOperands(c0, j0, c, j, e1, e2, a1, a2, base, k, fold)
    requires IsOperand(e1) && IsOperand(e2) && Implements(i, a, a1, a2) && (i.COMP? || i.ARITH?)
    requires i.b == OperandRK(e1) && i.c == OperandRK(e2)
    ensures Compiled(c0, j0, Extended(c, JS(c, j), Tail(i)), NO_JUMP, Outcome(i, |c|), a, base, k, fold)
  {
    var J0, J := JS(c0, j0), JS(c, j);
    var c3 := Extended(c, J, Tail(i));
    var e3 := Outcome(i, |c|);
    hide JS, IsList, Run, Good, Frame, Pend, ExpState, Eval, Both, Extended, Implements, Apply, EnvOk, Jumps, Paired,
         Tail, Outcome, IsOperand, OperandRK, Delivers, Ready;
    BinaryFrame(c0, j0, c, j, i);
    forall env: Env, x, r, v | EnvOk(env, k, fold) && (x == |c0| || x in J0) && v == Eval(a, env, r)
      ensures Delivers(c3, NO_JUMP, e3, base, -1, env, x, r, v)
    {
      var v1, v2 := Eval(a1, env, r), Eval(a2, env, r);
      assert Both(c, J, e1, e2, base, env, x, r, v1, v2);
      ImplementsEval(i, a, a1, a2, env, r);
      BinaryRun(c, j, |c0|, e1, e2, i, base, env, x, r, v1, v2);
    }
  }

  lemma BinaryFrame(c0: seq<Instr>, j0: int, c: seq<Instr>, j: int, i: Instr)
    requires Ready(c0, j0) && ExpState(c, j, NOTHING, |c0|) && Frame(c0, JS(c0, j0), c, JS(c, j), |c0|)
      && (i.COMP? || i.ARITH?)
    ensures
      var c3 := Extended(c, JS(c, j), Tail(i));
      ExpState(c3, NO_JUMP, Outcome(i, |c|), |c0|) && Frame(c0, JS(c0, j0), c3, JS(c3, NO_JUMP), |c0|)
  {
    PendJumps(c0, JS(c0, j0), {}, {}, |c0|);
    BinaryState(c, j, |c0|, i);
    hide JS, IsList, Frame, Pend, ExpState, Extended, Tail, Outcome;
    FrameTrans2(c0, JS(c0, j0), c, JS(c, j), Extended(c, JS(c, j), Tail(i)), {}, |c0|);
  }

  lemma BinaryRun(c: seq<Instr>, j: int, s: int, e1: ExpDesc, e2: ExpDesc, i: Instr, base: int,
                  env: Env, x: int, r: Regs, v1: Value, v2: Value)
    requires ExpState(c, j, NOTHING, s) && Both(c, JS(c, j), e1, e2, base, env, x, r, v1, v2)
    requires IsOperand(e1) && IsOperand(e2) && (i.COMP? || i.ARITH?) && i.b == OperandRK(e1) && i.c == OperandRK(e2)
    ensures Delivers(Extended(c, JS(c, j), Tail(i)), NO_JUMP, Outcome(i, |c|), base, -1, env, x, r,
      Apply(i, env, v1, v2))
  {
    StateNothing(c, j, NOTHING, s);
    PendJumps(c, JS(c, j), {}, {}, s);
    TailFacts(i, |c|);
    hide JS, IsList, Run, Good, Pend, ExpState, Both, Extended, Apply, Jumps, Paired, Tail, Outcome;
    EmitBinary(c, JS(c, j), e1, e2, base, Tail(i), Outcome(i, |c|), env, x, r, v1, v2);
    PlainDelivers(Extended(c, JS(c, j), Tail(i)), Outcome(i, |c|), base, env, x, r, Apply(i, env, v1, v2));
  }

  lemma PlainDelivers(c: seq<Instr>, e: ExpDesc, base: int, env: Env, x: int, r: Regs, v: Value)
    requires NoLists(e) && Good(c, {}, {}, {}, Val(e), base, -1, env, x, r, v)
    ensures Delivers(c, NO_JUMP, e, base, -1, env, x, r, v)
  {
    NoJump(c);
  }

  lemma BinaryState(c: seq<Instr>, j: int, s: int, i: Instr)
    requires ExpState(c, j, NOTHING, s) && (i.COMP? || i.ARITH?)
    ensures
      var c3 := Extended(c, JS(c, j), Tail(i));
      ExpState(c3, NO_JUMP, Outcome(i, |c|), s) && Frame(c, JS(c, j), c3, {}, s) && JS(c3, NO_JUMP) == {}
  {
    hide JS, IsList, Frame, Pend, Extended, Aimed;
    var tail := Tail(i);
    var c3 := Extended(c, JS(c, j), tail);
    NoJump(c);
    NoJump(c3);
    TailKinds(i, |c|);
    StateEmit(c, j, NOTHING, s, tail, {});
    BinaryAimed(c, JS(c, j), JS(c, NO_JUMP), s, i);
    assert {} + {} == JS(c, NO_JUMP);
    assert c3[|c|] == c3[|c|..][0];
    assert i.COMP? ==> c3[|c| + 1] == c3[|c|..][1];
  }

  lemma TailKinds(i: Instr, n: int)
    requires i.COMP? || i.ARITH?
    ensures TailOk(Tail(i), n, {}) && NewJumps(Tail(i), n, Held(Outcome(i, n)))
  {
  }

  lemma BinaryAimed(c: seq<Instr>, J: set<int>, N: set<int>, s: int, i: Instr)
    requires Aimed(c, J + N + N + Held(NOTHING), s) && N == {} && (i.COMP? || i.ARITH?)
    ensures Aimed(Extended(c, J, Tail(i)), {} + {} + {} + Held(Outcome(i, |c|)), s)
  {
    TailKinds(i, |c|);
    hide Aimed, Extended, NewJumps, Tail, Outcome;
    var W := Held(Outcome(i, |c|));
    assert {} + {} + {} + W == W;
    AimedEmit(c, J, J + N + N + Held(NOTHING), s, Tail(i), W);
  }

  // ---------- constants computed by the compiler ----------

  lemma CompileFolded(c0: seq<Instr>, j0: int, c: seq<Instr>, j: int, e1: ExpDesc, e2: ExpDesc, a1: Expr, a2: Expr,
                      op: ArithOp, base: int, k: seq<Value>, fold: Folder)
    requires Ready(c0, j0) && TwoOperands(c0, j0, c, j, e1, e2, a1, a2, base, k, fold)
    requires e1.k == VKINT && e2.k == VKINT && NoLists(e1) && fold.arith(op, e1.ival, e2.ival).Some?
    ensures Compiled(c0, j0, c, j, e1.(ival := fold.arith(op, e1.ival, e2.ival).value), ArithExpr(op, a1, a2), base,
      k, fold)
  {
    var J0, J := JS(c0, j0), JS(c, j);
    var e3 := e1.(ival := fold.arith(op, e1.ival, e2.ival).value);
    NoJump(c);
    hide JS, IsList, Run, Frame, Agree, Eval, Pend, Jumps;
    forall env: Env, x, r, v | EnvOk(env, k, fold) && (x == |c0| || x in J0) && v == Eval(ArithExpr(op, a1, a2), env, r)
      ensures Delivers(c, j, e3, base, -1, env, x, r, v)
    {
      var v1, v2 := Eval(a1, env, r), Eval(a2, env, r);
      EvalBinary(ArithExpr(op, a1, a2), env, r);
      assert Both(c, J, e1, e2, base, env, x, r, v1, v2);
      assert v1 == Int(e1.ival) && v2 == Int(e2.ival);
      assert env.arith(op, v1, v2) == Int(e3.ival);
      assert J + {} + {} + EndStop(Val(e3)) == J;
    }
  }

  lemma CompileFoldedUnary(c0: seq<Instr>, j0: int, c: seq<Instr>, j: int, e: ExpDesc, a: Expr, op: UnaryOp, base: int,
                           k: seq<Value>, fold: Folder)
    requires Compiled(c0, j0, c, j, e, a, base, k, fold) && e.k == VKINT && NoLists(e) && fold.unary(op, e.ival).Some?
    ensures Compiled(c0, j0, c, j, e.(ival := fold.unary(op, e.ival).value), UnaryExpr(op, a), base, k, fold)
  {
    var e3 := e.(ival := fold.unary(op, e.ival).value);
    NoJump(c);
    hide JS, IsList, Run, Frame, Agree, Eval, Pend;
    forall env: Env, x, r, v | EnvOk(env, k, fold) && (x == |c0| || x in JS(c0, j0))
      && v == Eval(UnaryExpr(op, a), env, r)
      ensures Delivers(c, j, e3, base, -1, env, x, r, v)
    {
      EvalUnary(op, a, env, r);
      assert Delivers(c, j, e, base, -1, env, x, r, Eval(a, env, r));
      assert EndStop(Val(e3)) == EndStop(Val(e));
      assert Eval(a, env, r) == Int(e.ival);
    }
  }

  lemma EvalUnary(op: UnaryOp, a: Expr, env: Env, r: Regs)
    ensures Eval(UnaryExpr(op, a), env, r) == env.unary(op, Eval(a, env, r))
  {
  }

  lemma CompileUnary(c0: seq<Instr>, j0: int, c1: seq<Instr>, j1: int, e1: ExpDesc, a: Expr, op: UnaryOp, base: int,
                     k: seq<Value>, fold: Folder)
    requires Ready(c0, j0) && Compiled(c0, j0, c1, j1, e1, a, base, k, fold) && e1.k == VNONRELOC && NoLists(e1)
    ensures
      Compiled(c0, j0, Extended(c1, JS(c1, j1), [UNARY(op, 0, e1.info)]), NO_JUMP,
               ExpDesc(VRELOCABLE, |c1|, 0, NO_JUMP, NO_JUMP), UnaryExpr(op, a), base, k, fold)
  {
    var J0, J1 := JS(c0, j0), JS(c1, j1);
    var i := UNARY(op, 0, e1.info);
    var c2 := Extended(c1, J1, [i]);
    var e2 := ExpDesc(VRELOCABLE, |c1|, 0, NO_JUMP, NO_JUMP);
    StateNothing(c1, j1, e1, |c0|);
    PendJumps(c0, J0, {}, {}, |c0|);
    UnaryState(c1, j1, |c0|, i);
    hide JS, IsList, Run, Frame, Agree, Eval, Pend, Extended, Good, Jumps, EnvOk;
    FrameTrans2(c0, J0, c1, J1, c2, {}, |c0|);
    forall env: Env, x, r, v | EnvOk(env, k, fold) && (x == |c0| || x in J0) && v == Eval(UnaryExpr(op, a), env, r)
      ensures Delivers(c2, NO_JUMP, e2, base, -1, env, x, r, v)
    {
      EvalUnary(op, a, env, r);
      assert Delivers(c1, j1, e1, base, -1, env, x, r, Eval(a, env, r));
      UnaryRun(c1, J1, |c0|, e1, i, e2, base, env, x, r, Eval(a, env, r));
      PlainDelivers(c2, e2, base, env, x, r, v);
    }
  }

  lemma UnaryRun(c1: seq<Instr>, J1: set<int>, s: int, e1: ExpDesc, i: Instr, e2: ExpDesc, base: int, env: Env, x: int,
                 r: Regs, v: Value)
    requires Pend(c1, J1, {}, {}, s) && 0 <= s && Good(c1, J1, {}, {}, Val(e1), base, -1, env, x, r, v)
    requires e1.k == VNONRELOC && i.UNARY? && i.b == e1.info && e2.k == VRELOCABLE && e2.info == |c1|
    ensures Good(Extended(c1, J1, [i]), {}, {}, {}, Val(e2), base, -1, env, x, r, env.unary(i.uop, v))
  {
    hide Run, Step, Agree;
    var c2 := Extended(c1, J1, [i]);
    var o, o2 := EmitWaiting(c1, J1, {}, {}, s, e1, base, -1, [i], e2, env, x, r, v);
    assert Op(c2, |c1|) == i;
  }

  lemma UnaryState(c: seq<Instr>, j: int, s: int, i: Instr)
    requires ExpState(c, j, NOTHING, s) && i.UNARY?
    ensures
      var c2 := Extended(c, JS(c, j), [i]);
      ExpState(c2, NO_JUMP, ExpDesc(VRELOCABLE, |c|, 0, NO_JUMP, NO_JUMP), s) && Frame(c, JS(c, j), c2, {}, s)
        && JS(c2, NO_JUMP) == {}
  {
    var tail := [i];
    var c2 := Extended(c, JS(c, j), tail);
    NoJump(c);
    NoJump(c2);
    assert TailOk(tail, |c|, {});
    StateEmit(c, j, NOTHING, s, tail, {});
    hide JS, IsList, Frame, Pend, Extended;
    assert {} + {} == JS(c, NO_JUMP);
    assert c2[|c|] == c2[|c|..][0];
  }

  lemma TwoOperandsList(c0: seq<Instr>, j0: int, c: seq<Instr>, j: int, e1: ExpDesc, e2: ExpDesc, a1: Expr, a2: Expr,
                        base: int, k: seq<Value>, fold: Folder)
    requires TwoOperands(c0, j0, c, j, e1, e2, a1, a2, base, k, fold)
    ensures IsList(c, j) && ExpState(c, j, NOTHING, |c0|)
  {
  }

  // ---------- facts about compiled operands ----------

  lemma CompiledState(c0: seq<Instr>, j0: int, c: seq<Instr>, j: int, e: ExpDesc, a: Expr, base: int, k: seq<Value>,
                      fold: Folder)
    requires Compiled(c0, j0, c, j, e, a, base, k, fold)
    ensures ExpState(c, j, e, |c0|)
  {
  }

  /** After an operand without pending jumps another expression can start. */
  lemma CompiledReady(c0: seq<Instr>, j0: int, c: seq<Instr>, j: int, e: ExpDesc, a: Expr, base: int, k: seq<Value>,
                      fold: Folder)
    requires Compiled(c0, j0, c, j, e, a, base, k, fold) && NoLists(e)
    ensures Ready(c, j)
  {
    hide JS, IsList, Pend;
    PendReady(c, JS(c, j), JS(c, e.t), JS(c, e.f), |c0|);
  }

  /** The exits of the first operand are still a list after the second one. */
  lemma JunctionLists(c0: seq<Instr>, j0: int, c1: seq<Instr>, j1: int, t1: int, f1: int, k1: seq<Value>, b: bool,
                      a1: Expr, c2: seq<Instr>, j2: int, e2: ExpDesc, a2: Expr, base: int, k: seq<Value>, fold: Folder)
    requires FirstOperand(c0, j0, c1, j1, t1, f1, b, a1, base, k1, fold)
    requires Compiled(c1, j1, c2, j2, e2, a2, base, k, fold)
    ensures
      var l1, l2 := if b then f1 else t1, if b then e2.f else e2.t;
      IsList(c2, l1) && JS(c2, l1) == JS(c1, l1) && IsList(c2, l2) && JS(c2, l2) !! JS(c2, l1)
  {
    var l1 := if b then f1 else t1;
    var J1, T1, F1 := JS(c1, j1), JS(c1, t1), JS(c1, f1);
    StateLists(c2, j2, e2, |c1|);
    StateStops(c2, j2, e2, |c1|);
    PendBounds(c1, J1, T1, F1, |c0|);
    hide JS, IsList, Run, Good, ExpState, Eval;
    FrameList(c1, J1, c2, JS(c2, j2), l1);
    forall p | p in JS(c2, if b then e2.f else e2.t)
      ensures p !in JS(c1, l1)
    {
      assert p in JS(c2, e2.t) + JS(c2, e2.f) + EndStop(Val(e2));
    }
  }

  /** A value that needs no code can be discharged at the end of any code. */
  lemma NumeralState(c: seq<Instr>, j: int, s: int, e: ExpDesc)
    requires ExpState(c, j, NOTHING, s) && NoLists(e) && !Waits(e)
    ensures ExpState(c, j, e, |c|)
  {
    StateNothing(c, j, NOTHING, s);
    hide JS, IsList;
    PendReady(c, JS(c, j), {}, {}, s);
  }

  // ---------- statements ----------

  /** The code from `c0` on puts the value of `a` in register `reg`, keeps the other
      registers below `base`, and no TESTSET in it is left without a register. */
  ghost predicate Assigns(c0: seq<Instr>, j0: int, c: seq<Instr>, j: int, reg: int, a: Expr, base: int, k: seq<Value>,
                          fold: Folder) {
    && Ready(c, j)
    && Pend(c, JS(c, j), {}, {}, |c0|)
    && Aimed(c, JS(c, j), |c0|)
    && Frame(c0, JS(c0, j0), c, JS(c, j), |c0|)
    && forall env: Env, x, r, v :: EnvOk(env, k, fold) && (x == |c0| || x in JS(c0, j0)) && v == Eval(a, env, r) ==>
         Stored(c, JS(c, j), reg, base, env, x, r, v)
  }

  ghost predicate Stored(c: seq<Instr>, J: set<int>, reg: int, base: int, env: Env, x: int, r: Regs, v: Value) {
    var o := Run(c, J, env, x, r);
    (o.pc == |c| || o.pc in J) && Get(o.r, reg) == v && Agree(r, o.r, base, reg)
  }

  lemma DeliveredStored(c: seq<Instr>, j: int, e: ExpDesc, base: int, dst: int, env: Env, x: int, r: Regs, v: Value)
    requires e.k == VNONRELOC && NoLists(e) && (dst == -1 || dst == e.info)
      && Delivers(c, j, e, base, dst, env, x, r, v)
    ensures Stored(c, JS(c, j), e.info, base, env, x, r, v)
  {
    NoJump(c);
    hide Run, JS, IsList;
    NoExits({});
    assert JS(c, j) + {} + {} + EndStop(Val(e)) == JS(c, j);
  }

  lemma CompileAssign(c0: seq<Instr>, j0: int, c1: seq<Instr>, j1: int, e1: ExpDesc, a: Expr, k1: seq<Value>,
                      c2: seq<Instr>, j2: int, e2: ExpDesc, base: int, dst: int, k: seq<Value>, fold: Folder)
    requires Ready(c0, j0) && k1 <= k && Compiled(c0, j0, c1, j1, e1, a, base, k1, fold)
    requires Became(c1, j1, e1, c2, j2, e2, |c0|, base, dst, k)
    requires e2.k == VNONRELOC && NoLists(e2) && (dst == -1 || dst == e2.info)
    ensures Assigns(c0, j0, c2, j2, e2.info, a, base, k, fold)
  {
    PendJumps(c0, JS(c0, j0), {}, {}, |c0|);
    StateNothing(c2, j2, e2, |c0|);
    PendReady(c2, JS(c2, j2), {}, {}, |c0|);
    StateLists(c2, j2, e2, |c0|);
    hide JS, IsList, Frame, Delivers, ExpState, Pend, Stored, Eval;
    FrameTrans2(c0, JS(c0, j0), c1, JS(c1, j1), c2, JS(c2, j2), |c0|);
    forall env: Env, x, r, v | EnvOk(env, k, fold) && (x == |c0| || x in JS(c0, j0)) && v == Eval(a, env, r)
      ensures Stored(c2, JS(c2, j2), e2.info, base, env, x, r, v)
    {
      assert EnvOk(env, k1, fold);
      assert Delivers(c1, j1, e1, base, -1, env, x, r, v);
      DeliveredStored(c2, j2, e2, base, dst, env, x, r, v);
    }
  }

  /** A run from the start of the code, or from a jump that was pending to it, reaches
      the RETURN at the end of the code, whose register holds the value of `a`; every jump
      in the new code goes forward to one of its instructions, and the code before it is
      kept but for the jumps that were pending to it. */
  ghost predicate Returns(c0: seq<Instr>, j0: int, c: seq<Instr>, reg: int, a: Expr, base: int, k: seq<Value>,
                          fold: Folder) {
    && |c| > |c0| && c[|c| - 1] == RETURN(reg, 2)
    && Pend(c, {}, {}, {}, |c0|)
    && (forall p :: |c0| <= p < |c| && c[p].JMP? ==> 0 <= c[p].sbx && p + 1 + c[p].sbx < |c|)
    && Frame(c0, JS(c0, j0), c, {}, |c0|)
    && forall env: Env, x, r, v :: EnvOk(env, k, fold) && (x == |c0| || x in JS(c0, j0)) && v == Eval(a, env, r) ==>
         AtReturn(c, reg, base, env, x, r, v)
  }

  ghost predicate AtReturn(c: seq<Instr>, reg: int, base: int, env: Env, x: int, r: Regs, v: Value) {
    var o := Run(c, {|c| - 1}, env, x, r);
    o.pc == |c| - 1 && Get(o.r, reg) == v && Agree(r, o.r, base, reg)
  }

  /** The structure of the code with the RETURN behind it. */
  lemma ReturnState(c0: seq<Instr>, J0: set<int>, c1: seq<Instr>, J1: set<int>, reg: int)
    requires Pend(c1, J1, {}, {}, |c0|) && Frame(c0, J0, c1, J1, |c0|) && Aimed(c1, J1, |c0|) && |c0| <= |c1|
      && Jumps(c0, J0)
    ensures
      var c2 := Extended(c1, J1, [RETURN(reg, 2)]);
      && |c2| == |c1| + 1 && c2[|c1|] == RETURN(reg, 2) && Pend(c2, {}, {}, {}, |c0|) && Frame(c0, J0, c2, {}, |c0|)
      && (forall p :: |c0| <= p < |c2| && c2[p].JMP? ==> 0 <= c2[p].sbx && p + 1 + c2[p].sbx < |c2|)
    ensures Paired(c1) && Jumps(c1, J1) && (forall p :: p in J1 ==> 0 <= p < |c1|) && TailOk([RETURN(reg, 2)], |c1|, {})
  {
    var tail := [RETURN(reg, 2)];
    var c2 := Extended(c1, J1, tail);
    assert TailOk(tail, |c1|, {});
    hide Frame;
    PendEmit(c1, J1, {}, {}, |c0|, tail, {}, {}, {});
    PendBounds(c1, J1, {}, {}, |c0|);
    PendJumps(c1, J1, {}, {}, |c0|);
    FrameEmit(c1, J1, tail, |c0|);
    FrameTrans2(c0, J0, c1, J1, c2, {}, |c0|);
    ReturnJumps(c1, J1, |c0|, reg);
  }

  lemma ReturnJumps(c1: seq<Instr>, J1: set<int>, s: int, reg: int)
    requires Aimed(c1, J1, s) && 0 <= s
    ensures
      var c2 := Extended(c1, J1, [RETURN(reg, 2)]);
      forall p :: s <= p < |c2| && c2[p].JMP? ==> 0 <= c2[p].sbx && p + 1 + c2[p].sbx < |c2|
  {
    var c2 := Extended(c1, J1, [RETURN(reg, 2)]);
    forall p | 0 <= p < |c1| ensures c2[p] == Patched(c1, J1, |c1|, NO_REG, |c1|)[p] {}
    assert c2[|c1|] == RETURN(reg, 2);
  }

  lemma CompileReturn(c0: seq<Instr>, j0: int, c1: seq<Instr>, j1: int, reg: int, a: Expr, base: int, k: seq<Value>,
                      fold: Folder)
    requires Assigns(c0, j0, c1, j1, reg, a, base, k, fold) && |c0| <= |c1| && Ready(c0, j0)
    ensures Returns(c0, j0, Extended(c1, JS(c1, j1), [RETURN(reg, 2)]), reg, a, base, k, fold)
  {
    hide JS, IsList, Frame, Pend, Eval, Extended, Run, Jumps, Agree, TailOk, Aimed;
    var J0, J1 := JS(c0, j0), JS(c1, j1);
    var tail := [RETURN(reg, 2)];
    var c2 := Extended(c1, J1, tail);
    PendJumps(c0, J0, {}, {}, |c0|);
    ReturnState(c0, J0, c1, J1, reg);
    forall env: Env, x, r, v | EnvOk(env, k, fold) && (x == |c0| || x in J0) && v == Eval(a, env, r)
      ensures AtReturn(c2, reg, base, env, x, r, v)
    {
      assert Stored(c1, J1, reg, base, env, x, r, v);
      EmitPlain(c1, J1, tail, {|c1|}, env, x, r);
      RunPending(c2, {|c1|}, env, |c1|, Run(c1, J1, env, x, r).r);
    }
  }
}
