/** The register machine of Lua 5.3: the instructions a logical expression can
    compile to, what each one does, and how a run of forward code composes.

    A jump that still waits for its destination is a stop: a run that reaches it
    reports where it is and does not follow the link stored in the jump. */
module LuaVM {
  const NO_JUMP := -1
  const NO_REG := 255
  const MAXREGS := 255
  const MAXARG_BX := 262143
  const MAXARG_SBX := 131071
  const MAXARG_AX := 67108863
  const BITRK := 256
  const MAXINDEXRK := 255

  datatype Value = Nil | Bool(b: bool) | Int(i: int) | Str(s: string)

  predicate Truthy(v: Value) {
    v != Nil && v != Bool(false)
  }

  datatype CompOp = EQ | LT | LE

  datatype ArithOp = ADD | SUB | MUL | MOD | POW | DIV | IDIV | BAND | BOR | BXOR | SHL | SHR

  datatype UnaryOp = UNM | BNOT | LEN

  datatype Instr =
    | MOVE(a: int, b: int)
    | LOADK(a: int, bx: int)
    | LOADKX(a: int)
    | LOADBOOL(a: int, val: bool, skip: bool)
    | LOADNIL(a: int)
    | GETUPVAL(a: int, b: int)
    | ARITH(bop: ArithOp, a: int, b: int, c: int)
    | UNARY(uop: UnaryOp, a: int, b: int)
    | NOT(a: int, b: int)
    | JMP(sbx: int)
    | COMP(op: CompOp, cond: bool, b: int, c: int)
    | TEST(a: int, cond: bool)
    | TESTSET(a: int, b: int, cond: bool)
    | RETURN(a: int, n: int)
    | EXTRAARG(ax: int)

  type Regs = map<int, Value>

  function Get(r: Regs, i: int): Value {
    if i in r then r[i] else Nil
  }

  /** What stays fixed while a function runs: its constants, its upvalues and the
      meaning of the comparison and arithmetic opcodes on values. */
  datatype Env = Env(k: seq<Value>, up: Regs, comp: (CompOp, Value, Value) -> bool,
                     arith: (ArithOp, Value, Value) -> Value, unary: (UnaryOp, Value) -> Value)

  function Kst(env: Env, i: int): Value {
    if 0 <= i < |env.k| then env.k[i] else Nil
  }

  function RK(env: Env, r: Regs, x: int): Value {
    if x >= BITRK then Kst(env, x - BITRK) else Get(r, x)
  }

  /** Instructions with the test mode bit: the next instruction must be a jump. */
  predicate IsTest(i: Instr) {
    i.COMP? || i.TEST? || i.TESTSET?
  }

  function Op(code: seq<Instr>, i: int): Instr {
    if 0 <= i < |code| then code[i] else RETURN(0, 0)
  }

  datatype State = State(pc: int, r: Regs)

  function Test(pc: int, r: Regs, jump: bool): State {
    State(if jump then pc + 1 else pc + 2, r)
  }

  /** One instruction. A TESTSET whose register is not known yet writes nothing. */
  function Step(code: seq<Instr>, env: Env, pc: int, r: Regs): State
    requires 0 <= pc < |code|
  {
    match code[pc]
    case MOVE(a, b) => State(pc + 1, r[a := Get(r, b)])
    case LOADK(a, bx) => State(pc + 1, r[a := Kst(env, bx)])
    case LOADKX(a) =>
      var next := Op(code, pc + 1);
      State(pc + 2, r[a := if next.EXTRAARG? then Kst(env, next.ax) else Nil])
    case LOADBOOL(a, val, skip) => State(if skip then pc + 2 else pc + 1, r[a := Bool(val)])
    case LOADNIL(a) => State(pc + 1, r[a := Nil])
    case GETUPVAL(a, b) => State(pc + 1, r[a := Get(env.up, b)])
    case ARITH(op, a, b, c) => State(pc + 1, r[a := env.arith(op, RK(env, r, b), RK(env, r, c))])
    case UNARY(op, a, b) => State(pc + 1, r[a := env.unary(op, Get(r, b))])
    case NOT(a, b) => State(pc + 1, r[a := Bool(!Truthy(Get(r, b)))])
    case JMP(sbx) => State(pc + 1 + sbx, r)
    case COMP(op, cond, b, c) => Test(pc, r, env.comp(op, RK(env, r, b), RK(env, r, c)) == cond)
    case TEST(a, cond) => Test(pc, r, Truthy(Get(r, a)) == cond)
    case TESTSET(a, b, cond) =>
      var jump := Truthy(Get(r, b)) == cond;
      Test(pc, if jump && a != NO_REG then r[a := Get(r, b)] else r, jump)
    case RETURN(_, _) => State(-1, r)
    case EXTRAARG(_) => State(-1, r)
  }

  /** Where a run stops: `via` says that it stopped on a jump because the test in
      front of it took that jump. A run that leaves the forward code is at -1. */
  datatype Stop = Stop(pc: int, r: Regs, via: bool)

  function Run(code: seq<Instr>, stops: set<int>, env: Env, pc: int, r: Regs): Stop
    decreases |code| - pc
  {
    if pc < 0 || pc >= |code| || pc in stops then Stop(pc, r, false)
    else
      var s := Step(code, env, pc, r);
      if s.pc <= pc then Stop(-1, s.r, false)
      else if IsTest(code[pc]) && s.pc == pc + 1 && s.pc in stops then Stop(s.pc, s.r, true)
      else Run(code, stops, env, s.pc, s.r)
  }

  /** Dropping the unset register of a TESTSET does not change its unfinished meaning. */
  predicate Similar(i: Instr, j: Instr) {
    i == j || (i.TESTSET? && i.a == NO_REG && j == TEST(i.b, i.cond))
  }

  /** Every test is followed by a jump and every LOADKX by its argument, so code
      never ends in one of them. */
  ghost predicate Paired(code: seq<Instr>) {
    && (forall i :: 0 <= i < |code| && IsTest(code[i]) ==> i + 1 < |code| && code[i + 1].JMP?)
    && (forall i :: 0 <= i < |code| && code[i].LOADKX? ==> i + 1 < |code| && code[i + 1].EXTRAARG?)
  }

  /** `c2` continues `c1`: the part a run of `c1` executes before stopping is kept. */
  ghost predicate Continues(c1: seq<Instr>, p1: set<int>, c2: seq<Instr>, p2: set<int>) {
    && |c1| <= |c2|
    && Paired(c1)
    && (forall i :: 0 <= i < |c1| && i !in p1 ==> Similar(c1[i], c2[i]) && i !in p2)
    && (forall i :: 0 <= i < |c1| && c1[i].EXTRAARG? ==> c2[i] == c1[i])
  }

  /** A run of the longer code does what the run of the shorter one did up to its
      stop, and goes on from there. */
  lemma {:induction false} Resume(c1: seq<Instr>, p1: set<int>, c2: seq<Instr>, p2: set<int>, env: Env, pc: int,
                                  r: Regs)
    requires Continues(c1, p1, c2, p2)
    requires 0 <= Run(c1, p1, env, pc, r).pc <= |c1|
    ensures
      var o := Run(c1, p1, env, pc, r);
      Run(c2, p2, env, pc, r) == if o.pc in p2 && o.pc < |c1| then o else Run(c2, p2, env, o.pc, o.r)
    decreases |c1| - pc
  {
    if 0 <= pc < |c1| && pc !in p1 {
      var s := Step(c1, env, pc, r);
      assert Similar(c1[pc], c2[pc]);
      assert s == Step(c2, env, pc, r);
      if IsTest(c1[pc]) && s.pc == pc + 1 && s.pc in p1 {
      } else {
        Resume(c1, p1, c2, p2, env, s.pc, s.r);
      }
    }
  }
}
