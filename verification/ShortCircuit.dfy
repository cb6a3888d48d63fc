/** What unfinished code for a logical expression means, and how each step of the
    code generator changes that meaning. */
module ShortCircuit {
  import opened LuaVM

  datatype Kind = VNIL | VTRUE | VFALSE | VK | VKINT | VNONRELOC | VLOCAL | VUPVAL | VJMP | VRELOCABLE

  /** An expression descriptor: its main value and its two lists of pending jumps. */
  datatype ExpDesc = ExpDesc(k: Kind, info: int, ival: int, t: int, f: int)

  /** What the unfinished code does when no jump leaves it: it leaves the value
      described by `e`, or it only goes on when the value is `b`. */
  datatype End = Val(e: ExpDesc) | Thru(b: bool)

  /** Instructions that can put their result in any register. */
  predicate Relocatable(i: Instr) {
    i.NOT? || i.GETUPVAL? || i.ARITH? || i.UNARY?
  }

  function SetA(i: Instr, a: int): Instr
    requires Relocatable(i)
  {
    match i
    case NOT(_, b) => NOT(a, b)
    case GETUPVAL(_, b) => GETUPVAL(a, b)
    case ARITH(op, _, b, c) => ARITH(op, a, b, c)
    case UNARY(op, _, b) => UNARY(op, a, b)
  }

  /** The value a pending instruction computes from registers `r`; for a comparison,
      whether it takes its jump. */
  function Result(i: Instr, env: Env, r: Regs): Value {
    match i
    case NOT(_, b) => Bool(!Truthy(Get(r, b)))
    case GETUPVAL(_, b) => Get(env.up, b)
    case ARITH(op, _, b, c) => env.arith(op, RK(env, r, b), RK(env, r, c))
    case UNARY(op, _, b) => env.unary(op, Get(r, b))
    case COMP(op, cond, b, c) => Bool(env.comp(op, RK(env, r, b), RK(env, r, c)) == cond)
    case _ => Nil
  }

  function ValueAt(code: seq<Instr>, e: ExpDesc, env: Env, r: Regs): Value {
    match e.k
    case VNIL => Nil
    case VTRUE => Bool(true)
    case VFALSE => Bool(false)
    case VK => Kst(env, e.info)
    case VKINT => Int(e.ival)
    case VNONRELOC => Get(r, e.info)
    case VLOCAL => Get(r, e.info)
    case VUPVAL => Get(env.up, e.info)
    case VJMP => Result(Op(code, e.info - 1), env, r)
    case VRELOCABLE => Result(Op(code, e.info), env, r)
  }

  /** Registers below `base` are kept, except the destination `dst`. */
  ghost predicate Agree(r: Regs, r': Regs, base: int, dst: int) {
    forall q :: 0 <= q < base && q != dst ==> Get(r', q) == Get(r, q)
  }

  /** The value carried by a pending jump: the register its TESTSET tests, or else
      exactly the boolean `b`. */
  ghost predicate Carries(code: seq<Instr>, p: int, r: Regs, v: Value, b: bool) {
    var c := Control(code, p);
    if c.TESTSET? then v == Get(r, c.b) else v == Bool(b)
  }

  /** The pending last instruction of the code, if the value still depends on it: the
      comparison in front of a VJMP, the instruction of a VRELOCABLE. */
  predicate Waits(e: ExpDesc) {
    e.k == VRELOCABLE || e.k == VJMP
  }

  function Waiting(e: ExpDesc): int {
    if e.k == VJMP then e.info - 1 else e.info
  }

  function EndStop(end: End): set<int> {
    if end.Val? && Waits(end.e) then {Waiting(end.e)} else {}
  }

  ghost predicate AtEnd(code: seq<Instr>, J: set<int>, end: End, pc: int) {
    if end.Val? && Waits(end.e) then pc == Waiting(end.e) else pc == |code| || pc in J
  }

  ghost predicate EndOk(code: seq<Instr>, end: End, env: Env, r: Regs, v: Value) {
    match end
    case Val(e) => ValueAt(code, e, env, r) == v
    case Thru(b) => Truthy(v) == b
  }

  ghost predicate Exits(code: seq<Instr>, L: set<int>, o: Stop, v: Value, b: bool) {
    o.pc in L && o.via && Truthy(v) == b && Carries(code, o.pc, o.r, v, b)
  }

  /** The three ways out of the code: an exit on a true value, one on a false
      value, or the end of the code; the pending jumps in `J` jump to the end. */
  ghost predicate Ends(code: seq<Instr>, J: set<int>, T: set<int>, F: set<int>, end: End, env: Env, o: Stop, v: Value) {
    || Exits(code, T, o, v, true)
    || Exits(code, F, o, v, false)
    || (AtEnd(code, J, end, o.pc) && EndOk(code, end, env, o.r, v))
  }

  /** Run from `x` with registers `r`, the code delivers the value `v`. */
  ghost predicate Good(code: seq<Instr>, J: set<int>, T: set<int>, F: set<int>, end: End, base: int, dst: int, env: Env,
                       x: int, r: Regs, v: Value) {
    var o := Run(code, J + T + F + EndStop(end), env, x, r);
    && Agree(r, o.r, base, dst)
    && Ends(code, J, T, F, end, env, o, v)
  }

  /** The instruction that controls the jump at `p`, if it is a test. */
  function Control(code: seq<Instr>, p: int): Instr {
    Op(code, p - 1)
  }

  /** A jump without its destination; the TESTSET in front of it has no register yet. */
  predicate Open(code: seq<Instr>, p: int) {
    && 0 <= p < |code| && code[p].JMP?
    && (Control(code, p).TESTSET? ==> Control(code, p).a == NO_REG != Control(code, p).b)
  }

  ghost predicate Jumps(code: seq<Instr>, L: set<int>) {
    forall p :: p in L ==> Open(code, p)
  }

  ghost predicate Tested(code: seq<Instr>, L: set<int>, s: int) {
    forall p :: p in L ==> s < p && IsTest(Control(code, p))
  }

  predicate Unset(code: seq<Instr>, i: int) {
    Op(code, i).TESTSET? && Op(code, i).a == NO_REG
  }

  /** The pending jumps are open, the ones with a value follow a test, and a TESTSET
      from `s` on has no register exactly while its jump is pending. */
  ghost predicate Pend(code: seq<Instr>, J: set<int>, T: set<int>, F: set<int>, s: int) {
    && Paired(code)
    && J !! T && J !! F && T !! F
    && Jumps(code, J) && Jumps(code, T) && Jumps(code, F)
    && Tested(code, T, s) && Tested(code, F, s)
    && (forall i :: s <= i && Unset(code, i) ==> i + 1 in J || i + 1 in T || i + 1 in F)
  }

  /** What code generation may do to code before `s`: only the jumps to "here" in `J0`
      move, to a place from `s` on, and the TESTSET in front of one becomes a TEST. */
  ghost predicate Frame(c0: seq<Instr>, J0: set<int>, c1: seq<Instr>, J1: set<int>, s: int) {
    && 0 <= s <= |c0| <= |c1|
    && (forall i :: 0 <= i < s && i !in J0 ==> Similar(c0[i], c1[i]) && (i + 1 !in J0 ==> c1[i] == c0[i]))
    && (forall i :: i in J0 && 0 <= i < s ==> c1[i].JMP? && (i in J1 || s <= i + 1 + c1[i].sbx <= |c1|))
    && (forall i :: 0 <= i < s && Unset(c1, i) ==> Unset(c0, i) && (i + 1 in J0 ==> i + 1 in J1))
    && (forall j :: j in J1 ==> j in J0 || j > s || (j == s && !IsTest(Control(c1, j))))
  }

  /** Every jump from `s` on that is not in `L` goes forward, at most to the end of the code. */
  ghost predicate Aimed(code: seq<Instr>, L: set<int>, s: int) {
    forall i :: s <= i < |code| && 0 <= i && code[i].JMP? && i !in L ==>
      0 <= code[i].sbx && i + 1 + code[i].sbx <= |code|
  }

  function PatchTest(i: Instr, reg: int): Instr {
    if !i.TESTSET? then i
    else if reg != NO_REG && reg != i.b then TESTSET(reg, i.b, i.cond)
    else TEST(i.b, i.cond)
  }

  /** `code` after its jumps in `L` got their destination: `vt` and register `reg` for
      the ones that carry a value, `dt` for the others. */
  ghost function Patched(code: seq<Instr>, L: set<int>, vt: int, reg: int, dt: int): (c: seq<Instr>)
    ensures |c| == |code|
    ensures forall i {:trigger c[i]} :: 0 <= i < |code| ==>
      c[i] == if i in L then JMP((if Control(code, i).TESTSET? then vt else dt) - (i + 1))
              else if i + 1 in L then PatchTest(code[i], reg)
              else code[i]
  {
    seq(|code|, i requires 0 <= i < |code| =>
      if i in L then JMP((if Control(code, i).TESTSET? then vt else dt) - (i + 1))
      else if i + 1 in L then PatchTest(code[i], reg)
      else code[i])
  }

  /** The registers after the patched TESTSET in front of the jump at `p`. */
  function Written(code: seq<Instr>, L: set<int>, p: int, reg: int, r: Regs): Regs {
    var c := Control(code, p);
    if p in L && c.TESTSET? && reg != NO_REG && reg != c.b then r[reg := Get(r, c.b)] else r
  }

  lemma PatchStep(c1: seq<Instr>, L: set<int>, vt: int, reg: int, dt: int, env: Env, pc: int, r: Regs)
    requires Paired(c1) && Jumps(c1, L) && 0 <= pc < |c1| && pc !in L
    ensures
      var c2 := Patched(c1, L, vt, reg, dt);
      var s := Step(c1, env, pc, r);
      && IsTest(c1[pc]) == IsTest(c2[pc])
      && Step(c2, env, pc, r) ==
           if IsTest(c1[pc]) && s.pc == pc + 1 then State(s.pc, Written(c1, L, s.pc, reg, s.r)) else s
  {
    hide Patched, Paired, Jumps;
    PatchInstr(c1, L, vt, reg, dt, pc);
  }

  /** What patching does to one instruction that is not patched itself. */
  lemma PatchInstr(c1: seq<Instr>, L: set<int>, vt: int, reg: int, dt: int, pc: int)
    requires Paired(c1) && Jumps(c1, L) && 0 <= pc < |c1| && pc !in L
    ensures
      var c2 := Patched(c1, L, vt, reg, dt);
      && |c2| == |c1| && Control(c1, pc + 1) == c1[pc]
      && c2[pc] == (if pc + 1 in L then PatchTest(c1[pc], reg) else c1[pc])
      && (pc + 1 in L && c1[pc].TESTSET? ==> c1[pc].a == NO_REG)
      && (c1[pc].LOADKX? ==> Op(c2, pc + 1) == Op(c1, pc + 1))
  {
    assert pc + 1 in L ==> Open(c1, pc + 1);
  }

  /** Patched code does what the unpatched code did, and follows the patched jumps. */
  lemma {:induction false} PatchRun(c1: seq<Instr>, L: set<int>, vt: int, reg: int, dt: int, p1: set<int>, env: Env,
                                    pc: int, r: Regs)
    requires Paired(c1) && L <= p1 && Jumps(c1, L)
    requires var o := Run(c1, p1, env, pc, r); 0 <= o.pc <= |c1| && (o.pc in L ==> o.via || reg == NO_REG)
    ensures
      var o := Run(c1, p1, env, pc, r);
      var c2 := Patched(c1, L, vt, reg, dt);
      Run(c2, p1 - L, env, pc, r) ==
        if o.pc in p1 - L && o.pc < |c1| then o else Run(c2, p1 - L, env, o.pc, Written(c1, L, o.pc, reg, o.r))
    decreases |c1| - pc
  {
    if 0 <= pc < |c1| && pc !in p1 {
      PatchStep(c1, L, vt, reg, dt, env, pc, r);
      var s := Step(c1, env, pc, r);
      if !(IsTest(c1[pc]) && s.pc == pc + 1 && s.pc in p1) {
        PatchRun(c1, L, vt, reg, dt, p1, env, s.pc, s.r);
      }
    }
  }
}
