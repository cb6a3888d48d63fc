/** One lemma for each step of the code generator: how it changes the meaning of the
    unfinished code. */
module CodegenSteps {
  import opened LuaVM
  import opened ShortCircuit

  /** Code after an instruction is added: the jumps to "here" now jump to it. */
  ghost function Extended(c1: seq<Instr>, J: set<int>, tail: seq<Instr>): seq<Instr> {
    Patched(c1, J, |c1|, NO_REG, |c1|) + tail
  }

  lemma PatchedPaired(c1: seq<Instr>, L: set<int>, vt: int, reg: int, dt: int)
    requires Paired(c1) && Jumps(c1, L)
    ensures Paired(Patched(c1, L, vt, reg, dt))
  {
    var c2 := Patched(c1, L, vt, reg, dt);
    forall i | 0 <= i < |c2| && IsTest(c2[i])
      ensures i + 1 < |c2| && c2[i + 1].JMP?
    {
      assert IsTest(c1[i]);
    }
    forall i | 0 <= i < |c2| && c2[i].LOADKX?
      ensures i + 1 < |c2| && c2[i + 1].EXTRAARG?
    {
      assert c1[i].LOADKX?;
    }
  }

  lemma RunJump(code: seq<Instr>, stops: set<int>, env: Env, pc: int, r: Regs, d: int)
    requires 0 <= pc < |code| && code[pc] == JMP(d) && d >= 0 && pc !in stops
    ensures Run(code, stops, env, pc, r) == Run(code, stops, env, pc + 1 + d, r)
  {
  }

  lemma {:induction false} RunStops(code: seq<Instr>, stops: set<int>, env: Env, pc: int, r: Regs)
    ensures var o := Run(code, stops, env, pc, r); o.pc in stops || o.pc < 0 || o.pc >= |code|
    decreases |code| - pc
  {
    if 0 <= pc < |code| && pc !in stops {
      var s := Step(code, env, pc, r);
      if s.pc > pc {
        RunStops(code, stops, env, s.pc, s.r);
      }
    }
  }

  lemma RunEnd(code: seq<Instr>, stops: set<int>, env: Env, r: Regs)
    ensures Run(code, stops, env, |code|, r) == Stop(|code|, r, false)
  {
  }

  lemma Landed(c1: seq<Instr>, J: set<int>)
    ensures
      var cp := Patched(c1, J, |c1|, NO_REG, |c1|);
      |cp| == |c1| && forall p :: p in J && 0 <= p < |c1| ==> cp[p] == JMP(|c1| - (p + 1))
  {
  }

  /** Sending the jumps in `J` to the end of the code. */
  lemma Land(c1: seq<Instr>, J: set<int>, E: set<int>, env: Env, x: int, r: Regs)
    requires Paired(c1) && Jumps(c1, J) && J !! E
    requires 0 <= Run(c1, J + E, env, x, r).pc <= |c1|
    ensures
      var o := Run(c1, J + E, env, x, r);
      Run(Patched(c1, J, |c1|, NO_REG, |c1|), E, env, x, r) ==
        if o.pc in E && o.pc < |c1| then o else Stop(|c1|, o.r, false)
  {
    hide Run, Step, Patched, Paired, PatchTest;
    var o := Run(c1, J + E, env, x, r);
    var cp := Patched(c1, J, |c1|, NO_REG, |c1|);
    PatchRun(c1, J, |c1|, NO_REG, |c1|, J + E, env, x, r);
    assert J + E - J == E;
    RunStops(c1, J + E, env, x, r);
    Landed(c1, J);
    RunEnd(cp, E, env, o.r);
    if o.pc in J {
      RunJump(cp, E, env, o.pc, o.r, |c1| - (o.pc + 1));
    }
  }

  /** Adding instructions behind finished code. */
  lemma Append(c1: seq<Instr>, E: set<int>, tail: seq<Instr>, Q: set<int>, env: Env, x: int, r: Regs)
    requires Paired(c1)
    requires forall q :: q in Q ==> q >= |c1|
    requires forall p :: p in E ==> 0 <= p < |c1|
    requires 0 <= Run(c1, E, env, x, r).pc <= |c1|
    ensures
      var o := Run(c1, E, env, x, r);
      Run(c1 + tail, E + Q, env, x, r) == if o.pc in E then o else Run(c1 + tail, E + Q, env, o.pc, o.r)
  {
    assert Continues(c1, E, c1 + tail, E + Q);
    Resume(c1, E, c1 + tail, E + Q, env, x, r);
  }

  /** Adding instructions: pending exits stay what they were, and every other way out
      now runs the new instructions. */
  lemma Emit(c1: seq<Instr>, J: set<int>, E: set<int>, tail: seq<Instr>, Q: set<int>, env: Env, x: int, r: Regs)
    requires Paired(c1) && Jumps(c1, J) && J !! E
    requires forall q :: q in Q ==> q >= |c1|
    requires forall p :: p in E ==> 0 <= p < |c1|
    requires 0 <= Run(c1, J + E, env, x, r).pc <= |c1|
    ensures
      var o := Run(c1, J + E, env, x, r);
      Run(Extended(c1, J, tail), E + Q, env, x, r) ==
        if o.pc in E then o else Run(Extended(c1, J, tail), E + Q, env, |c1|, o.r)
  {
    Land(c1, J, E, env, x, r);
    PatchedPaired(c1, J, |c1|, NO_REG, |c1|);
    Append(Patched(c1, J, |c1|, NO_REG, |c1|), E, tail, Q, env, x, r);
  }

  /** An exit of `c1` is still the same exit after the jumps to "here" are patched. */
  lemma ExitKept(c1: seq<Instr>, J: set<int>, L: set<int>, tail: seq<Instr>, o: Stop, v: Value, b: bool)
    requires Exits(c1, L, o, v, b) && Jumps(c1, J) && J !! L && 0 < o.pc < |c1| && IsTest(c1[o.pc - 1])
    ensures Exits(Extended(c1, J, tail), L, o, v, b)
  {
    assert o.pc !in J;
    assert o.pc - 1 !in J;
    assert Op(Extended(c1, J, tail), o.pc - 1) == Control(c1, o.pc);
  }

  /** Any step that only adds instructions: exits are kept, and the new instructions
      take the state at the end of the old code to where `o2` stops. */
  lemma EmitGood(c1: seq<Instr>, J: set<int>, T: set<int>, F: set<int>, s: int, end: End, base: int, dst: int,
                 tail: seq<Instr>, Q: set<int>, env: Env, x: int, r: Regs, v: Value) returns (o: Stop, o2: Stop)
    requires Pend(c1, J, T, F, s) && Good(c1, J, T, F, end, base, dst, env, x, r, v)
    requires EndStop(end) == {} && 0 <= s && |tail| > 0
    requires forall q :: q in Q ==> q >= |c1|
    ensures o == Run(c1, J + T + F, env, x, r) && Agree(r, o.r, base, dst)
    ensures o2 == Run(Extended(c1, J, tail), T + F + Q, env, x, r)
    ensures Exits(c1, T, o, v, true) ==> o2 == o && Exits(Extended(c1, J, tail), T, o, v, true)
    ensures Exits(c1, F, o, v, false) ==> o2 == o && Exits(Extended(c1, J, tail), F, o, v, false)
    ensures o.pc !in T + F ==>
      && o2 == Run(Extended(c1, J, tail), T + F + Q, env, |c1|, o.r)
      && EndOk(c1, end, env, o.r, v)
    ensures Exits(c1, T, o, v, true) || Exits(c1, F, o, v, false) || o.pc !in T + F
  {
    hide Run;
    o := Run(c1, J + T + F, env, x, r);
    o2 := Run(Extended(c1, J, tail), T + F + Q, env, x, r);
    assert J + T + F + EndStop(end) == J + T + F == J + (T + F);
    assert AtEnd(c1, J, end, o.pc) ==> o.pc !in T + F;
    Emit(c1, J, T + F, tail, Q, env, x, r);
    if Exits(c1, T, o, v, true) {
      ExitKept(c1, J, T, tail, o, v, true);
    }
    if Exits(c1, F, o, v, false) {
      ExitKept(c1, J, F, tail, o, v, false);
    }
  }

  predicate Loads(tail: seq<Instr>, e: ExpDesc, reg: int) {
    match e.k
    case VNIL => tail == [LOADNIL(reg)]
    case VTRUE => tail == [LOADBOOL(reg, true, false)]
    case VFALSE => tail == [LOADBOOL(reg, false, false)]
    case VK => tail == [LOADK(reg, e.info)] || tail == [LOADKX(reg), EXTRAARG(e.info)]
    case VNONRELOC => tail == [MOVE(reg, e.info)]
    case _ => false
  }

  lemma LoadRun(c2: seq<Instr>, n: nat, tail: seq<Instr>, e: ExpDesc, reg: int, stops: set<int>, env: Env, r: Regs)
    requires |c2| == n + |tail| && c2[n..] == tail && Loads(tail, e, reg)
    requires forall q :: q in stops ==> q < n
    ensures Run(c2, stops, env, n, r) == Stop(|c2|, r[reg := ValueAt(c2[..n], e, env, r)], false)
  {
    assert c2[n] == tail[0];
    if |tail| == 2 {
      assert Op(c2, n + 1) == tail[1];
    }
    var s := Step(c2, env, n, r);
    assert s == State(|c2|, r[reg := ValueAt(c2[..n], e, env, r)]);
  }

  /** Loading a value into a register. */
  lemma Load(c1: seq<Instr>, J: set<int>, T: set<int>, F: set<int>, s: int, e: ExpDesc, base: int, dst: int,
             tail: seq<Instr>, e2: ExpDesc, env: Env, x: int, r: Regs, v: Value)
    requires Pend(c1, J, T, F, s) && Good(c1, J, T, F, Val(e), base, dst, env, x, r, v)
    requires 0 <= s && e2.k == VNONRELOC && Loads(tail, e, e2.info) && (e2.info >= base || e2.info == dst)
    ensures Good(Extended(c1, J, tail), {}, T, F, Val(e2), base, dst, env, x, r, v)
  {
    hide Run, Step;
    var c2 := Extended(c1, J, tail);
    var o, o2 := EmitGood(c1, J, T, F, s, Val(e), base, dst, tail, {}, env, x, r, v);
    assert {} + T + F + EndStop(Val(e2)) == T + F + {};
    if o.pc !in T + F {
      LoadRun(c2, |c1|, tail, e, e2.info, T + F + {}, env, o.r);
      assert o2 == Stop(|c2|, o.r[e2.info := v], false);
    }
  }

  /** Giving the pending instruction its register. */
  lemma SetRegister(c1: seq<Instr>, T: set<int>, F: set<int>, s: int, e: ExpDesc, base: int, dst: int,
                    e2: ExpDesc, env: Env, x: int, r: Regs, v: Value)
    requires Pend(c1, {}, T, F, s) && Good(c1, {}, T, F, Val(e), base, dst, env, x, r, v)
    requires 0 <= s && e.k == VRELOCABLE && e.info == |c1| - 1 && e.info >= 0
    requires Relocatable(c1[e.info]) && e2.k == VNONRELOC && (e2.info >= base || e2.info == dst)
    ensures Good(c1[e.info := SetA(c1[e.info], e2.info)], {}, T, F, Val(e2), base, dst, env, x, r, v)
  {
    hide Run, Step;
    var c2 := c1[e.info := SetA(c1[e.info], e2.info)];
    var E := T + F;
    assert e.info !in E;
    assert {} + T + F + EndStop(Val(e)) == E + {e.info} && {} + T + F + EndStop(Val(e2)) == E;
    var o := Run(c1, E + {e.info}, env, x, r);
    assert Continues(c1, E + {e.info}, c2, E);
    Resume(c1, E + {e.info}, c2, E, env, x, r);
    if o.pc in E {
      assert Control(c2, o.pc) == Control(c1, o.pc);
    } else {
      RunLast(c2, E, env, o.r);
    }
  }

  lemma RunLast(code: seq<Instr>, stops: set<int>, env: Env, r: Regs)
    requires |code| > 0 && |code| - 1 !in stops && |code| !in stops
    requires Relocatable(code[|code| - 1])
    ensures
      var i := code[|code| - 1];
      Run(code, stops, env, |code| - 1, r) == Stop(|code|, r[i.a := Result(i, env, r)], false)
  {
    RunEnd(code, stops, env, Step(code, env, |code| - 1, r).r);
  }

  /** Two jump slots hold other links: nothing else changes. */
  lemma Relink(c1: seq<Instr>, c2: seq<Instr>, J: set<int>, T: set<int>, F: set<int>, end: End, base: int, dst: int,
               env: Env, x: int, r: Regs, v: Value)
    requires Paired(c1) && |c1| == |c2|
    requires forall i :: 0 <= i < |c1| ==> c2[i] == c1[i] || (i in J + T + F && c1[i].JMP? && c2[i].JMP?)
    requires Good(c1, J, T, F, end, base, dst, env, x, r, v)
    requires forall p :: p in J + T + F + EndStop(end) ==> 0 <= p < |c1|
    ensures Good(c2, J, T, F, end, base, dst, env, x, r, v)
  {
    hide Run, Step;
    var P := J + T + F + EndStop(end);
    var o := Run(c1, P, env, x, r);
    assert Continues(c1, P, c2, P);
    Resume(c1, P, c2, P, env, x, r);
    RunStops(c1, P, env, x, r);
    RunEnd(c2, P, env, o.r);
    RunEnd(c1, P, env, o.r);
    assert Run(c2, P, env, x, r).pc == o.pc && Run(c2, P, env, x, r).r == o.r;
    forall p ensures Op(c2, p) == Op(c1, p) || (Op(c1, p).JMP? && Op(c2, p).JMP?) {}
  }

  /** The value of a comparison or relocatable instruction that was just emitted. */
  lemma EmitWaiting(c1: seq<Instr>, J: set<int>, T: set<int>, F: set<int>, s: int, e: ExpDesc, base: int, dst: int,
                    tail: seq<Instr>, e2: ExpDesc, env: Env, x: int, r: Regs, v: Value) returns (o: Stop, o2: Stop)
    requires Pend(c1, J, T, F, s) && Good(c1, J, T, F, Val(e), base, dst, env, x, r, v)
    requires 0 <= s && !Waits(e) && Waits(e2) && Waiting(e2) == |c1| && |tail| > 0
    ensures o == Run(c1, J + T + F, env, x, r) && Agree(r, o.r, base, dst)
    ensures o2 == Run(Extended(c1, J, tail), {} + T + F + EndStop(Val(e2)), env, x, r)
    ensures Exits(c1, T, o, v, true) ==> o2 == o && Exits(Extended(c1, J, tail), T, o, v, true)
    ensures Exits(c1, F, o, v, false) ==> o2 == o && Exits(Extended(c1, J, tail), F, o, v, false)
    ensures o.pc !in T + F ==> o2 == Stop(|c1|, o.r, false) && ValueAt(c1, e, env, o.r) == v
    ensures Exits(c1, T, o, v, true) || Exits(c1, F, o, v, false) || o.pc !in T + F
  {
    hide Step;
    o, o2 := EmitGood(c1, J, T, F, s, Val(e), base, dst, tail, {|c1|}, env, x, r, v);
    assert {} + T + F + EndStop(Val(e2)) == T + F + {|c1|};
  }

  /** A test jump on register `b`: the jump is pending, falling through means the
      value is not `cond`. */
  lemma TestJump(c1: seq<Instr>, J: set<int>, T: set<int>, F: set<int>, s: int, e: ExpDesc, base: int, dst: int,
                 cond: bool, env: Env, x: int, r: Regs, v: Value)
    requires Pend(c1, J, T, F, s) && Good(c1, J, T, F, Val(e), base, dst, env, x, r, v)
    requires 0 <= s && e.k == VNONRELOC && e.info != NO_REG
    ensures
      var p := |c1| + 1;
      Good(Extended(c1, J, [TESTSET(NO_REG, e.info, cond), JMP(NO_JUMP)]), {},
           if cond then T + {p} else T, if cond then F else F + {p}, Thru(!cond), base, dst, env, x, r, v)
  {
    hide Run, Step, Patched, Paired, PatchTest, Agree;
    var p := |c1| + 1;
    var tail := [TESTSET(NO_REG, e.info, cond), JMP(NO_JUMP)];
    var c2 := Extended(c1, J, tail);
    var T2, F2 := if cond then T + {p} else T, if cond then F else F + {p};
    var o, o2 := EmitGood(c1, J, T, F, s, Val(e), base, dst, tail, {p}, env, x, r, v);
    assert {} + T2 + F2 + EndStop(Thru(!cond)) == T + F + {p};
    if o.pc !in T + F {
      TestRun(c2, |c1|, T + F + {p}, e.info, cond, env, o.r);
      assert Control(c2, p) == tail[0];
    }
  }

  lemma TestRun(c2: seq<Instr>, n: nat, stops: set<int>, b: int, cond: bool, env: Env, r: Regs)
    requires |c2| == n + 2 && (c2[n] == TESTSET(NO_REG, b, cond) || c2[n] == TEST(b, cond))
    requires n + 1 in stops && n !in stops
    ensures Run(c2, stops, env, n, r) ==
      if Truthy(Get(r, b)) == cond then Stop(n + 1, r, true) else Stop(|c2|, r, false)
  {
  }

  /** The same for the negation of a register: the OP_NOT at the end is replaced by a
      test, and the value carried by the jump is a boolean. */
  lemma NotTestJump(c1: seq<Instr>, T: set<int>, F: set<int>, s: int, e: ExpDesc, base: int, dst: int,
                    cond: bool, b: int, env: Env, x: int, r: Regs, v: Value)
    requires Pend(c1, {}, T, F, s) && Good(c1, {}, T, F, Val(e), base, dst, env, x, r, v)
    requires 0 <= s <= e.info && e.k == VRELOCABLE && e.info == |c1| - 1 && c1[e.info].NOT? && c1[e.info].b == b
    ensures
      var p := |c1|;
      Good(c1[..|c1| - 1] + [TEST(b, !cond), JMP(NO_JUMP)], {},
           if cond then T + {p} else T, if cond then F else F + {p}, Thru(!cond), base, dst, env, x, r, v)
  {
    hide Run, Step;
    var p := |c1|;
    var c2 := c1[..|c1| - 1] + [TEST(b, !cond), JMP(NO_JUMP)];
    var T2, F2 := if cond then T + {p} else T, if cond then F else F + {p};
    var P1 := {} + T + F + EndStop(Val(e));
    var P2 := {} + T2 + F2 + EndStop(Thru(!cond));
    var o := Run(c1, P1, env, x, r);
    assert P2 == T + F + {p};
    assert e.info !in T + F;
    assert Continues(c1, P1, c2, P2);
    Resume(c1, P1, c2, P2, env, x, r);
    if o.pc in T + F {
      assert Control(c2, o.pc) == Control(c1, o.pc);
    } else {
      TestRun(c2, e.info, P2, b, !cond, env, o.r);
      assert Control(c2, p) == TEST(b, !cond);
    }
  }

  predicate IsCondJump(code: seq<Instr>, e: ExpDesc) {
    e.k == VJMP && e.info == |code| - 1 >= 1 && code[e.info].JMP? && code[e.info - 1].COMP?
  }

  function Flip(i: Instr): Instr
    requires i.COMP?
  {
    COMP(i.op, !i.cond, i.b, i.c)
  }

  lemma CompRun(code: seq<Instr>, stops: set<int>, e: ExpDesc, env: Env, r: Regs)
    requires IsCondJump(code, e) && e.info in stops && e.info - 1 !in stops
    ensures
      Run(code, stops, env, e.info - 1, r) ==
        if Result(code[e.info - 1], env, r) == Bool(true) then Stop(e.info, r, true) else Stop(|code|, r, false)
  {
  }

  /** Putting the jump of a comparison on the true list, or, once the comparison is
      negated, on the false list. */
  lemma CloseJump(c1: seq<Instr>, T: set<int>, F: set<int>, s: int, e: ExpDesc, base: int, dst: int,
                  neg: bool, env: Env, x: int, r: Regs, v: Value)
    requires IsCondJump(c1, e) && e.info !in T + F
    requires Pend(c1, {}, T, F, s) && Good(c1, {}, T, F, Val(e), base, dst, env, x, r, v)
    requires 0 <= s
    ensures
      var c2 := if neg then c1[e.info - 1 := Flip(c1[e.info - 1])] else c1;
      var T2, F2 := if neg then T else T + {e.info}, if neg then F + {e.info} else F;
      && Good(c2, {}, T2, F2, Thru(neg), base, dst, env, x, r, v)
      && Good(c2, {}, T2, F2, Val(e.(k := if neg then VTRUE else VFALSE)), base, dst, env, x, r, v)
  {
    hide Run, Step, Agree, Patched, Ends;
    var ctl := e.info - 1;
    var c2 := if neg then c1[ctl := Flip(c1[ctl])] else c1;
    var T2, F2 := if neg then T else T + {e.info}, if neg then F + {e.info} else F;
    var P1 := {} + T + F + EndStop(Val(e));
    var P2 := T + F + {e.info};
    assert {} + T2 + F2 + EndStop(Thru(neg)) == P2;
    assert {} + T2 + F2 + EndStop(Val(e.(k := if neg then VTRUE else VFALSE))) == P2;
    assert ctl !in T + F;
    var o := Run(c1, P1, env, x, r);
    CloseBound(c1, T, F, e, env, o, v);
    assert Continues(c1, P1, c2, P2 - {e.info});
    AddStop(c1, P1, c2, T + F, e.info, env, x, r);
    CloseEnds(c1, c2, T, F, e, neg, env, o, v);
  }

  lemma CloseBound(c1: seq<Instr>, T: set<int>, F: set<int>, e: ExpDesc, env: Env, o: Stop, v: Value)
    requires IsCondJump(c1, e) && e.info !in T + F && Jumps(c1, T) && Jumps(c1, F)
      && Ends(c1, {}, T, F, Val(e), env, o, v)
    ensures 0 <= o.pc < e.info
  {
    assert o.pc in T + F ==> Open(c1, o.pc);
  }

  /** Where the code with the closed jump ends. */
  lemma CloseEnds(c1: seq<Instr>, c2: seq<Instr>, T: set<int>, F: set<int>, e: ExpDesc, neg: bool, env: Env, o: Stop,
                  v: Value)
    requires IsCondJump(c1, e) && e.info !in T + F && e.info - 1 !in T + F && Ends(c1, {}, T, F, Val(e), env, o, v)
    requires c2 == if neg then c1[e.info - 1 := Flip(c1[e.info - 1])] else c1
    requires forall p :: p in T + F ==> p != e.info
    ensures
      var T2, F2 := if neg then T else T + {e.info}, if neg then F + {e.info} else F;
      var o2 := if o.pc in T + F then o else Run(c2, T + F + {e.info}, env, o.pc, o.r);
      && Ends(c2, {}, T2, F2, Thru(neg), env, o2, v)
      && Ends(c2, {}, T2, F2, Val(e.(k := if neg then VTRUE else VFALSE)), env, o2, v)
      && (o.pc !in T + F ==> o2.r == o.r)
  {
    hide Run, Step;
    if o.pc in T + F {
      assert Control(c2, o.pc) == Control(c1, o.pc);
    } else {
      CompRun(c2, T + F + {e.info}, e, env, o.r);
      assert Op(c2, e.info - 1) == c2[e.info - 1];
    }
  }

  lemma ContinuesStep(c1: seq<Instr>, p1: set<int>, c2: seq<Instr>, p2: set<int>, env: Env, pc: int, r: Regs)
    requires Continues(c1, p1, c2, p2) && 0 <= pc < |c1| && pc !in p1
    ensures |c1| <= |c2| && pc !in p2 && Step(c1, env, pc, r) == Step(c2, env, pc, r)
      && IsTest(c1[pc]) == IsTest(c2[pc])
  {
    assert Similar(c1[pc], c2[pc]);
  }

  /** As Resume, for one more stop: the jump behind the pending comparison. */
  lemma {:induction false} AddStop(c1: seq<Instr>, p1: set<int>, c2: seq<Instr>, p2: set<int>, q: int, env: Env,
                                   pc: int, r: Regs)
    requires Continues(c1, p1, c2, p2) && p2 <= p1 && q - 1 in p1 && q == |c1| - 1
    requires var o := Run(c1, p1, env, pc, r); 0 <= o.pc < q
    ensures
      var o := Run(c1, p1, env, pc, r);
      Run(c2, p2 + {q}, env, pc, r) == if o.pc in p2 then o else Run(c2, p2 + {q}, env, o.pc, o.r)
    decreases |c1| - pc
  {
    hide Continues, Step, Similar;
    if 0 <= pc < |c1| && pc !in p1 {
      var s := Step(c1, env, pc, r);
      ContinuesStep(c1, p1, c2, p2, env, pc, r);
      if IsTest(c1[pc]) && s.pc == pc + 1 && s.pc in p1 {
      } else {
        AddStop(c1, p1, c2, p2, q, env, s.pc, s.r);
      }
    }
  }

  /** `code` after no test on the list produces a value any more. */
  ghost function Demoted(code: seq<Instr>, L: set<int>): (c: seq<Instr>)
    ensures |c| == |code|
    ensures forall i {:trigger c[i]} :: 0 <= i < |code| ==>
      c[i] == if i + 1 in L then PatchTest(code[i], NO_REG) else code[i]
  {
    seq(|code|, i requires 0 <= i < |code| => if i + 1 in L then PatchTest(code[i], NO_REG) else code[i])
  }

  /** Negation: the lists are swapped and their tests produce no values; at the end of
      the code `e2` describes the negated value. */
  lemma Negated(c1: seq<Instr>, J: set<int>, T: set<int>, F: set<int>, s: int, e2: ExpDesc, base: int, dst: int,
                env: Env, x: int, r: Regs, v: Value)
    requires Pend(c1, J, T, F, s) && 0 <= s
    requires Waits(e2) ==> 0 <= Waiting(e2) < |c1| && Waiting(e2) !in J + T + F && !c1[Waiting(e2)].TESTSET?
    requires
      var o := Run(c1, J + T + F + EndStop(Val(e2)), env, x, r);
      && Agree(r, o.r, base, dst)
      && (Exits(c1, T, o, v, true) || Exits(c1, F, o, v, false)
          || (AtEnd(c1, J, Val(e2), o.pc) && ValueAt(c1, e2, env, o.r) == Bool(!Truthy(v))))
    ensures Good(Demoted(c1, T + F), J, F, T, Val(e2), base, dst, env, x, r, Bool(!Truthy(v)))
  {
    hide Run, Step, Agree;
    var c2 := Demoted(c1, T + F);
    var P := J + T + F + EndStop(Val(e2));
    var o := Run(c1, P, env, x, r);
    forall i | 0 <= i < |c1| ensures Similar(c1[i], c2[i]) {
      assert i + 1 in T + F ==> Control(c1, i + 1) == c1[i] && Open(c1, i + 1);
    }
    assert Continues(c1, P, c2, P);
    Resume(c1, P, c2, P, env, x, r);
    RunEnd(c2, P, env, o.r);
    RunStops(c1, P, env, x, r);
    assert P == J + F + T + EndStop(Val(e2));
    var o2 := Run(c2, P, env, x, r);
    assert o2.pc == o.pc && o2.r == o.r;
    if o.pc in T + F {
      assert !Control(c2, o.pc).TESTSET?;
    }
  }

  lemma {:induction false} SameStops(code: seq<Instr>, p1: set<int>, p2: set<int>, lo: int, env: Env, pc: int, r: Regs)
    requires lo <= pc && forall i :: i >= lo ==> (i in p1 <==> i in p2)
    ensures Run(code, p1, env, pc, r) == Run(code, p2, env, pc, r)
    decreases |code| - pc
  {
    if 0 <= pc < |code| && pc !in p1 {
      var s := Step(code, env, pc, r);
      if s.pc > pc {
        SameStops(code, p1, p2, lo, env, s.pc, s.r);
      }
    }
  }

  /** Entering code at its first instruction, or by a jump that was pending to it. */
  lemma Enter(code: seq<Instr>, J0: set<int>, c0: seq<Instr>, J: set<int>, p1: set<int>, p2: set<int>, env: Env, y: int,
              r: Regs)
    requires Frame(c0, J0, code, J, |c0|)
    requires (y == |c0| || y in J0) && forall j :: j in J0 ==> 0 <= j < |c0|
    requires forall i :: i >= |c0| || i in J ==> (i in p1 <==> i in p2)
    requires y in J0 ==> (y in p1 <==> y in J) && (y in p2 <==> y in J)
    ensures Run(code, p1, env, y, r) == Run(code, p2, env, y, r)
  {
    if y in J0 {
      if y !in J {
        SameStops(code, p1, p2, |c0|, env, y + 1 + code[y].sbx, r);
      }
    } else {
      SameStops(code, p1, p2, |c0|, env, y, r);
    }
  }

  /** A run of two pieces of code in sequence: the second one is entered wherever the
      first one ends without an exit. */
  lemma SequenceRun(c1: seq<Instr>, J1: set<int>, E1: set<int>, c2: seq<Instr>, J2: set<int>, E2: set<int>,
                    env: Env, x: int, r: Regs)
    requires Paired(c1) && E1 !! J1 && forall p :: p in J1 + E1 ==> 0 <= p < |c1| && c1[p].JMP?
    requires Frame(c1, J1, c2, J2, |c1|) && forall p :: p in E2 ==> p >= |c1|
    requires var o := Run(c1, J1 + E1, env, x, r); o.pc == |c1| || o.pc in J1 + E1
    ensures
      var o := Run(c1, J1 + E1, env, x, r);
      var o2 := Run(c2, J2 + E1 + E2, env, x, r);
      var o2' := Run(c2, J2 + E2, env, o.pc, o.r);
      if o.pc in E1 then o2 == o else o2 == o2' || o2' == Stop(o2.pc, o2.r, false)
  {
    hide Run, Step;
    var P1, P := J1 + E1, J2 + E1 + E2;
    var o := Run(c1, P1, env, x, r);
    assert Continues(c1, P1, c2, P);
    Resume(c1, P1, c2, P, env, x, r);
    if o.pc !in E1 {
      Enter(c2, J1, c1, J2, P, J2 + E2, env, o.pc, o.r);
      RunPending(c2, J2 + E2, env, o.pc, o.r);
    }
  }

  /** Two pieces of code in sequence, as for `and` (b is true) and `or` (b is false):
      the second one runs when the first value is `b`, and decides the value. */
  lemma Sequence(c1: seq<Instr>, J1: set<int>, T1: set<int>, F1: set<int>, s: int, b: bool,
                 c2: seq<Instr>, J2: set<int>, T2: set<int>, F2: set<int>, e2: ExpDesc, base: int,
                 env: Env, x: int, r: Regs, v1: Value, v2: Value)
    requires Pend(c1, J1, T1, F1, s) && 0 <= s && if b then T1 == {} else F1 == {}
    requires Frame(c1, J1, c2, J2, |c1|) && forall p :: p in T2 + F2 + EndStop(Val(e2)) ==> p >= |c1|
    requires Good(c1, J1, T1, F1, Thru(b), base, -1, env, x, r, v1)
    requires
      var o := Run(c1, J1 + T1 + F1, env, x, r);
      Truthy(v1) == b && (o.pc == |c1| || o.pc in J1) ==> Good(c2, J2, T2, F2, Val(e2), base, -1, env, o.pc, o.r, v2)
    ensures Good(c2, J2, T2 + T1, F2 + F1, Val(e2), base, -1, env, x, r, if Truthy(v1) == b then v2 else v1)
  {
    hide Run, Step, Frame, Agree, ValueAt, Paired, Carries;
    var E2 := T2 + F2 + EndStop(Val(e2));
    Unions(J1, T1, F1, {}, {}, {});
    var o := Run(c1, J1 + (T1 + F1), env, x, r);
    SequenceRun(c1, J1, T1 + F1, c2, J2, E2, env, x, r);
    if o.pc in T1 + F1 {
      ExitCase(c1, J1, T1, F1, c2, J2, T2, F2, e2, base, env, x, r, o, v1);
    } else {
      EndCase(c2, J2, T1, F1, T2, F2, e2, base, env, x, r, o.pc, o.r, v2);
    }
  }

  lemma ExitCase(c1: seq<Instr>, J1: set<int>, T1: set<int>, F1: set<int>, c2: seq<Instr>, J2: set<int>, T2: set<int>,
                 F2: set<int>, e2: ExpDesc, base: int, env: Env, x: int, r: Regs, o: Stop, v: Value)
    requires Frame(c1, J1, c2, J2, |c1|) && 0 < o.pc < |c1| && o.pc !in J1 && IsTest(Control(c1, o.pc))
    requires forall j :: j in J1 ==> 0 <= j < |c1| && c1[j].JMP?
    requires Exits(c1, T1, o, v, true) || Exits(c1, F1, o, v, false)
    requires Agree(r, o.r, base, -1)
    requires Run(c2, J2 + (T1 + F1) + (T2 + F2 + EndStop(Val(e2))), env, x, r) == o
    ensures Good(c2, J2, T2 + T1, F2 + F1, Val(e2), base, -1, env, x, r, v)
  {
    hide Run, Step, Agree, ValueAt;
    Unions(J2, T2, F2, T1, F1, EndStop(Val(e2)));
    assert Control(c2, o.pc) == Control(c1, o.pc);
  }

  lemma EndCase(c2: seq<Instr>, J2: set<int>, T1: set<int>, F1: set<int>, T2: set<int>, F2: set<int>,
                e2: ExpDesc, base: int, env: Env, x: int, r: Regs, y: int, r': Regs, v: Value)
    requires Agree(r, r', base, -1) && Good(c2, J2, T2, F2, Val(e2), base, -1, env, y, r', v)
    requires
      var o2 := Run(c2, J2 + (T1 + F1) + (T2 + F2 + EndStop(Val(e2))), env, x, r);
      var o2' := Run(c2, J2 + (T2 + F2 + EndStop(Val(e2))), env, y, r');
      o2 == o2' || o2' == Stop(o2.pc, o2.r, false)
    ensures Good(c2, J2, T2 + T1, F2 + F1, Val(e2), base, -1, env, x, r, v)
  {
    hide Run, Step, ValueAt, Carries;
    Unions(J2, T2, F2, {}, {}, EndStop(Val(e2)));
    Unions(J2, T2, F2, T1, F1, EndStop(Val(e2)));
  }

  lemma Unions(J: set<int>, T: set<int>, F: set<int>, T1: set<int>, F1: set<int>, S: set<int>)
    ensures J + (T + T1) + (F + F1) + S == J + (T1 + F1) + (T + F + S)
    ensures J + T + F + S == J + (T + F + S)
    ensures J + T + F + {} == J + T + F == J + (T + F)
  {
  }

  lemma RunPending(code: seq<Instr>, stops: set<int>, env: Env, pc: int, r: Regs)
    ensures pc in stops ==> Run(code, stops, env, pc, r) == Stop(pc, r, false)
  {
  }

  /** An operand that an instruction can name: a constant or a register. */
  predicate IsOperand(e: ExpDesc) {
    (e.k == VK && 0 <= e.info <= MAXINDEXRK) || (e.k == VNONRELOC && 0 <= e.info < NO_REG)
  }

  function OperandRK(e: ExpDesc): int {
    if e.k == VK then e.info + BITRK else e.info
  }

  /** The code ends with two values available at once. */
  ghost predicate Both(c: seq<Instr>, J: set<int>, e1: ExpDesc, e2: ExpDesc, base: int, env: Env, x: int, r: Regs,
                       v1: Value, v2: Value) {
    var o := Run(c, J, env, x, r);
    && Agree(r, o.r, base, -1)
    && (o.pc == |c| || o.pc in J)
    && !Waits(e1) && ValueAt(c, e1, env, o.r) == v1
    && !Waits(e2) && ValueAt(c, e2, env, o.r) == v2
  }

  /** The first operand is still there after the code for the second one. */
  lemma MakeBoth(c1: seq<Instr>, J1: set<int>, e1: ExpDesc, c2: seq<Instr>, J2: set<int>, e2: ExpDesc, base: int,
                 base2: int, env: Env, x: int, r: Regs, v1: Value, v2: Value)
    requires Paired(c1) && forall p :: p in J1 ==> 0 <= p < |c1| && c1[p].JMP?
    requires Frame(c1, J1, c2, J2, |c1|) && base <= base2 && !Waits(e2)
    requires e1.k == VK || e1.k == VKINT || (e1.k == VNONRELOC && 0 <= e1.info < base2)
    requires Good(c1, J1, {}, {}, Val(e1), base, -1, env, x, r, v1)
    requires
      var o := Run(c1, J1, env, x, r);
      o.pc == |c1| || o.pc in J1 ==> Good(c2, J2, {}, {}, Val(e2), base2, -1, env, o.pc, o.r, v2)
    ensures Both(c2, J2, e1, e2, base, env, x, r, v1, v2)
  {
    hide Run, Step, Frame;
    Unions(J1, {}, {}, {}, {}, {});
    Unions(J2, {}, {}, {}, {}, {});
    assert J1 + {} == J1 && J2 + {} == J2;
    SequenceRun(c1, J1, {}, c2, J2, {}, env, x, r);
    assert J2 + {} + {} == J2;
  }

  lemma BothSwap(c: seq<Instr>, J: set<int>, e1: ExpDesc, e2: ExpDesc, base: int, env: Env, x: int, r: Regs, v1: Value,
                 v2: Value)
    requires Both(c, J, e1, e2, base, env, x, r, v1, v2)
    ensures Both(c, J, e2, e1, base, env, x, r, v2, v1)
  {
  }

  /** What a binary instruction computes from its two operands. */
  function Apply(i: Instr, env: Env, v1: Value, v2: Value): Value {
    match i
    case COMP(op, cond, _, _) => Bool(env.comp(op, v1, v2) == cond)
    case ARITH(op, _, _, _) => env.arith(op, v1, v2)
    case _ => Nil
  }

  lemma EmitBinary(c2: seq<Instr>, J2: set<int>, e1: ExpDesc, e2: ExpDesc, base: int, tail: seq<Instr>, e3: ExpDesc,
                   env: Env, x: int, r: Regs, v1: Value, v2: Value)
    requires Paired(c2) && Jumps(c2, J2) && Both(c2, J2, e1, e2, base, env, x, r, v1, v2)
    requires IsOperand(e1) && IsOperand(e2) && |tail| > 0 && Waits(e3) && Waiting(e3) == |c2|
    requires tail[0].COMP? || tail[0].ARITH?
    requires tail[0].b == OperandRK(e1) && tail[0].c == OperandRK(e2)
    ensures Good(Extended(c2, J2, tail), {}, {}, {}, Val(e3), base, -1, env, x, r, Apply(tail[0], env, v1, v2))
  {
    hide Run, Step, Extended;
    var c3 := Extended(c2, J2, tail);
    EmitPlain(c2, J2, tail, EndStop(Val(e3)), env, x, r);
    RunPending(c3, EndStop(Val(e3)), env, |c2|, Run(c2, J2, env, x, r).r);
    Unions({}, {}, {}, {}, {}, EndStop(Val(e3)));
    NoExits(EndStop(Val(e3)));
  }

  lemma NoExits(S: set<int>)
    ensures {} + {} + {} + S == S
  {
  }

  lemma EmitPlain(c1: seq<Instr>, J: set<int>, tail: seq<Instr>, Q: set<int>, env: Env, x: int, r: Regs)
    requires Paired(c1) && Jumps(c1, J) && |tail| > 0
    requires forall q :: q in Q ==> q >= |c1|
    requires 0 <= Run(c1, J, env, x, r).pc <= |c1|
    ensures
      var o := Run(c1, J, env, x, r);
      Run(Extended(c1, J, tail), Q, env, x, r) == Run(Extended(c1, J, tail), Q, env, |c1|, o.r)
    ensures |Extended(c1, J, tail)| == |c1| + |tail|
    ensures Extended(c1, J, tail)[|c1|..] == tail && Op(Extended(c1, J, tail), |c1|) == tail[0]
  {
    hide Run, Step;
    assert J + {} == J && {} + Q == Q;
    Emit(c1, J, {}, tail, Q, env, x, r);
  }

  /** Where a jump without a value goes when the value is wanted in register `reg`. */
  ghost predicate LoadsBool(code: seq<Instr>, d: int, reg: int, b: bool) {
    && 0 <= d < |code|
    && d == (if b then |code| - 1 else |code| - 2)
    && code[d] == LOADBOOL(reg, b, !b)
  }

  /** Patching the exits on one truth value: they end with the value in `reg`. */
  lemma Settle(c1: seq<Instr>, J: set<int>, T: set<int>, F: set<int>, s: int, b: bool, e: ExpDesc, d: int, base: int,
               dst: int, env: Env, x: int, r: Regs, v: Value)
    requires Pend(c1, J, T, F, s) && 0 <= s && e.k == VNONRELOC && (e.info >= base || e.info == dst) && e.info != NO_REG
    requires Good(c1, J, T, F, Val(e), base, dst, env, x, r, v)
    requires Settles(c1, if b then T else F, J + T + F, b, e.info, d)
    ensures
      var L := if b then T else F;
      Good(Patched(c1, L, |c1|, e.info, d), J, if b then {} else T, if b then F else {},
        Val(e), base, dst, env, x, r, v)
  {
    hide Run, Step, Patched, Settles, Agree, Carries;
    NoExits(J + T + F);
    assert J + T + F + EndStop(Val(e)) == J + T + F;
    if b {
      assert J + {} + F + EndStop(Val(e)) == J + F == J + T + F - T;
      SettleList(c1, J + F, T, J + T + F, b, e, d, base, dst, env, x, r, v, J, F);
    } else {
      assert J + T + {} + EndStop(Val(e)) == J + T == J + T + F - F;
      SettleList(c1, J + T, F, J + T + F, b, e, d, base, dst, env, x, r, v, J, T);
    }
  }

  /** The exits in `L` can be settled: each carries its value in a register or has a
      place to go that loads the boolean. */
  ghost predicate Settles(code: seq<Instr>, L: set<int>, P: set<int>, b: bool, reg: int, d: int) {
    forall p :: p in L ==> Control(code, p).TESTSET? || (p < d && d !in P && LoadsBool(code, d, reg, b))
  }

  lemma SettleList(c1: seq<Instr>, P2: set<int>, L: set<int>, P1: set<int>, b: bool, e: ExpDesc, d: int, base: int,
                   dst: int, env: Env, x: int, r: Regs, v: Value, J: set<int>, M: set<int>)
    requires Paired(c1) && Jumps(c1, L) && Jumps(c1, J)
    requires e.k == VNONRELOC && (e.info >= base || e.info == dst) && e.info != NO_REG
    requires P1 - L == P2 && L <= P1 && Settles(c1, L, P1, b, e.info, d) && L !! J && L !! M
    requires forall p :: p in L + M ==> 0 < p < |c1| && c1[p].JMP? && IsTest(Control(c1, p))
    requires P2 == J + M
    requires
      var o := Run(c1, P1, env, x, r);
      && Agree(r, o.r, base, dst)
      && (Exits(c1, L, o, v, b) || Exits(c1, M, o, v, !b) || ((o.pc == |c1| || o.pc in J) && Get(o.r, e.info) == v))
    ensures
      var c2 := Patched(c1, L, |c1|, e.info, d);
      var o := Run(c2, P2, env, x, r);
      && Agree(r, o.r, base, dst)
      && (Exits(c2, M, o, v, !b) || ((o.pc == |c2| || o.pc in J) && Get(o.r, e.info) == v))
  {
    hide Run, Step, Paired, Patched, Settles;
    var c2 := Patched(c1, L, |c1|, e.info, d);
    var o := Run(c1, P1, env, x, r);
    RunStops(c1, P1, env, x, r);
    PatchRun(c1, L, |c1|, e.info, d, P1, env, x, r);
    PatchedLength(c1, L, |c1|, e.info, d);
    if Exits(c1, L, o, v, b) {
      assert P2 + L == P1;
      SettleRun(c1, P2, L, b, e.info, d, env, o, v);
    } else if Exits(c1, M, o, v, !b) {
      assert o.pc !in L && o.pc - 1 !in L;
      PatchedElse(c1, L, |c1|, e.info, d, o.pc - 1);
    } else {
      RunEnd(c2, P2, env, o.r);
    }
  }

  lemma PatchedLength(c1: seq<Instr>, L: set<int>, vt: int, reg: int, dt: int)
    ensures |Patched(c1, L, vt, reg, dt)| == |c1|
  {
  }

  lemma SettleRun(c1: seq<Instr>, P2: set<int>, L: set<int>, b: bool, reg: int, d: int, env: Env, o: Stop, v: Value)
    requires Jumps(c1, L) && reg != NO_REG && Exits(c1, L, o, v, b)
    requires L !! P2 && Settles(c1, L, P2 + L, b, reg, d)
    ensures
      var c2 := Patched(c1, L, |c1|, reg, d);
      var o2 := Run(c2, P2, env, o.pc, Written(c1, L, o.pc, reg, o.r));
      o2.pc == |c1| && Get(o2.r, reg) == v && (forall q :: q != reg ==> Get(o2.r, q) == Get(o.r, q))
  {
    hide Run, Step, Patched, Jumps;
    var c2 := Patched(c1, L, |c1|, reg, d);
    var r2 := Written(c1, L, o.pc, reg, o.r);
    var p := o.pc;
    assert 0 <= p < |c1| && Op(c1, p) == c1[p] by {
      JumpInBounds(c1, L, p);
    }
    PatchedJump(c1, L, |c1|, reg, d, p);
    if Control(c1, p).TESTSET? {
      RunJump(c2, P2, env, p, r2, |c1| - (p + 1));
      RunEnd(c2, P2, env, r2);
    } else {
      assert p < d && d !in P2 + L && LoadsBool(c1, d, reg, b);
      PatchedElse(c1, L, |c1|, reg, d, d);
      RunJump(c2, P2, env, p, r2, d - (p + 1));
      BoolRun(c2, P2, env, d, reg, b, r2);
    }
  }

  lemma JumpInBounds(code: seq<Instr>, L: set<int>, p: int)
    requires Jumps(code, L) && p in L
    ensures 0 <= p < |code|
  {
  }

  lemma PatchedJump(c1: seq<Instr>, L: set<int>, vt: int, reg: int, dt: int, p: int)
    requires p in L && 0 <= p < |c1|
    ensures
      var c2 := Patched(c1, L, vt, reg, dt);
      |c2| == |c1| && c2[p] == JMP((if Control(c1, p).TESTSET? then vt else dt) - (p + 1))
  {
  }

  lemma PatchedElse(c1: seq<Instr>, L: set<int>, vt: int, reg: int, dt: int, i: int)
    requires i !in L && 0 <= i < |c1| && (i + 1 !in L || !c1[i].TESTSET?)
    ensures Patched(c1, L, vt, reg, dt)[i] == c1[i] && Op(Patched(c1, L, vt, reg, dt), i) == Op(c1, i)
  {
  }

  lemma BoolRun(code: seq<Instr>, stops: set<int>, env: Env, d: int, reg: int, b: bool, r: Regs)
    requires LoadsBool(code, d, reg, b) && d !in stops
    ensures Run(code, stops, env, d, r) == Stop(|code|, r[reg := Bool(b)], false)
  {
  }
}
