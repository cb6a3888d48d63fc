/** The code generator: it writes and patches the code array, and keeps the list of
    jumps to the current position and the first free register. */
module Codegen {
  import opened LuaVM
  import opened JumpLists
  import opened ShortCircuit
  import opened CodegenSteps
  import opened CodegenState
  import opened LogicalExpr

  /** The errors the generator raises. */
  datatype Error = ControlTooLong | TooManyRegisters | TooManyConstants

  datatype Result<T> = Ok(value: T) | Err(error: Error) {
    predicate IsFailure() { Err? }
    function PropagateFailure<U>(): Result<U>
      requires Err?
    {
      Err(error)
    }
    function Extract(): T
      requires Ok?
    {
      value
    }
  }

  /** A finished value: it is in a register and no jump is pending for it. */
  predicate InRegister(e: ExpDesc) {
    e.k == VNONRELOC && e.t == NO_JUMP && e.f == NO_JUMP
  }

  class FuncState {
    var code: seq<Instr>
    var jpc: int
    var freereg: nat
    var maxstack: nat
    var k: seq<Value>
    var h: map<Value, int>
    const nactvar: nat
    const fold: Folder

    ghost predicate Valid()
      reads this
    {
      nactvar <= freereg <= maxstack < MAXREGS && |k| <= MAXARG_AX
    }

    /** The limit that was reached when an error is raised. */
    ghost predicate Limit(error: Error)
      reads this
    {
      match error
      case ControlTooLong => |code| >= MAXARG_SBX
      case TooManyRegisters => freereg + 1 >= MAXREGS
      case TooManyConstants => |k| >= MAXARG_AX
    }

    /** An empty function with `locals` active local variables; `scanner` is the table
        of constant positions, which the scanner shares between functions. */
    constructor (locals: nat, scanner: map<Value, int>, folder: Folder)
      requires locals < MAXREGS
      ensures Ready(code, jpc) && fold == folder
      ensures Valid() && nactvar == freereg == locals && code == [] && jpc == NO_JUMP && k == []
    {
      code, jpc, k, h := [], NO_JUMP, [], scanner;
      nactvar, freereg, maxstack, fold := locals, locals, locals, folder;
      NoJump([]);
    }

    // ---------- jump lists ----------

    method FixJump(pc: int, dest: int) returns (o: Result<()>)
      requires 0 <= pc < |code| && code[pc].JMP? && 0 <= dest <= |code|
      modifies this`code
      ensures o.Err? ==> Limit(o.error)
      ensures o.Ok? ==> code == old(code)[pc := JMP(dest - (pc + 1))]
      ensures o.Err? ==> o.error == ControlTooLong && code == old(code)
      ensures o.Ok? <==> -MAXARG_SBX <= dest - (pc + 1) <= MAXARG_SBX
    {
      var offset := dest - (pc + 1);
      if offset > MAXARG_SBX || offset < -MAXARG_SBX {
        return Err(ControlTooLong);
      }
      code := code[pc := JMP(offset)];
      return Ok(());
    }

    /** Joins two lists of jumps by linking the last jump of the first one. */
    method Concat(l1: int, l2: int) returns (r: Result<int>)
      requires IsList(code, l1) && IsList(code, l2) && JS(code, l1) !! JS(code, l2)
      modifies this`code
      ensures r.Err? ==> Limit(r.error)
      ensures |code| == |old(code)|
      ensures forall i :: 0 <= i < |code| && code[i] != old(code)[i] ==>
        i in JS(old(code), l1) && code[i].JMP? && old(code)[i].JMP?
      ensures r.Ok? ==> IsList(code, r.value) && JS(code, r.value) == JS(old(code), l1) + JS(old(code), l2)
      ensures r.Ok? ==> r.value == if l1 == NO_JUMP then l2 else l1
      ensures l1 == NO_JUMP || l2 == NO_JUMP ==> code == old(code)
    {
      NoJump(code);
      if l2 == NO_JUMP {
        return Ok(l1);
      }
      if l1 == NO_JUMP {
        return Ok(l2);
      }
      hide Chain, IsList, JS;
      var list := l1;
      Head(code, list);
      var next := NextJump(list, code[list].sbx);
      while next != NO_JUMP
        invariant code == old(code) && IsList(code, list) && list != NO_JUMP && list in JS(code, l1)
        invariant JS(code, list) <= JS(code, l1) && 0 <= list < |code| && code[list].JMP?
        invariant next == NextJump(list, code[list].sbx)
        decreases |JS(code, list)|
      {
        Head(code, list);
        assert JS(code, next) < JS(code, list);
        ProperSubset(JS(code, next), JS(code, list));
        list := next;
        Head(code, list);
        next := NextJump(list, code[list].sbx);
      }
      var _ :- FixJump(list, l2);
      Join(old(code), l1, l2, list, code);
      return Ok(l1);
    }

    /** Forgets the register of the TESTSET that controls the jump at `node`, or sets
        it; returns false when no TESTSET controls it. */
    method PatchTestReg(node: int, reg: int) returns (b: bool)
      requires 0 <= node < |code| && code[node].JMP?
      modifies this`code
      ensures b == Control(old(code), node).TESTSET?
      ensures code == if b then old(code)[node - 1 := PatchTest(old(code)[node - 1], reg)] else old(code)
    {
      var i := if node >= 1 && IsTest(code[node - 1]) then node - 1 else node;
      if !code[i].TESTSET? {
        return false;
      }
      if reg != NO_REG && reg != code[i].b {
        code := code[i := TESTSET(reg, code[i].b, code[i].cond)];
      } else {
        code := code[i := TEST(code[i].b, code[i].cond)];
      }
      return true;
    }

    /** No test on the list produces a value any more. */
    method RemoveValues(list0: int)
      requires IsList(code, list0)
      modifies this`code
      ensures code == Demoted(old(code), JS(old(code), list0))
    {
      hide Chain, IsList, JS, Demoted;
      var list := list0;
      ghost var L := JS(code, list0);
      ghost var done: set<int> := {};
      DemotedNone(code);
      while list != NO_JUMP
        invariant IsList(code, list) && JS(code, list) == L - done && done <= L
        invariant code == Demoted(old(code), done)
        decreases |L - done|
      {
        Head(code, list);
        InBounds(code, list);
        ghost var c := code;
        var b := PatchTestReg(list, NO_REG);
        DemotedJumps(old(code), done);
        DemoteStep(old(code), done, list);
        var next := NextJump(list, code[list].sbx);
        ghost var n := JS(c, next);
        InBounds(c, next);
        ListFrame(c, code, next);
        ProperSubset(L - done - {list}, L - done);
        assert L - done - {list} == L - (done + {list});
        done := done + {list};
        list := next;
      }
      NoJump(code);
      assert done == L;
    }

    /** Gives every jump on the list its destination: the ones controlled by a TESTSET
        go to `vt` and leave their value in `reg`, the others go to `dt`. */
    method PatchListAux(list0: int, vt: int, reg: int, dt: int) returns (o: Result<()>)
      requires IsList(code, list0) && 0 <= vt <= |code|
      requires forall p :: p in JS(code, list0) ==> Control(code, p).TESTSET? || 0 <= dt <= |code|
      modifies this`code
      ensures o.Err? ==> Limit(o.error)
      ensures o.Ok? ==> code == Patched(old(code), JS(old(code), list0), vt, reg, dt)
    {
      hide Chain, IsList, JS, Patched;
      var list := list0;
      ghost var L := JS(code, list0);
      ghost var done: set<int> := {};
      InBounds(code, list0);
      PatchedNone(code, vt, reg, dt);
      while list != NO_JUMP
        invariant IsList(code, list) && JS(code, list) == L - done && done <= L
        invariant code == Patched(old(code), done, vt, reg, dt)
        decreases |L - done|
      {
        Head(code, list);
        InBounds(code, list);
        ghost var c := code;
        var next := NextJump(list, code[list].sbx);
        assert list in L && list !in done;
        PatchedControl(old(code), done, vt, reg, dt, list);
        var b := PatchTestReg(list, reg);
        if b {
          var _ :- FixJump(list, vt);
        } else {
          var _ :- FixJump(list, dt);
        }
        PatchOne(old(code), done, vt, reg, dt, list);
        InBounds(c, next);
        ListFrame(c, code, next);
        ProperSubset(L - done - {list}, L - done);
        assert L - done - {list} == L - (done + {list});
        done := done + {list};
        list := next;
      }
      NoJump(code);
      assert done == L;
      return Ok(());
    }

    // ---------- emitting instructions ----------

    /** Sends the jumps to "here" to the current position, without values. */
    method DischargeJpc() returns (o: Result<()>)
      requires IsList(code, jpc)
      modifies this`code, this`jpc
      ensures o.Err? ==> Limit(o.error)
      ensures o.Ok? ==>
        jpc == NO_JUMP && code == Patched(old(code), JS(old(code), old(jpc)), |old(code)|, NO_REG, |old(code)|)
    {
      var _ :- PatchListAux(jpc, |code|, NO_REG, |code|);
      jpc := NO_JUMP;
      return Ok(());
    }

    method Code(i: Instr) returns (r: Result<int>)
      requires IsList(code, jpc)
      modifies this`code, this`jpc
      ensures r.Err? ==> Limit(r.error)
      ensures r.Ok? ==>
        r.value == |old(code)| && jpc == NO_JUMP && code == Extended(old(code), JS(old(code), old(jpc)), [i])
    {
      var _ :- DischargeJpc();
      code := code + [i];
      return Ok(|code| - 1);
    }

    /** A jump without destination; the jumps to "here" join its list. */
    method Jump() returns (r: Result<int>)
      requires IsList(code, jpc)
      modifies this`code, this`jpc
      ensures r.Err? ==> Limit(r.error)
      ensures r.Ok? ==>
        && jpc == NO_JUMP && r.value == |old(code)| && |code| == |old(code)| + 1
        && code[..|old(code)|] == old(code) && code[|old(code)|].JMP?
        && (old(jpc) == NO_JUMP ==> code[|old(code)|] == JMP(NO_JUMP))
        && IsList(code, r.value) && JS(code, r.value) == {|old(code)|} + JS(old(code), old(jpc))
    {
      var saved := jpc;
      jpc := NO_JUMP;
      ghost var c := code;
      code := code + [JMP(NO_JUMP)];
      var j := |code| - 1;
      InBounds(c, saved);
      ListFrame(c, code, saved);
      NewJump(code, j);
      j :- Concat(j, saved);
      NoJump(code);
      return Ok(j);
    }

    /** A test and the jump it controls. */
    method CondJump(i: Instr) returns (r: Result<int>)
      requires IsList(code, jpc)
      modifies this`code, this`jpc
      ensures r.Err? ==> Limit(r.error)
      ensures r.Ok? ==>
        && jpc == NO_JUMP && r.value == |old(code)| + 1
        && code == Extended(old(code), JS(old(code), old(jpc)), [i, JMP(NO_JUMP)])
        && IsList(code, r.value) && JS(code, r.value) == {r.value}
    {
      ghost var c, J := code, JS(code, jpc);
      var _ :- Code(i);
      NoJump(code);
      ghost var c1 := code;
      var j :- Jump();
      assert code == c1 + [JMP(NO_JUMP)];
      ExtendedTwice(c, J, i);
      return Ok(j);
    }

    /** Adds the jumps on a list to the jumps to "here". */
    method PatchToHere(list: int) returns (o: Result<()>)
      requires IsList(code, jpc) && IsList(code, list) && JS(code, jpc) !! JS(code, list)
      modifies this`code, this`jpc
      ensures o.Err? ==> Limit(o.error)
      ensures o.Ok? ==>
        && Relinked(old(code), code, JS(old(code), old(jpc)))
        && IsList(code, jpc) && JS(code, jpc) == JS(old(code), old(jpc)) + JS(old(code), list)
      ensures o.Ok? && old(jpc) == NO_JUMP ==> jpc == list
    {
      NoJump(code);
      jpc :- Concat(jpc, list);
      return Ok(());
    }

    // ---------- registers and constants ----------

    method CheckStack(n: nat) returns (o: Result<()>)
      requires Valid()
      modifies this`maxstack
      ensures old(maxstack) <= maxstack < MAXREGS && (o.Ok? ==> freereg + n <= maxstack)
      ensures o.Err? ==> o.error == TooManyRegisters && freereg + n >= MAXREGS
    {
      var newstack := freereg + n;
      if newstack > maxstack {
        if newstack >= MAXREGS {
          return Err(TooManyRegisters);
        }
        maxstack := newstack;
      }
      return Ok(());
    }

    method ReserveRegs(n: nat) returns (o: Result<()>)
      requires Valid()
      modifies this`maxstack, this`freereg
      ensures Valid() && freereg == if o.Ok? then old(freereg) + n else old(freereg)
      ensures o.Err? ==> o.error == TooManyRegisters && old(freereg) + n >= MAXREGS
    {
      var _ :- CheckStack(n);
      freereg := freereg + n;
      return Ok(());
    }

    /** Frees a register that is neither a constant nor a local variable; it must be
        the last one reserved. */
    method FreeReg(reg: int)
      requires Valid() && (reg < BITRK && reg >= nactvar ==> reg == freereg - 1)
      modifies this`freereg
      ensures Valid() && freereg == if reg < BITRK && reg >= nactvar then old(freereg) - 1 else old(freereg)
    {
      if reg < BITRK && reg >= nactvar {
        freereg := freereg - 1;
      }
    }

    /** Where the value of `e` is, and that it occupies the register `base` if it needs
        a register of its own. */
    ghost predicate RegOk(e: ExpDesc, base: int)
      reads this
    {
      && nactvar <= base
      && (match e.k
          case VLOCAL => 0 <= e.info < nactvar && freereg == base
          case VNONRELOC => (0 <= e.info < nactvar && freereg == base) || (e.info == base && freereg == base + 1)
          case VK => 0 <= e.info < |k| && freereg == base
          case _ => freereg == base)
    }

    method FreeExp(e: ExpDesc, ghost base: int)
      requires Valid() && RegOk(e, base)
      modifies this`freereg
      ensures Valid() && freereg == base
    {
      if e.k == VNONRELOC {
        FreeReg(e.info);
      }
    }

    /** The position of a constant; the scanner's table remembers where it was put, but
        may remember it for another function. */
    method AddK(v: Value) returns (r: Result<int>)
      requires Valid()
      modifies this`k, this`h
      ensures r.Err? ==> Limit(r.error)
      ensures Valid() && old(k) <= k && (r.Ok? ==> 0 <= r.value < |k| && k[r.value] == v)
      ensures r.Err? ==> r.error == TooManyConstants && |k| >= MAXARG_AX
    {
      if v in h {
        var i := h[v];
        if 0 <= i < |k| && k[i] == v {
          return Ok(i);
        }
      }
      h := h[v := |k|];
      if |k| >= MAXARG_AX {
        return Err(TooManyConstants);
      }
      k := k + [v];
      return Ok(|k| - 1);
    }

    // ---------- discharging an expression ----------

    /** Ensures that `e` is not a variable. */
    method DischargeVars(e: ExpDesc, ghost s: int, ghost base: int) returns (r: Result<ExpDesc>)
      requires Valid() && ExpState(code, jpc, e, s)
      modifies this`code, this`jpc
      ensures r.Err? ==> Limit(r.error)
      ensures r.Ok? ==>
        && Became(old(code), old(jpc), e, code, jpc, r.value, s, base, -1, k)
        && (RegOk(e, base) ==> RegOk(r.value, base)) && r.value.k != VLOCAL && r.value.k != VUPVAL
        && r.value.t == e.t && r.value.f == e.f && (r.value.k == VJMP <==> e.k == VJMP)
        && (r.value.k == VK ==> r.value == e)
      ensures r.Ok? && e.k != VLOCAL && e.k != VUPVAL ==> r.value == e && code == old(code) && jpc == old(jpc)
    {
      hide Became, ExpState;
      if e.k == VLOCAL {
        StepSame(code, jpc, e, e.(k := VNONRELOC), s, base, k);
        return Ok(e.(k := VNONRELOC));
      }
      if e.k == VUPVAL {
        StateLists(code, jpc, e, s);
        StepUpvalue(code, jpc, e, s, base, k);
        var pc :- Code(GETUPVAL(0, e.info));
        return Ok(e.(k := VRELOCABLE, info := pc));
      }
      StepSame(code, jpc, e, e, s, base, k);
      return Ok(e);
    }

    /** Loads constant `idx`, with an extra argument when the index is large. */
    method CodeK(reg: int, idx: int, ghost e: ExpDesc) returns (r: Result<()>)
      requires IsList(code, jpc) && 0 <= idx < |k| && e.k == VK && e.info == idx
      modifies this`code, this`jpc
      ensures r.Err? ==> Limit(r.error)
      ensures r.Ok? ==>
        jpc == NO_JUMP && exists tail ::
          Loads(tail, e, reg) && code == Extended(old(code), JS(old(code), old(jpc)), tail)
    {
      ghost var c, J := code, JS(code, jpc);
      if idx <= MAXARG_BX {
        var _ :- Code(LOADK(reg, idx));
        assert Loads([LOADK(reg, idx)], e, reg);
      } else {
        var _ :- Code(LOADKX(reg));
        NoJump(code);
        ghost var c1 := code;
        var _ :- Code(EXTRAARG(idx));
        ExtendedNone(c1, [EXTRAARG(idx)]);
        assert code == Extended(c, J, [LOADKX(reg), EXTRAARG(idx)]);
        assert Loads([LOADKX(reg), EXTRAARG(idx)], e, reg);
      }
      return Ok(());
    }

    /** Loads an integer constant into a register. */
    method LoadInt(e: ExpDesc, reg: int, ghost s: int, ghost base: int, ghost dst: int) returns (r: Result<()>)
      requires Valid() && ExpState(code, jpc, e, s) && (reg >= base || reg == dst) && 0 <= reg
        && (dst == -1 || dst == reg)
      requires e.k == VKINT
      modifies this`code, this`jpc, this`k, this`h
      ensures r.Err? ==> Limit(r.error)
      ensures Valid() && old(k) <= k
      ensures r.Ok? ==> Became(old(code), old(jpc), e, code, jpc, e.(k := VNONRELOC, info := reg), s, base, dst, k)
    {
      hide Became, ExpState, Extended, Loads;
      StateLists(code, jpc, e, s);
      var idx :- AddK(Int(e.ival));
      ghost var c, j := code, jpc;
      ghost var e1 := e.(k := VK, info := idx);
      StepSame(c, j, e, e1, s, base, k);
      BecameState(c, j, e, c, j, e1, s, base, -1, k);
      var _ :- CodeK(reg, idx, e1);
      ghost var tail :| Loads(tail, e1, reg) && code == Extended(c, JS(c, j), tail);
      StepLoad(c, j, e1, s, base, dst, tail, e.(k := VNONRELOC, info := reg), k);
      BecameTrans(c, j, e, c, j, e1, k, code, jpc, e.(k := VNONRELOC, info := reg), s, base, dst, k);
      return Ok(());
    }

    /** Puts a value that is not a variable in register `reg`; a comparison stays a jump. */
    method LoadReg(e0: ExpDesc, reg: int, ghost s: int, ghost base: int, ghost dst: int) returns (r: Result<ExpDesc>)
      requires Valid() && ExpState(code, jpc, e0, s) && (reg >= base || reg == dst) && 0 <= reg
        && (dst == -1 || dst == reg)
      requires e0.k != VLOCAL && e0.k != VUPVAL && (e0.k == VK ==> 0 <= e0.info < |k|)
      modifies this`code, this`jpc, this`k, this`h
      ensures r.Err? ==> Limit(r.error)
      ensures Valid() && old(k) <= k
      ensures r.Ok? ==>
        && Became(old(code), old(jpc), e0, code, jpc, r.value, s, base, dst, k)
        && r.value.t == e0.t && r.value.f == e0.f
        && if e0.k == VJMP then r.value == e0 else r.value.k == VNONRELOC && r.value.info == reg
    {
      hide Became, ExpState, Extended, Loads;
      var e := e0;
      StateLists(code, jpc, e, s);
      match e.k {
        case VNIL =>
          LoadsOne(e, reg, LOADNIL(reg));
          StepLoad(code, jpc, e, s, base, dst, [LOADNIL(reg)], e.(k := VNONRELOC, info := reg), k);
          var _ :- Code(LOADNIL(reg));
        case VFALSE =>
          LoadsOne(e, reg, LOADBOOL(reg, false, false));
          StepLoad(code, jpc, e, s, base, dst, [LOADBOOL(reg, false, false)], e.(k := VNONRELOC, info := reg), k);
          var _ :- Code(LOADBOOL(reg, false, false));
        case VTRUE =>
          LoadsOne(e, reg, LOADBOOL(reg, true, false));
          StepLoad(code, jpc, e, s, base, dst, [LOADBOOL(reg, true, false)], e.(k := VNONRELOC, info := reg), k);
          var _ :- Code(LOADBOOL(reg, true, false));
        case VK =>
          ghost var c, j := code, jpc;
          var _ :- CodeK(reg, e.info, e);
          ghost var tail :| Loads(tail, e, reg) && code == Extended(c, JS(c, j), tail);
          StepLoad(c, j, e, s, base, dst, tail, e.(k := VNONRELOC, info := reg), k);
        case VKINT =>
          var _ :- LoadInt(e, reg, s, base, dst);
        case VRELOCABLE =>
          StateWaits(code, jpc, e, s);
          StepSetRegister(code, e, s, base, dst, e.(k := VNONRELOC, info := reg), k);
          code := code[e.info := SetA(code[e.info], reg)];
        case VNONRELOC =>
          if reg != e.info {
            LoadsOne(e, reg, MOVE(reg, e.info));
            StepLoad(code, jpc, e, s, base, dst, [MOVE(reg, e.info)], e.(k := VNONRELOC, info := reg), k);
            var _ :- Code(MOVE(reg, e.info));
          } else {
            StepSameDst(code, jpc, e, e, s, base, dst, k);
          }
        case VJMP =>
          StepSameDst(code, jpc, e, e, s, base, dst, k);
          return Ok(e);
        case _ =>
          assert false;
      }
      return Ok(e.(k := VNONRELOC, info := reg));
    }

    /** Ensures that the value of `e` is in register `reg`; a comparison stays a jump. */
    method Discharge2Reg(e0: ExpDesc, reg: int, ghost s: int, ghost base: int, ghost dst: int)
      returns (r: Result<ExpDesc>)
      requires Valid() && ExpState(code, jpc, e0, s) && (reg >= base || reg == dst) && 0 <= reg
        && (dst == -1 || dst == reg)
      requires e0.k == VK ==> 0 <= e0.info < |k|
      modifies this`code, this`jpc, this`k, this`h
      ensures r.Err? ==> Limit(r.error)
      ensures Valid() && old(k) <= k
      ensures r.Ok? ==>
        && Became(old(code), old(jpc), e0, code, jpc, r.value, s, base, dst, k)
        && r.value.t == e0.t && r.value.f == e0.f
        && if e0.k == VJMP then r.value == e0 else r.value.k == VNONRELOC && r.value.info == reg
    {
      hide Became, ExpState;
      var e :- DischargeVars(e0, s, base);
      ghost var c, j, k0 := code, jpc, k;
      BecameState(old(code), old(jpc), e0, c, j, e, s, base, -1, k0);
      r := LoadReg(e, reg, s, base, dst);
      if r.Ok? {
        BecameTrans(old(code), old(jpc), e0, c, j, e, k0, code, jpc, r.value, s, base, dst, k);
      }
    }

    method Discharge2AnyReg(e: ExpDesc, ghost s: int, ghost base: int) returns (r: Result<ExpDesc>)
      requires Valid() && ExpState(code, jpc, e, s) && RegOk(e, base) && e.k != VJMP
      modifies this
      ensures r.Err? ==> Limit(r.error)
      ensures Valid() && old(k) <= k
      ensures r.Ok? ==>
        && Became(old(code), old(jpc), e, code, jpc, r.value, s, base, -1, k)
        && RegOk(r.value, base) && r.value.k == VNONRELOC && r.value.t == e.t && r.value.f == e.f
    {
      hide Became, ExpState;
      if e.k != VNONRELOC {
        var _ :- ReserveRegs(1);
        r := Discharge2Reg(e, freereg - 1, s, base, -1);
      } else {
        StepSame(code, jpc, e, e, s, base, k);
        r := Ok(e);
      }
    }

    /** Whether the list has a jump that produces no value. */
    method NeedValue(list0: int) returns (b: bool)
      requires IsList(code, list0)
      ensures b == NeedsLoad(code, JS(code, list0))
    {
      hide IsList, JS, Chain;
      var list := list0;
      ghost var L := JS(code, list0);
      while list != NO_JUMP
        invariant IsList(code, list) && JS(code, list) <= L
        invariant forall p :: p in L && p !in JS(code, list) ==> Control(code, p).TESTSET?
        decreases |JS(code, list)|
      {
        Head(code, list);
        var i := if list >= 1 && IsTest(code[list - 1]) then code[list - 1] else code[list];
        if !i.TESTSET? {
          assert !Control(code, list).TESTSET?;
          return true;
        }
        ghost var next := NextJump(list, code[list].sbx);
        ProperSubset(JS(code, next), JS(code, list));
        list := NextJump(list, code[list].sbx);
      }
      NoJump(code);
      return false;
    }

    /** Adds the two instructions that load a boolean; a value that is already in its
        register jumps over them. */
    method CodeLoadBools(e: ExpDesc, reg: int, ghost s: int, ghost base: int, ghost dst: int) returns (r: Result<()>)
      requires Valid() && ExpState(code, jpc, e, s) && (reg >= base || reg == dst)
      requires (e.k == VNONRELOC && e.info == reg) || (e.k == VFALSE && jpc == NO_JUMP)
      modifies this`code, this`jpc
      ensures r.Err? ==> Limit(r.error)
      ensures r.Ok? ==>
        && Settled(old(code), old(jpc), e, code, jpc, e.(k := VNONRELOC, info := reg), s, base, dst, k)
        && |code| == |old(code)| + (if e.k == VNONRELOC then 3 else 2) && code[|code| - 2..] == BoolTail(reg)
        && JS(code, e.t) == JS(old(code), e.t) && JS(code, e.f) == JS(old(code), e.f)
        && (forall p :: p in JS(code, jpc) || p in JS(code, e.t) || p in JS(code, e.f) ==> p < |code| - 2)
    {
      hide Settled, ExpState, Patched, JS, IsList, Extended;
      ghost var c0, j0 := code, jpc;
      StateBounds(code, jpc, e, s);
      NoJump(code);
      var fj := NO_JUMP;
      if e.k == VNONRELOC {
        fj :- Jump();
      }
      ghost var c1 := code;
      NoJump(c1);
      var _ :- Code(LOADBOOL(reg, false, true));
      ExtendedNone(c1, [LOADBOOL(reg, false, true)]);
      ghost var c2 := code;
      NoJump(c2);
      var _ :- Code(LOADBOOL(reg, true, false));
      ExtendedNone(c2, [LOADBOOL(reg, true, false)]);
      assert code == c1 + BoolTail(reg);
      NoJump(code);
      ListAppend(c1, BoolTail(reg), fj);
      var _ :- PatchToHere(fj);
      assert code == c1 + BoolTail(reg) by {
        assert JS(c1 + BoolTail(reg), NO_JUMP) == {};
        RelinkedNone(c1 + BoolTail(reg), code);
      }
      if e.k == VNONRELOC {
        assert c1[..|c0|] == c0;
        assert code == c0 + ([c1[|c0|]] + BoolTail(reg));
        StepHold(c0, j0, e, s, base, dst, c1[|c0|].sbx, jpc, code, k);
        assert e.(k := VNONRELOC, info := reg) == e;
      } else {
        StepSkip(c0, e, s, base, dst, e.(k := VNONRELOC, info := reg), k);
      }
      assert code == c0 + code[|c0|..];
      ListAppend(c0, code[|c0|..], e.t);
      ListAppend(c0, code[|c0|..], e.f);
      return Ok(());
    }

    /** Patches the jumps of both lists: the ones with a value put it in `reg` and jump
        to the end, the others jump to a load of their boolean, at `pf` or `pt`. */
    method PatchExits(e: ExpDesc, pf: int, pt: int, ghost s: int, ghost base: int, ghost dst: int)
      returns (r: Result<ExpDesc>)
      requires Valid() && ExpState(code, jpc, e, s) && e.k == VNONRELOC && (e.info >= base || e.info == dst)
        && e.info != NO_REG
      requires Settles(code, JS(code, e.f), JS(code, jpc) + JS(code, e.t) + JS(code, e.f), false, e.info, pf)
      requires Settles(code, JS(code, e.t), JS(code, jpc) + JS(code, e.t) + JS(code, e.f), true, e.info, pt)
      modifies this`code
      ensures r.Err? ==> Limit(r.error)
      ensures r.Ok? ==>
        && r.value == e.(t := NO_JUMP, f := NO_JUMP)
        && Settled(old(code), jpc, e, code, jpc, r.value, s, base, dst, k)
        && SameLoads(old(code), code)
    {
      hide Settled, ExpState, Patched, JS, IsList, Settles, SameLoads;
      ghost var c0 := code;
      var final := |code|;
      StateLists(code, jpc, e, s);
      var e1 := e.(f := NO_JUMP);
      StepSettle(code, jpc, e, s, base, dst, false, pf, k);
      SettlesTarget(code, JS(code, e.f), JS(code, jpc) + JS(code, e.t) + JS(code, e.f), false, e.info, pf);
      var _ :- PatchListAux(e.f, final, e.info, pf);
      ghost var c1 := code;
      PatchedLength(c0, JS(c0, e.f), final, e.info, pf);
      NoJump(c1);
      StateTested(c0, jpc, e, s);
      PatchedLoads(c0, JS(c0, e.f), final, e.info, pf);
      SettlesAfter(c0, JS(c0, jpc), JS(c0, e.t), JS(c0, e.f), e.info, pf, pt);
      SettledState(c0, jpc, e, c1, jpc, e1, s, base, dst, k);
      StateLists(c1, jpc, e1, s);
      StepSettle(c1, jpc, e1, s, base, dst, true, pt, k);
      SettlesTarget(c1, JS(c1, e1.t), JS(c1, jpc) + JS(c1, e1.t) + JS(c1, e1.f), true, e.info, pt);
      var _ :- PatchListAux(e1.t, final, e.info, pt);
      StateTested(c1, jpc, e1, s);
      PatchedLoads(c1, JS(c1, e1.t), final, e.info, pt);
      SameLoadsTrans(c0, c1, code);
      SettledTrans(c0, jpc, e, c1, jpc, e1, code, jpc, e1.(t := NO_JUMP), s, base, dst, k);
      return Ok(e1.(t := NO_JUMP));
    }

    /** The part of Exp2Reg after the main value: `e` is in its register, or it is a
        comparison whose jump was put on the true list. */
    method Exp2RegExits(e: ExpDesc, reg: int, ghost s: int, ghost base: int, ghost dst: int)
      returns (r: Result<ExpDesc>)
      requires Valid() && ExpState(code, jpc, e, s) && (reg >= base || reg == dst) && reg != NO_REG
      requires (e.k == VNONRELOC && e.info == reg)
        || (e.k == VFALSE && jpc == NO_JUMP && NeedsLoad(code, JS(code, e.t)))
      modifies this`code, this`jpc
      ensures r.Err? ==> Limit(r.error)
      ensures r.Ok? ==>
        && Settled(old(code), old(jpc), e, code, jpc, r.value, s, base, dst, k)
        && r.value.k == VNONRELOC && r.value.info == reg && r.value.t == NO_JUMP && r.value.f == NO_JUMP
      ensures r.Ok? ==>
        if NeedsLoad(old(code), JS(old(code), e.t)) || NeedsLoad(old(code), JS(old(code), e.f)) then
          |code| == |old(code)| + (if e.k == VNONRELOC then 3 else 2) && code[|code| - 2..] == BoolTail(reg)
        else |code| == |old(code)|
    {
      hide Settled, ExpState, Patched, JS, IsList, Settles, NeedsLoad, SameLoads;
      ghost var c0, j0 := code, jpc;
      StateLists(code, jpc, e, s);
      HasJumps(code, jpc, e, s);
      var e2 := e.(k := VNONRELOC, info := reg);
      var nt := NeedValue(e.t);
      var nf := NeedValue(e.f);
      SettledSame(c0, j0, e, s, base, dst, k);
      if e.t != e.f {
        var pf, pt := NO_JUMP, NO_JUMP;
        if nt || nf {
          var _ :- CodeLoadBools(e, reg, s, base, dst);
          pf, pt := |code| - 2, |code| - 1;
          ghost var P := JS(code, jpc) + JS(code, e.t) + JS(code, e.f);
          SettlesBool(c0, reg, code, JS(code, e.f), P, false);
          SettlesBool(c0, reg, code, JS(code, e.t), P, true);
        } else {
          NoLoadSettles(code, JS(code, e.f), JS(code, jpc) + JS(code, e.t) + JS(code, e.f), false, reg, pf);
          NoLoadSettles(code, JS(code, e.t), JS(code, jpc) + JS(code, e.t) + JS(code, e.f), true, reg, pt);
        }
        ghost var c1, j1 := code, jpc;
        SettledState(c0, j0, e, c1, j1, e2, s, base, dst, k);
        r := PatchExits(e2, pf, pt, s, base, dst);
        if r.Ok? {
          SameLoadsTail(c1, code, reg);
          SettledTrans(c0, j0, e, c1, j1, e2, code, jpc, r.value, s, base, dst, k);
        }
        return;
      }
      return Ok(e2);
    }

    /** Ensures that the final value of `e`, with the values from its jump lists, is in
        register `reg`. */
    method Exp2Reg(e0: ExpDesc, reg: int, ghost s: int, ghost base: int, ghost dst: int) returns (r: Result<ExpDesc>)
      requires Valid() && ExpState(code, jpc, e0, s) && (reg >= base || reg == dst) && 0 <= reg < NO_REG
        && (dst == -1 || dst == reg)
      requires e0.k == VK ==> 0 <= e0.info < |k|
      modifies this`code, this`jpc, this`k, this`h
      ensures r.Err? ==> Limit(r.error)
      ensures Valid() && old(k) <= k
      ensures r.Ok? ==>
        && Became(old(code), old(jpc), e0, code, jpc, r.value, s, base, dst, k)
        && r.value.k == VNONRELOC && r.value.info == reg && r.value.t == NO_JUMP && r.value.f == NO_JUMP
    {
      hide Became, Settled, ExpState, Patched, JS, IsList, Settles, NeedsLoad;
      var e :- Discharge2Reg(e0, reg, s, base, dst);
      BecameState(old(code), old(jpc), e0, code, jpc, e, s, base, dst, k);
      if e.k == VJMP {
        ghost var c1 := code;
        StateWaits(code, jpc, e, s);
        StateLists(code, jpc, e, s);
        StateJump(code, e, s);
        var t :- Concat(e.t, e.info);
        StepClose(c1, e, s, base, dst, code, t, k);
        ghost var e1 := e;
        e := e.(k := VFALSE, t := t);
        RelinkedControl(c1, code, JS(c1, e1.t), e1.info);
        Then(old(code), old(jpc), e0, c1, NO_JUMP, e1, code, NO_JUMP, e, s, base, dst, k);
        BecameState(old(code), old(jpc), e0, code, jpc, e, s, base, dst, k);
      }
      ghost var c2, j2 := code, jpc;
      r := Exp2RegExits(e, reg, s, base, dst);
      if r.Ok? {
        Then(old(code), old(jpc), e0, c2, j2, e, code, jpc, r.value, s, base, dst, k);
      }
    }

    // ---------- expressions in registers and operands ----------

    /** Ensures that the final value of `e` is in the next free register. */
    method Exp2NextReg(e0: ExpDesc, ghost s: int, ghost base: int) returns (r: Result<ExpDesc>)
      requires Valid() && ExpState(code, jpc, e0, s) && RegOk(e0, base)
      modifies this
      ensures r.Err? ==> Limit(r.error)
      ensures Valid() && old(k) <= k
      ensures r.Ok? ==>
        && Became(old(code), old(jpc), e0, code, jpc, r.value, s, base, -1, k)
        && RegOk(r.value, base) && InRegister(r.value) && r.value.info == base
    {
      hide Became, ExpState;
      var e :- DischargeVars(e0, s, base);
      ghost var c1, j1, k1 := code, jpc, k;
      BecameState(old(code), old(jpc), e0, c1, j1, e, s, base, -1, k1);
      FreeExp(e, base);
      var _ :- ReserveRegs(1);
      r := Exp2Reg(e, freereg - 1, s, base, -1);
      if r.Ok? {
        BecameTrans(old(code), old(jpc), e0, c1, j1, e, k1, code, jpc, r.value, s, base, -1, k);
      }
    }

    /** Ensures that the final value of `e` is in some register. */
    method Exp2AnyReg(e0: ExpDesc, ghost s: int, ghost base: int) returns (r: Result<ExpDesc>)
      requires Valid() && ExpState(code, jpc, e0, s) && RegOk(e0, base)
      modifies this
      ensures r.Err? ==> Limit(r.error)
      ensures Valid() && old(k) <= k
      ensures r.Ok? ==>
        && Became(old(code), old(jpc), e0, code, jpc, r.value, s, base, -1, k)
        && RegOk(r.value, base) && InRegister(r.value)
    {
      hide Became, ExpState;
      var e :- DischargeVars(e0, s, base);
      ghost var c1, j1, k1 := code, jpc, k;
      BecameState(old(code), old(jpc), e0, c1, j1, e, s, base, -1, k1);
      HasJumps(code, jpc, e, s);
      if e.k == VNONRELOC {
        if e.t == e.f {
          return Ok(e);
        }
        if e.info >= nactvar {
          r := Exp2Reg(e, e.info, s, base, -1);
          if r.Ok? {
            BecameTrans(old(code), old(jpc), e0, c1, j1, e, k1, code, jpc, r.value, s, base, -1, k);
          }
          return;
        }
      }
      r := Exp2NextReg(e, s, base);
      if r.Ok? {
        BecameTrans(old(code), old(jpc), e0, c1, j1, e, k1, code, jpc, r.value, s, base, -1, k);
      }
    }

    /** Ensures that the final value of `e` has no pending jumps. */
    method Exp2Val(e: ExpDesc, ghost s: int, ghost base: int) returns (r: Result<ExpDesc>)
      requires Valid() && ExpState(code, jpc, e, s) && RegOk(e, base)
      modifies this
      ensures r.Err? ==> Limit(r.error)
      ensures Valid() && old(k) <= k
      ensures r.Ok? ==>
        && Became(old(code), old(jpc), e, code, jpc, r.value, s, base, -1, k)
        && RegOk(r.value, base) && r.value.t == NO_JUMP && r.value.f == NO_JUMP
        && r.value.k != VLOCAL && r.value.k != VUPVAL
    {
      hide Became, ExpState;
      HasJumps(code, jpc, e, s);
      if e.t != e.f {
        r := Exp2AnyReg(e, s, base);
      } else {
        r := DischargeVars(e, s, base);
      }
    }

    /** Ensures that `e` is an operand, a register or a constant with a small index. */
    method Exp2RK(e0: ExpDesc, ghost s: int, ghost base: int) returns (r: Result<ExpDesc>)
      requires Valid() && ExpState(code, jpc, e0, s) && RegOk(e0, base)
      modifies this
      ensures r.Err? ==> Limit(r.error)
      ensures Valid() && old(k) <= k
      ensures r.Ok? ==>
        && Became(old(code), old(jpc), e0, code, jpc, r.value, s, base, -1, k)
        && RegOk(r.value, base) && IsOperand(r.value) && r.value.t == NO_JUMP && r.value.f == NO_JUMP
    {
      hide Became, ExpState;
      var e :- Exp2Val(e0, s, base);
      ghost var c1, j1, k1, e1 := code, jpc, k, e;
      BecameState(old(code), old(jpc), e0, c1, j1, e1, s, base, -1, k1);
      if e.k == VTRUE || e.k == VFALSE || e.k == VNIL || e.k == VKINT {
        var idx :- AddK(
          if e.k == VTRUE then Bool(true) else if e.k == VFALSE then Bool(false) else if e.k == VNIL then Nil
          else Int(e.ival));
        e := e.(k := VK, info := idx);
        StepSame(c1, j1, e1, e, s, base, k);
        BecameTrans(old(code), old(jpc), e0, c1, j1, e1, k1, c1, j1, e, s, base, -1, k);
        BecameState(old(code), old(jpc), e0, c1, j1, e, s, base, -1, k);
      }
      if e.k == VK && e.info <= MAXINDEXRK {
        return Ok(e);
      }
      ghost var k2 := k;
      r := Exp2AnyReg(e, s, base);
      if r.Ok? {
        BecameTrans(old(code), old(jpc), e0, c1, j1, e, k2, code, jpc, r.value, s, base, -1, k);
      }
    }

    // ---------- short circuits ----------

    /** Negates the comparison `e`. */
    method NegateCondition(e: ExpDesc)
      requires IsCondJump(code, e)
      modifies this`code
      ensures code == old(code)[e.info - 1 := Flip(old(code)[e.info - 1])]
    {
      var i := code[e.info - 1];
      code := code[e.info - 1 := COMP(i.op, !i.cond, i.b, i.c)];
    }

    /** Jumps if `e` is `cond`. A negation at the end of the code is removed and the
        test inverted. */
    method JumpOnCond(e: ExpDesc, cond: bool, ghost s: int, ghost base: int) returns (r: Result<int>)
      requires Valid() && ExpState(code, jpc, e, s) && RegOk(e, base) && e.k != VJMP && e.k != VLOCAL && e.k != VUPVAL
      modifies this
      ensures r.Err? ==> Limit(r.error)
      ensures Valid() && old(k) <= k
      ensures r.Ok? ==>
        && Branched(old(code), old(jpc), e, code, jpc, e.t, e.f, r.value, !cond, s, base, k)
        && freereg == base
    {
      hide Became, ExpState, Branched, Extended;
      if e.k == VRELOCABLE {
        StateWaits(code, jpc, e, s);
        var ie := code[e.info];
        if ie.NOT? {
          StepNotTestJump(code, e, cond, s, base, k);
          code := code[..|code| - 1];
          NoJump(code);
          ExtendedNone(code, [TEST(ie.b, !cond), JMP(NO_JUMP)]);
          r := CondJump(TEST(ie.b, !cond));
          return;
        }
      }
      var e1 :- Discharge2AnyReg(e, s, base);
      BecameState(old(code), old(jpc), e, code, jpc, e1, s, base, -1, k);
      ghost var c1, j1 := code, jpc;
      FreeExp(e1, base);
      StateLists(code, jpc, e1, s);
      StepTestJump(code, jpc, e1, cond, s, base, k);
      r := CondJump(TESTSET(NO_REG, e1.info, cond));
      if r.Ok? {
        BecameBranched(old(code), old(jpc), e, c1, j1, e1, code, jpc, e.t, e.f, r.value, !cond, s, base, k);
      }
    }

    /** Puts the new jump on the list of exits on the other value, and sends the exits
        on `b` to "here". */
    method GoOn(t: int, f: int, pc: int, b: bool, ghost c0: seq<Instr>, ghost j0: int, ghost e0: ExpDesc, ghost s: int,
                ghost base: int)
      returns (r: Result<int>)
      requires Jumps(c0, JS(c0, j0)) && Branched(c0, j0, e0, code, jpc, t, f, pc, b, s, base, k)
      modifies this`code, this`jpc
      ensures r.Err? ==> Limit(r.error)
      ensures r.Ok? ==>
        GoesOn(c0, j0, e0, code, jpc, if b then NO_JUMP else r.value, if b then r.value else NO_JUMP, b, s, base, k)
    {
      hide Branched, GoesOn, JS, IsList, Relinked;
      ghost var c1, j1 := code, jpc;
      BranchedLists(c0, j0, e0, c1, j1, t, f, pc, b, s, base, k);
      ghost var L, M := JS(c1, if b then f else t), JS(c1, if b then t else f);
      var list :- Concat(if b then f else t, pc);
      ghost var c2 := code;
      RelinkedBy(c1, c2, L);
      RelinkList(c1, c2, L, j1);
      RelinkList(c1, c2, L, if b then t else f);
      var _ :- PatchToHere(if b then t else f);
      RelinkList(c2, code, JS(c1, j1), list);
      StepGoOn(c0, j0, e0, c1, j1, t, f, pc, b, c2, list, code, jpc, s, base, k);
      return Ok(list);
    }

    /** Goes on if `e` is true, jumps otherwise. */
    method GoIfTrue(e0: ExpDesc, ghost s: int, ghost base: int) returns (r: Result<ExpDesc>)
      requires Valid() && ExpState(code, jpc, e0, s) && RegOk(e0, base) && TrueConstants(k, e0)
      modifies this
      ensures r.Err? ==> Limit(r.error)
      ensures Valid() && old(k) <= k
      ensures r.Ok? ==>
        && GoesOn(old(code), old(jpc), e0, code, jpc, r.value.t, r.value.f, true, s, base, k)
        && r.value.t == NO_JUMP && freereg == base
    {
      hide Became, ExpState, Branched, GoesOn, Pend, Frame, JS, IsList;
      var e :- DischargeVars(e0, s, base);
      ghost var c1, j1, k1 := code, jpc, k;
      BecameState(old(code), old(jpc), e0, c1, j1, e, s, base, -1, k1);
      var pc := NO_JUMP;
      if e.k == VJMP {
        StateWaits(code, jpc, e, s);
        StepCompare(code, e, true, s, base, k);
        NegateCondition(e);
        pc := e.info;
      } else if e.k == VK || e.k == VKINT || e.k == VTRUE {
        StepConstant(code, jpc, e, true, s, base, k);
      } else {
        pc :- JumpOnCond(e, false, s, base);
      }
      BecameBranched(old(code), old(jpc), e0, c1, j1, e, code, jpc, e.t, e.f, pc, true, s, base, k);
      StateTested(old(code), old(jpc), e0, s);
      var f :- GoOn(e.t, e.f, pc, true, old(code), old(jpc), e0, s, base);
      return Ok(e.(t := NO_JUMP, f := f));
    }

    /** Goes on if `e` is false, jumps otherwise. */
    method GoIfFalse(e0: ExpDesc, ghost s: int, ghost base: int) returns (r: Result<ExpDesc>)
      requires Valid() && ExpState(code, jpc, e0, s) && RegOk(e0, base)
      modifies this
      ensures r.Err? ==> Limit(r.error)
      ensures Valid() && old(k) <= k
      ensures r.Ok? ==>
        && GoesOn(old(code), old(jpc), e0, code, jpc, r.value.t, r.value.f, false, s, base, k)
        && r.value.f == NO_JUMP && freereg == base
    {
      hide Became, ExpState, Branched, GoesOn, Pend, Frame, JS, IsList;
      var e :- DischargeVars(e0, s, base);
      ghost var c1, j1, k1 := code, jpc, k;
      BecameState(old(code), old(jpc), e0, c1, j1, e, s, base, -1, k1);
      var pc := NO_JUMP;
      if e.k == VJMP {
        StateWaits(code, jpc, e, s);
        StepCompare(code, e, false, s, base, k);
        pc := e.info;
      } else if e.k == VNIL || e.k == VFALSE {
        StepConstant(code, jpc, e, false, s, base, k);
      } else {
        pc :- JumpOnCond(e, true, s, base);
      }
      BecameBranched(old(code), old(jpc), e0, c1, j1, e, code, jpc, e.t, e.f, pc, false, s, base, k);
      StateTested(old(code), old(jpc), e0, s);
      var t :- GoOn(e.t, e.f, pc, false, old(code), old(jpc), e0, s, base);
      return Ok(e.(f := NO_JUMP, t := t));
    }

    // ---------- operators ----------

    /** Negates the main value of `e`: folds a constant, inverts a comparison, or emits
        an OP_NOT. */
    method NegateMain(e: ExpDesc, ghost s: int, ghost base: int) returns (r: Result<ExpDesc>)
      requires Valid() && ExpState(code, jpc, e, s) && RegOk(e, base) && TrueConstants(k, e)
      requires e.k != VLOCAL && e.k != VUPVAL
      modifies this
      ensures r.Err? ==> Limit(r.error)
      ensures Valid() && old(k) <= k
      ensures r.Ok? ==>
        && NegatesMain(old(code), old(jpc), e, code, jpc, r.value, s, base, k)
        && RegOk(r.value, base) && r.value.k != VK
    {
      hide Became, ExpState, NegatesMain, Extended;
      match e.k {
        case VNIL | VFALSE =>
          StepNotConstant(code, jpc, e, false, s, base, k);
          return Ok(e.(k := VTRUE));
        case VK | VKINT | VTRUE =>
          StepNotConstant(code, jpc, e, true, s, base, k);
          return Ok(e.(k := VFALSE));
        case VJMP =>
          StateWaits(code, jpc, e, s);
          StepNotCompare(code, e, s, base, k);
          NegateCondition(e);
          return Ok(e);
        case VNONRELOC | VRELOCABLE =>
          var e1 :- Discharge2AnyReg(e, s, base);
          ghost var c1, j1 := code, jpc;
          BecameState(old(code), old(jpc), e, c1, j1, e1, s, base, -1, k);
          FreeExp(e1, base);
          StateLists(code, jpc, e1, s);
          StepNotRegister(code, jpc, e1, s, base, k);
          var pc :- Code(NOT(0, e1.info));
          BecameNegatesMain(old(code), old(jpc), e, c1, j1, e1, code, jpc, e1.(k := VRELOCABLE, info := pc), s, base,
            k);
          return Ok(e1.(k := VRELOCABLE, info := pc));
      }
    }

    /** Codes `not e`: the lists are exchanged and their tests produce no values. */
    method CodeNot(e0: ExpDesc, ghost s: int, ghost base: int) returns (r: Result<ExpDesc>)
      requires Valid() && ExpState(code, jpc, e0, s) && RegOk(e0, base) && TrueConstants(k, e0)
      modifies this
      ensures r.Err? ==> Limit(r.error)
      ensures Valid() && old(k) <= k
      ensures r.Ok? ==>
        && Negates(old(code), old(jpc), e0, code, jpc, r.value, s, base, k)
        && RegOk(r.value, base) && r.value.k != VK
    {
      hide Became, ExpState, NegatesMain, Negates, JS, IsList, Demoted;
      var e :- DischargeVars(e0, s, base);
      ghost var c1, j1, k1, d := code, jpc, k, e;
      BecameState(old(code), old(jpc), e0, c1, j1, d, s, base, -1, k1);
      e :- NegateMain(e, s, base);
      ghost var c2, m := code, e;
      StateTested(c1, j1, d, s);
      StepDemote(c1, j1, d, c2, jpc, m, s, base, k);
      NegatesMainState(c1, j1, d, c2, jpc, m, s, base, k);
      StateLists(c2, jpc, m, s);
      e := e.(t := e.f, f := e.t);
      StateTested(c2, jpc, m, s);
      RemoveValues(e.f);
      DemoteList(c2, JS(c2, m.t), m.f);
      RemoveValues(e.t);
      DemotedTwice(c2, JS(c2, m.t), JS(c2, m.f));
      BecameNegates(old(code), old(jpc), e0, c1, j1, d, code, jpc, e, s, base, k);
      return Ok(e);
    }

    /** Frees the registers of two operands, the last reserved one first. */
    method FreeExps(e1: ExpDesc, e2: ExpDesc, ghost base: int)
      requires Valid() && RegsOk(e1, e2, base)
      modifies this`freereg
      ensures Valid() && freereg == base
    {
      var r1 := if e1.k == VNONRELOC then e1.info else -1;
      var r2 := if e2.k == VNONRELOC then e2.info else -1;
      if r1 > r2 {
        FreeReg(r1);
        FreeReg(r2);
      } else {
        FreeReg(r2);
        FreeReg(r1);
      }
    }

    /** The operand occupies a register that is not a local variable. */
    predicate IsTemp(e: ExpDesc) {
      e.k == VNONRELOC && e.info >= nactvar
    }

    /** The registers of two operands are the last ones reserved. */
    ghost predicate RegsOk(e1: ExpDesc, e2: ExpDesc, base: int)
      reads this
    {
      && nactvar <= base
      && freereg == base + (if IsTemp(e1) then 1 else 0) + (if IsTemp(e2) then 1 else 0)
      && (IsTemp(e1) ==> e1.info == base || (IsTemp(e2) && e2.info == base && e1.info == base + 1))
      && (IsTemp(e2) ==> e2.info == base || (IsTemp(e1) && e1.info == base && e2.info == base + 1))
      && (IsTemp(e1) && IsTemp(e2) ==> e1.info != e2.info)
    }

    /** Emits the instruction of a binary operation on two operands. */
    method CodeBinary(e1: ExpDesc, e2: ExpDesc, ghost a1: Expr, ghost a2: Expr, i: Instr, ghost a: Expr,
                      ghost base: int, ghost c0: seq<Instr>, ghost j0: int)
      returns (r: Result<ExpDesc>)
      requires Valid() && RegsOk(e1, e2, base) && Ready(c0, j0)
      requires TwoOperands(c0, j0, code, jpc, e1, e2, a1, a2, base, k, fold)
      requires IsOperand(e1) && IsOperand(e2) && Implements(i, a, a1, a2) && (i.COMP? || i.ARITH?)
      requires i.b == OperandRK(e1) && i.c == OperandRK(e2)
      modifies this`code, this`jpc, this`freereg
      ensures r.Err? ==> Limit(r.error)
      ensures Valid()
      ensures r.Ok? ==>
        Compiled(c0, j0, code, jpc, r.value, a, base, k, fold) && RegOk(r.value, base) && r.value.k != VK
    {
      hide TwoOperands, Compiled, Implements, Extended, Ready;
      TwoOperandsList(c0, j0, code, jpc, e1, e2, a1, a2, base, k, fold);
      CompileBinary(c0, j0, code, jpc, e1, e2, a1, a2, i, a, base, k, fold);
      FreeExps(e1, e2, base);
      if i.COMP? {
        var pc :- CondJump(i);
        return Ok(ExpDesc(VJMP, pc, 0, NO_JUMP, NO_JUMP));
      } else {
        var pc :- Code(i);
        return Ok(ExpDesc(VRELOCABLE, pc, 0, NO_JUMP, NO_JUMP));
      }
    }

    // ---------- expressions ----------

    /** First operand of `and` (`b`) or `or`: goes on to the second one on the value `b`. */
    method InfixLogical(b: bool, e1: ExpDesc, ghost a1: Expr, ghost c0: seq<Instr>, ghost j0: int, ghost base: int)
      returns (r: Result<ExpDesc>)
      requires Valid() && Ready(c0, j0) && Compiled(c0, j0, code, jpc, e1, a1, base, k, fold)
      requires RegOk(e1, base) && TrueConstants(k, e1)
      modifies this
      ensures r.Err? ==> Limit(r.error)
      ensures Valid() && old(k) <= k
      ensures r.Ok? ==>
        && FirstOperand(c0, j0, code, jpc, r.value.t, r.value.f, b, a1, base, k, fold)
        && Ready(code, jpc) && freereg == base
    {
      hide Ready, Compiled, FirstOperand, GoesOn, ExpState;
      CompiledState(c0, j0, code, jpc, e1, a1, base, k, fold);
      ghost var c1, j1, k1 := code, jpc, k;
      if b {
        r := GoIfTrue(e1, |c0|, base);
      } else {
        r := GoIfFalse(e1, |c0|, base);
      }
      if r.Ok? {
        MakeFirstOperand(c0, j0, c1, j1, e1, a1, k1, code, jpc, r.value.t, r.value.f, b, base, k, fold);
      }
    }

    /** The exits of the first operand join the ones of the second. */
    method PosfixLogical(b: bool, e1: ExpDesc, d2: ExpDesc, ghost a1: Expr, ghost a2: Expr, ghost c0: seq<Instr>,
                         ghost j0: int, ghost c1: seq<Instr>, ghost j1: int, ghost k1: seq<Value>, ghost base: int)
      returns (r: Result<ExpDesc>)
      requires Valid() && Ready(c0, j0) && Ready(c1, j1)
        && FirstOperand(c0, j0, c1, j1, e1.t, e1.f, b, a1, base, k1, fold) && k1 <= k
      requires Compiled(c1, j1, code, jpc, d2, a2, base, k, fold) && LocalsBelow(a2, nactvar)
      requires RegOk(d2, base) && TrueConstants(k, d2)
      modifies this`code, this`jpc
      ensures r.Err? ==> Limit(r.error)
      ensures Valid()
      ensures r.Ok? ==>
        && Compiled(c0, j0, code, jpc, r.value, Junction(b, a1, a2), base, k, fold)
        && RegOk(r.value, base) && TrueConstants(k, r.value)
    {
      hide Ready, Compiled, FirstOperand, Became, ExpState, JS, IsList, Relinked, Junction;
      CompiledState(c1, j1, code, jpc, d2, a2, base, k, fold);
      ghost var c, j := code, jpc;
      var e2 :- DischargeVars(d2, |c1|, base);
      CompileStep(c1, j1, c, j, d2, a2, k, code, jpc, e2, base, k, fold);
      ghost var c2 := code;
      JunctionLists(c0, j0, c1, j1, e1.t, e1.f, k1, b, a1, c2, jpc, e2, a2, base, k, fold);
      var l :- Concat(if b then e2.f else e2.t, if b then e1.f else e1.t);
      RelinkedBy(c2, code, JS(c2, if b then e2.f else e2.t));
      CompileJunction(c0, j0, c1, j1, e1.t, e1.f, k1, b, a1, c2, jpc, e2, a2, base, k, fold, nactvar, code, l);
      return Ok(if b then e2.(f := l) else e2.(t := l));
    }

    /** A numeral without jumps, which the compiler may compute with. */
    predicate IsNumeral(e: ExpDesc) {
      e.k == VKINT && NoLists(e)
    }

    /** First operand of a comparison or of an arithmetic operator (`arith`), which keeps
        a numeral for folding. */
    method InfixOperand(arith: bool, d1: ExpDesc, ghost a1: Expr, ghost c0: seq<Instr>, ghost j0: int, ghost base: int)
      returns (r: Result<ExpDesc>)
      requires Valid() && Ready(c0, j0) && Compiled(c0, j0, code, jpc, d1, a1, base, k, fold) && RegOk(d1, base)
      modifies this
      ensures r.Err? ==> Limit(r.error)
      ensures Valid() && old(k) <= k
      ensures r.Ok? ==>
        && Compiled(c0, j0, code, jpc, r.value, a1, base, k, fold) && Ready(code, jpc)
        && RegOk(r.value, base) && NoLists(r.value) && (IsOperand(r.value) || (arith && IsNumeral(r.value)))
    {
      hide Ready, Compiled, Became, ExpState;
      CompiledState(c0, j0, code, jpc, d1, a1, base, k, fold);
      HasJumps(code, jpc, d1, |c0|);
      if arith && d1.t == d1.f && d1.k == VKINT {
        CompiledReady(c0, j0, code, jpc, d1, a1, base, k, fold);
        return Ok(d1);
      }
      ghost var c, j, k1 := code, jpc, k;
      var e1 :- Exp2RK(d1, |c0|, base);
      CompileStep(c0, j0, c, j, d1, a1, k1, code, jpc, e1, base, k, fold);
      CompiledReady(c0, j0, code, jpc, e1, a1, base, k, fold);
      return Ok(e1);
    }

    /** The first register above the first operand. */
    ghost function Above(e1: ExpDesc, base: int): int {
      if IsTemp(e1) then base + 1 else base
    }

    /** A comparison; `>` and `>=` exchange their operands, `~=` inverts `==`. */
    method PosfixCompare(op: CompareOpr, e1: ExpDesc, d2: ExpDesc, ghost a1: Expr, ghost a2: Expr, ghost c0: seq<Instr>,
                         ghost j0: int, ghost c1: seq<Instr>, ghost j1: int, ghost k1: seq<Value>, ghost base: int)
      returns (r: Result<ExpDesc>)
      requires Valid() && Ready(c0, j0) && Ready(c1, j1) && Compiled(c0, j0, c1, j1, e1, a1, base, k1, fold) && k1 <= k
      requires nactvar <= base && IsOperand(e1) && NoLists(e1) && (IsTemp(e1) ==> e1.info == base)
      requires Compiled(c1, j1, code, jpc, d2, a2, Above(e1, base), k, fold) && LocalsBelow(a2, nactvar)
        && RegOk(d2, Above(e1, base))
      modifies this
      ensures r.Err? ==> Limit(r.error)
      ensures Valid() && old(k) <= k
      ensures r.Ok? ==>
        Compiled(c0, j0, code, jpc, r.value, CompareExpr(op, a1, a2), base, k, fold) && RegOk(r.value, base)
          && r.value.k != VK
    {
      hide Ready, Compiled, Became, ExpState, TwoOperands;
      ghost var base2 := Above(e1, base);
      CompiledState(c1, j1, code, jpc, d2, a2, base2, k, fold);
      ghost var c, j, k2 := code, jpc, k;
      var e2 :- Exp2RK(d2, |c1|, base2);
      CompileStep(c1, j1, c, j, d2, a2, k2, code, jpc, e2, base2, k, fold);
      MakeTwoOperands(c0, j0, c1, j1, e1, a1, k1, code, jpc, e2, a2, base, base2, k, fold, nactvar);
      SwapOperands(c0, j0, code, jpc, e1, e2, a1, a2, base, k, fold);
      var rk1, rk2 := OperandRK(e1), OperandRK(e2);
      if Exchanged(op) {
        r := CodeBinary(e2, e1, a2, a1, COMP(Opcode(op), true, rk2, rk1), CompareExpr(op, a1, a2), base, c0, j0);
      } else {
        r := CodeBinary(e1, e2, a1, a2, COMP(Opcode(op), op != NeOpr, rk1, rk2), CompareExpr(op, a1, a2), base, c0, j0);
      }
    }

    /** An arithmetic operation, computed now if both operands are numerals and it is
        safe; a numeral kept as first operand gets its place after the second one. */
    method PosfixArith(op: ArithOp, d1: ExpDesc, d2: ExpDesc, ghost a1: Expr, ghost a2: Expr, ghost c0: seq<Instr>,
                       ghost j0: int, ghost c1: seq<Instr>, ghost j1: int, ghost k1: seq<Value>, ghost base: int)
      returns (r: Result<ExpDesc>)
      requires Valid() && Ready(c0, j0) && Ready(c1, j1) && Compiled(c0, j0, c1, j1, d1, a1, base, k1, fold) && k1 <= k
      requires nactvar <= base && (IsOperand(d1) || IsNumeral(d1)) && NoLists(d1) && (IsTemp(d1) ==> d1.info == base)
      requires Compiled(c1, j1, code, jpc, d2, a2, Above(d1, base), k, fold) && LocalsBelow(a2, nactvar)
        && RegOk(d2, Above(d1, base))
      modifies this
      ensures r.Err? ==> Limit(r.error)
      ensures Valid() && old(k) <= k
      ensures r.Ok? ==>
        Compiled(c0, j0, code, jpc, r.value, ArithExpr(op, a1, a2), base, k, fold) && RegOk(r.value, base)
          && r.value.k != VK
    {
      hide Ready, Compiled, Became, ExpState, TwoOperands;
      ghost var base2 := Above(d1, base);
      CompiledState(c1, j1, code, jpc, d2, a2, base2, k, fold);
      HasJumps(code, jpc, d2, |c1|);
      if d1.k == VKINT && d2.k == VKINT && d2.t == d2.f && fold.arith(op, d1.ival, d2.ival).Some? {
        MakeTwoOperands(c0, j0, c1, j1, d1, a1, k1, code, jpc, d2, a2, base, base2, k, fold, nactvar);
        CompileFolded(c0, j0, code, jpc, d1, d2, a1, a2, op, base, k, fold);
        return Ok(d1.(ival := fold.arith(op, d1.ival, d2.ival).value));
      }
      ghost var c, j, k2 := code, jpc, k;
      var e2 :- Exp2RK(d2, |c1|, base2);
      CompileStep(c1, j1, c, j, d2, a2, k2, code, jpc, e2, base2, k, fold);
      MakeTwoOperands(c0, j0, c1, j1, d1, a1, k1, code, jpc, e2, a2, base, base2, k, fold, nactvar);
      var e1 := d1;
      if d1.k == VKINT {
        ghost var c2, j2, k3 := code, jpc, k;
        ghost var free := freereg;
        TwoOperandsList(c0, j0, c2, j2, d1, e2, a1, a2, base, k, fold);
        NumeralState(c2, j2, |c0|, d1);
        e1 :- Exp2RK(d1, |code|, freereg);
        PlaceNumeral(c0, j0, c2, j2, d1, e2, a1, a2, k3, code, jpc, e1, base, free, k, fold);
      }
      r := CodeBinary(e1, e2, a1, a2, ARITH(op, 0, OperandRK(e1), OperandRK(e2)), ArithExpr(op, a1, a2), base, c0, j0);
    }

    /** A unary minus or `~` of a numeral is computed now; the others, and `#`, take a
        register. */
    method PrefixValue(op: UnaryOp, d: ExpDesc, ghost a: Expr, ghost c0: seq<Instr>, ghost j0: int, ghost base: int)
      returns (r: Result<ExpDesc>)
      requires Valid() && Ready(c0, j0) && Compiled(c0, j0, code, jpc, d, a, base, k, fold) && RegOk(d, base)
      modifies this
      ensures r.Err? ==> Limit(r.error)
      ensures Valid() && old(k) <= k
      ensures r.Ok? ==>
        Compiled(c0, j0, code, jpc, r.value, UnaryExpr(op, a), base, k, fold) && RegOk(r.value, base) && r.value.k != VK
    {
      hide Ready, Compiled, Became, ExpState, Extended;
      CompiledState(c0, j0, code, jpc, d, a, base, k, fold);
      HasJumps(code, jpc, d, |c0|);
      if op != LEN && d.k == VKINT && d.t == d.f && fold.unary(op, d.ival).Some? {
        CompileFoldedUnary(c0, j0, code, jpc, d, a, op, base, k, fold);
        return Ok(d.(ival := fold.unary(op, d.ival).value));
      }
      ghost var c, j, k1 := code, jpc, k;
      var e :- Exp2AnyReg(d, |c0|, base);
      CompileStep(c0, j0, c, j, d, a, k1, code, jpc, e, base, k, fold);
      CompileUnary(c0, j0, code, jpc, e, a, op, base, k, fold);
      CompiledState(c0, j0, code, jpc, e, a, base, k, fold);
      StateLists(code, jpc, e, |c0|);
      FreeExp(e, base);
      var pc :- Code(UNARY(op, 0, e.info));
      return Ok(ExpDesc(VRELOCABLE, pc, 0, NO_JUMP, NO_JUMP));
    }

    method PrefixNot(d: ExpDesc, ghost a: Expr, ghost c0: seq<Instr>, ghost j0: int, ghost base: int)
      returns (r: Result<ExpDesc>)
      requires Valid() && Ready(c0, j0) && Compiled(c0, j0, code, jpc, d, a, base, k, fold) && RegOk(d, base)
        && TrueConstants(k, d)
      modifies this
      ensures r.Err? ==> Limit(r.error)
      ensures Valid() && old(k) <= k
      ensures r.Ok? ==>
        Compiled(c0, j0, code, jpc, r.value, NotExpr(a), base, k, fold) && RegOk(r.value, base) && r.value.k != VK
    {
      hide Ready, Compiled, Negates, ExpState;
      CompiledState(c0, j0, code, jpc, d, a, base, k, fold);
      ghost var c, j, k1 := code, jpc, k;
      var e :- CodeNot(d, |c0|, base);
      CompileNot(c0, j0, c, j, d, a, k1, code, jpc, e, base, k, fold);
      return Ok(e);
    }

    /** The constants and variables. */
    method SimpleExp(a: Expr) returns (r: Result<ExpDesc>)
      requires Valid() && Ready(code, jpc) && LocalsBelow(a, nactvar)
      requires a.NilExpr? || a.BoolExpr? || a.IntExpr? || a.StrExpr? || a.LocalExpr? || a.UpvalExpr?
      modifies this`k, this`h
      ensures r.Err? ==> Limit(r.error)
      ensures Valid() && old(k) <= k
      ensures r.Ok? ==>
        Compiled(code, jpc, code, jpc, r.value, a, freereg, k, fold) && RegOk(r.value, freereg)
          && TrueConstants(k, r.value)
    {
      hide Ready, Compiled;
      var e: ExpDesc;
      match a {
        case NilExpr => e := ExpDesc(VNIL, 0, 0, NO_JUMP, NO_JUMP);
        case BoolExpr(b) => e := ExpDesc(if b then VTRUE else VFALSE, 0, 0, NO_JUMP, NO_JUMP);
        case IntExpr(i) => e := ExpDesc(VKINT, 0, i, NO_JUMP, NO_JUMP);
        case StrExpr(str) =>
          var idx :- AddK(Str(str));
          e := ExpDesc(VK, idx, 0, NO_JUMP, NO_JUMP);
        case LocalExpr(reg) => e := ExpDesc(VLOCAL, reg, 0, NO_JUMP, NO_JUMP);
        case UpvalExpr(idx) => e := ExpDesc(VUPVAL, idx, 0, NO_JUMP, NO_JUMP);
      }
      CompileImmediate(code, jpc, a, e, freereg, k, fold);
      return Ok(e);
    }

    /** Generates code for the expression `a`: whatever the constants, upvalues and
        registers, that code delivers the value of `a`. */
    method Subexpr(a: Expr) returns (r: Result<ExpDesc>)
      requires Valid() && Ready(code, jpc) && LocalsBelow(a, nactvar)
      modifies this
      ensures r.Err? ==> Limit(r.error)
      ensures Valid() && old(k) <= k
      ensures r.Ok? ==>
        && Compiled(old(code), old(jpc), code, jpc, r.value, a, old(freereg), k, fold)
        && RegOk(r.value, old(freereg)) && TrueConstants(k, r.value)
      decreases a
    {
      hide Ready, Compiled, FirstOperand;
      ghost var c0, j0, base := code, jpc, freereg;
      match a {
        case NotExpr(x) =>
          var e :- Subexpr(x);
          r := PrefixNot(e, x, c0, j0, base);
        case UnaryExpr(op, x) =>
          var e :- Subexpr(x);
          r := PrefixValue(op, e, x, c0, j0, base);
        case AndExpr(x, y) =>
          r := Logical(true, x, y);
        case OrExpr(x, y) =>
          r := Logical(false, x, y);
        case CompareExpr(op, x, y) =>
          var d1 :- Subexpr(x);
          var e1 :- InfixOperand(false, d1, x, c0, j0, base);
          ghost var c1, j1, k1 := code, jpc, k;
          var e2 :- Subexpr(y);
          r := PosfixCompare(op, e1, e2, x, y, c0, j0, c1, j1, k1, base);
        case ArithExpr(op, x, y) =>
          var d1 :- Subexpr(x);
          var e1 :- InfixOperand(true, d1, x, c0, j0, base);
          ghost var c1, j1, k1 := code, jpc, k;
          var e2 :- Subexpr(y);
          r := PosfixArith(op, e1, e2, x, y, c0, j0, c1, j1, k1, base);
        case NilExpr | BoolExpr(_) | IntExpr(_) | StrExpr(_) | LocalExpr(_) | UpvalExpr(_) =>
          r := SimpleExp(a);
      }
    }

    /** `x and y` (`b`) or `x or y`. */
    method Logical(b: bool, x: Expr, y: Expr) returns (r: Result<ExpDesc>)
      requires Valid() && Ready(code, jpc) && LocalsBelow(x, nactvar) && LocalsBelow(y, nactvar)
      modifies this
      ensures r.Err? ==> Limit(r.error)
      ensures Valid() && old(k) <= k
      ensures r.Ok? ==>
        && Compiled(old(code), old(jpc), code, jpc, r.value, Junction(b, x, y), old(freereg), k, fold)
        && RegOk(r.value, old(freereg)) && TrueConstants(k, r.value)
      decreases Junction(b, x, y), 0
    {
      hide Ready, Compiled, FirstOperand, RegOk, TrueConstants, LocalsBelow;
      ghost var c0, j0, base := code, jpc, freereg;
      var d1 :- Subexpr(x);
      var e1 :- InfixLogical(b, d1, x, c0, j0, base);
      ghost var c1, j1, k1 := code, jpc, k;
      var e2 :- Subexpr(y);
      r := PosfixLogical(b, e1, e2, x, y, c0, j0, c1, j1, k1, base);
    }

    // ---------- statements ----------

    /** Assigns the expression to the local variable in register `reg`. */
    method StoreVar(reg: int, a: Expr) returns (r: Result<()>)
      requires Valid() && Ready(code, jpc) && LocalsBelow(a, nactvar) && 0 <= reg < nactvar
      modifies this
      ensures r.Err? ==> Limit(r.error)
      ensures Valid() && old(k) <= k
      ensures r.Ok? ==>
        Assigns(old(code), old(jpc), code, jpc, reg, a, old(freereg), k, fold) && freereg == old(freereg)
    {
      hide Ready, Compiled, Became, ExpState, Assigns;
      ghost var c0, j0, base := code, jpc, freereg;
      var d :- Subexpr(a);
      CompiledState(c0, j0, code, jpc, d, a, base, k, fold);
      ghost var c, j, k1 := code, jpc, k;
      FreeExp(d, base);
      var e :- Exp2Reg(d, reg, |c0|, base, reg);
      CompileAssign(c0, j0, c, j, d, a, k1, code, jpc, e, base, reg, k, fold);
      return Ok(());
    }

    /** Assigns the expression to a new local variable, in the next free register. */
    method LocalStat(a: Expr) returns (r: Result<()>)
      requires Valid() && Ready(code, jpc) && LocalsBelow(a, nactvar)
      modifies this
      ensures r.Err? ==> Limit(r.error)
      ensures Valid() && old(k) <= k
      ensures r.Ok? ==>
        Assigns(old(code), old(jpc), code, jpc, old(freereg), a, old(freereg), k, fold) && freereg == old(freereg) + 1
    {
      hide Ready, Compiled, Became, ExpState, Assigns;
      ghost var c0, j0, base := code, jpc, freereg;
      var d :- Subexpr(a);
      CompiledState(c0, j0, code, jpc, d, a, base, k, fold);
      ghost var c, j, k1 := code, jpc, k;
      var e :- Exp2NextReg(d, |c0|, base);
      CompileAssign(c0, j0, c, j, d, a, k1, code, jpc, e, base, -1, k, fold);
      return Ok(());
    }

    /** `return a`. */
    method RetStat(a: Expr) returns (r: Result<int>)
      requires Valid() && Ready(code, jpc) && LocalsBelow(a, nactvar)
      modifies this
      ensures r.Err? ==> Limit(r.error)
      ensures Valid() && old(k) <= k
      ensures r.Ok? ==> Returns(old(code), old(jpc), code, r.value, a, old(freereg), k, fold) && jpc == NO_JUMP
    {
      hide Ready, Compiled, Became, ExpState, Assigns, Extended, Returns;
      ghost var c0, j0, base := code, jpc, freereg;
      var d :- Subexpr(a);
      CompiledState(c0, j0, code, jpc, d, a, base, k, fold);
      ghost var c, j, k1 := code, jpc, k;
      var e :- Exp2AnyReg(d, |c0|, base);
      BecameState(c, j, d, code, jpc, e, |c0|, base, -1, k);
      StateLists(code, jpc, e, |c0|);
      CompileAssign(c0, j0, c, j, d, a, k1, code, jpc, e, base, -1, k, fold);
      CompileReturn(c0, j0, code, jpc, e.info, a, base, k, fold);
      var pc :- Code(RETURN(e.info, 2));
      return Ok(e.info);
    }
  }
}
