/** The state of the code generator between two of its steps, and one lemma for each
    step that takes a valid state to the next. */
module CodegenState {
  import opened LuaVM
  import opened JumpLists
  import opened ShortCircuit
  import opened CodegenSteps

  lemma ProperSubset<T>(a: set<T>, b: set<T>)
    requires a < b
    ensures |a| < |b|
  {
    var c := b - a;
    assert b == a + c && a !! c && |c| > 0;
    assert |b| == |a| + |c|;
  }

  lemma DemotedNone(code: seq<Instr>)
    ensures Demoted(code, {}) == code
  {
  }

  lemma DemotedJumps(code: seq<Instr>, L: set<int>)
    ensures |Demoted(code, L)| == |code|
    ensures forall i :: 0 <= i < |code| && (code[i].JMP? || Demoted(code, L)[i].JMP?) ==> Demoted(code, L)[i] == code[i]
  {
  }

  lemma DemotedTwice(code: seq<Instr>, L: set<int>, M: set<int>)
    ensures Demoted(Demoted(code, L), M) == Demoted(code, L + M)
  {
  }

  lemma PatchedNone(code: seq<Instr>, vt: int, reg: int, dt: int)
    ensures Patched(code, {}, vt, reg, dt) == code
  {
  }

  lemma DemoteStep(code: seq<Instr>, done: set<int>, p: int)
    requires 0 <= p < |code| && code[p].JMP?
    ensures
      var c := Demoted(code, done);
      Demoted(code, done + {p}) ==
        if Control(c, p).TESTSET? then c[p - 1 := PatchTest(c[p - 1], NO_REG)] else c
  {
  }

  lemma PatchedControl(code: seq<Instr>, done: set<int>, vt: int, reg: int, dt: int, p: int)
    requires 0 <= p < |code| && code[p].JMP? && p !in done && forall q :: q in done ==> 0 <= q < |code| && code[q].JMP?
    ensures
      var c := Patched(code, done, vt, reg, dt);
      |c| == |code| && c[p] == code[p] && Control(c, p).TESTSET? == Control(code, p).TESTSET?
        && (Control(c, p).TESTSET? ==> Control(c, p) == Control(code, p))
  {
  }

  lemma PatchOne(code: seq<Instr>, done: set<int>, vt: int, reg: int, dt: int, p: int)
    requires 0 <= p < |code| && code[p].JMP? && p !in done && forall q :: q in done ==> 0 <= q < |code| && code[q].JMP?
    ensures
      var c := Patched(code, done, vt, reg, dt);
      Patched(code, done + {p}, vt, reg, dt) ==
        if Control(c, p).TESTSET? then c[p - 1 := PatchTest(c[p - 1], reg)][p := JMP(vt - (p + 1))]
        else c[p := JMP(dt - (p + 1))]
  {
    PatchedControl(code, done, vt, reg, dt, p);
    var c := Patched(code, done, vt, reg, dt);
    var d := Patched(code, done + {p}, vt, reg, dt);
    var e := if Control(c, p).TESTSET? then c[p - 1 := PatchTest(c[p - 1], reg)][p := JMP(vt - (p + 1))]
             else c[p := JMP(dt - (p + 1))];
    forall i | 0 <= i < |code| ensures d[i] == e[i] {
      assert c[i] == c[i];
    }
  }

  lemma NewJump(code: seq<Instr>, j: int)
    requires 0 <= j < |code| && code[j] == JMP(NO_JUMP)
    ensures IsList(code, j) && JS(code, j) == {j}
  {
    ChainIs(code, j, [j]);
  }

  lemma ExtendedTwice(c: seq<Instr>, J: set<int>, i: Instr)
    ensures Extended(c, J, [i]) + [JMP(NO_JUMP)] == Extended(c, J, [i, JMP(NO_JUMP)])
  {
  }

  // ---------- states ----------

  /** The jump behind a comparison that is on no list yet. */
  function Held(e: ExpDesc): set<int> {
    if e.k == VJMP then {e.info} else {}
  }

  /** A valid state whose code from `s` on belongs to the expression `e`. */
  ghost predicate ExpState(code: seq<Instr>, jpc: int, e: ExpDesc, s: int) {
    && 0 <= s <= |code|
    && IsList(code, jpc) && IsList(code, e.t) && IsList(code, e.f)
    && Pend(code, JS(code, jpc), JS(code, e.t), JS(code, e.f), s)
    && Aimed(code, JS(code, jpc) + JS(code, e.t) + JS(code, e.f) + Held(e), s)
    && (Waits(e) ==> jpc == NO_JUMP && s <= Waiting(e))
    && (e.k == VRELOCABLE ==> e.info == |code| - 1 && Relocatable(code[e.info]))
    && (e.k == VJMP ==> IsCondJump(code, e) && code[e.info] == JMP(NO_JUMP) && e.info !in JS(code, e.t) + JS(code, e.f))
  }

  /** Run from `x` with registers `r`, the unfinished code of `e` delivers `v`. */
  ghost predicate Delivers(code: seq<Instr>, jpc: int, e: ExpDesc, base: int, dst: int, env: Env, x: int, r: Regs,
                           v: Value) {
    Good(code, JS(code, jpc), JS(code, e.t), JS(code, e.f), Val(e), base, dst, env, x, r, v)
  }

  /** Whatever value the old code delivers, the new code delivers it too. */
  ghost predicate Keeps(c0: seq<Instr>, j0: int, e0: ExpDesc, c1: seq<Instr>, j1: int, e1: ExpDesc, base: int, dst: int,
                        k: seq<Value>) {
    forall env: Env, x, r, v :: k <= env.k && Delivers(c0, j0, e0, base, -1, env, x, r, v) ==>
      Delivers(c1, j1, e1, base, dst, env, x, r, v)
  }

  ghost predicate Became(c0: seq<Instr>, j0: int, e0: ExpDesc, c1: seq<Instr>, j1: int, e1: ExpDesc, s: int, base: int,
                         dst: int, k: seq<Value>) {
    && ExpState(c1, j1, e1, s)
    && Frame(c0, JS(c0, j0), c1, JS(c1, j1), s)
    && Keeps(c0, j0, e0, c1, j1, e1, base, dst, k)
  }

  /** As Became, for a value on its way to the register `dst`. */
  ghost predicate Settled(c0: seq<Instr>, j0: int, e0: ExpDesc, c1: seq<Instr>, j1: int, e1: ExpDesc, s: int, base: int,
                          dst: int, k: seq<Value>) {
    && ExpState(c1, j1, e1, s)
    && Frame(c0, JS(c0, j0), c1, JS(c1, j1), s)
    && forall env: Env, x, r, v :: k <= env.k && Delivers(c0, j0, e0, base, dst, env, x, r, v) ==>
        Delivers(c1, j1, e1, base, dst, env, x, r, v)
  }

  lemma Then(c0: seq<Instr>, j0: int, e0: ExpDesc, c1: seq<Instr>, j1: int, e1: ExpDesc, c2: seq<Instr>, j2: int,
             e2: ExpDesc, s: int, base: int, dst: int, k: seq<Value>)
    requires ExpState(c0, j0, e0, s)
    requires Became(c0, j0, e0, c1, j1, e1, s, base, dst, k) && Settled(c1, j1, e1, c2, j2, e2, s, base, dst, k)
    ensures Became(c0, j0, e0, c2, j2, e2, s, base, dst, k)
  {
    hide Delivers, Frame, JS, IsList;
    forall j | j in JS(c0, j0) ensures j < |c0| && Op(c0, j).JMP? {
      assert Open(c0, j);
    }
    FrameTrans(c0, JS(c0, j0), c1, JS(c1, j1), c2, JS(c2, j2), s);
  }

  lemma FrameTrans(c0: seq<Instr>, J0: set<int>, c1: seq<Instr>, J1: set<int>, c2: seq<Instr>, J2: set<int>, s: int)
    requires Frame(c0, J0, c1, J1, s) && Frame(c1, J1, c2, J2, s)
    requires forall j :: j in J0 ==> j < |c0| && Op(c0, j).JMP?
    ensures Frame(c0, J0, c2, J2, s)
  {
    forall i | 0 <= i < s && i !in J0
      ensures Similar(c0[i], c2[i]) && (i + 1 !in J0 ==> c2[i] == c0[i])
    {
      assert i !in J1;
      assert i + 1 == s && s in J1 && s !in J0 ==> !IsTest(Control(c1, s));
    }
    forall i | i in J0 && 0 <= i < s
      ensures c2[i].JMP? && (i in J2 || s <= i + 1 + c2[i].sbx <= |c2|)
    {
      if i !in J1 {
        assert Similar(c1[i], c2[i]);
      }
    }
    if s in J2 && s !in J0 && s > 0 {
      assert Similar(c1[s - 1], c2[s - 1]) || c2[s - 1].JMP?;
    }
  }

  lemma KeepsTrans(c0: seq<Instr>, j0: int, e0: ExpDesc, c1: seq<Instr>, j1: int, e1: ExpDesc, k1: seq<Value>,
                   c2: seq<Instr>, j2: int, e2: ExpDesc, base: int, dst: int, k2: seq<Value>)
    requires Keeps(c0, j0, e0, c1, j1, e1, base, -1, k1) && Keeps(c1, j1, e1, c2, j2, e2, base, dst, k2) && k1 <= k2
    ensures Keeps(c0, j0, e0, c2, j2, e2, base, dst, k2)
  {
    hide Delivers;
  }

  lemma BecameTrans(c0: seq<Instr>, j0: int, e0: ExpDesc, c1: seq<Instr>, j1: int, e1: ExpDesc, k1: seq<Value>,
                    c2: seq<Instr>, j2: int, e2: ExpDesc, s: int, base: int, dst: int, k2: seq<Value>)
    requires ExpState(c0, j0, e0, s) && k1 <= k2
    requires Became(c0, j0, e0, c1, j1, e1, s, base, -1, k1) && Became(c1, j1, e1, c2, j2, e2, s, base, dst, k2)
    ensures Became(c0, j0, e0, c2, j2, e2, s, base, dst, k2)
  {
    hide Keeps, Frame, JS, IsList;
    KeepsTrans(c0, j0, e0, c1, j1, e1, k1, c2, j2, e2, base, dst, k2);
    forall j | j in JS(c0, j0) ensures j < |c0| && Op(c0, j).JMP? {
      assert Open(c0, j);
    }
    FrameTrans(c0, JS(c0, j0), c1, JS(c1, j1), c2, JS(c2, j2), s);
  }

  /** Descriptors of the same value. */
  predicate SameValue(e: ExpDesc, e': ExpDesc, k: seq<Value>) {
    e' == e || (
    && e'.t == e.t && e'.f == e.f
    && match e.k
       case VLOCAL => e'.k == VNONRELOC && e'.info == e.info
       case VNIL => e'.k == VK && 0 <= e'.info < |k| && k[e'.info] == Nil
       case VTRUE => e'.k == VK && 0 <= e'.info < |k| && k[e'.info] == Bool(true)
       case VFALSE => e'.k == VK && 0 <= e'.info < |k| && k[e'.info] == Bool(false)
       case VKINT => e'.k == VK && 0 <= e'.info < |k| && k[e'.info] == Int(e.ival)
       case _ => false)
  }

  lemma FrameSame(c: seq<Instr>, J: set<int>, s: int)
    requires 0 <= s <= |c| && Jumps(c, J)
    ensures Frame(c, J, c, J, s)
  {
  }

  lemma StepSame(c: seq<Instr>, j: int, e: ExpDesc, e': ExpDesc, s: int, base: int, k: seq<Value>)
    requires ExpState(c, j, e, s) && SameValue(e, e', k)
    ensures Became(c, j, e, c, j, e', s, base, -1, k)
  {
    hide Run, Agree, JS, IsList, Pend, Jumps;
    forall env: Env, x, r, v | k <= env.k && Delivers(c, j, e, base, -1, env, x, r, v)
      ensures Delivers(c, j, e', base, -1, env, x, r, v)
    {
      assert EndStop(Val(e)) == EndStop(Val(e'));
      assert forall r': Regs :: ValueAt(c, e, env, r') == ValueAt(c, e', env, r');
    }
    PendJumps(c, JS(c, j), JS(c, e.t), JS(c, e.f), s);
    FrameSame(c, JS(c, j), s);
  }

  lemma StepSameDst(c: seq<Instr>, j: int, e: ExpDesc, e': ExpDesc, s: int, base: int, dst: int, k: seq<Value>)
    requires ExpState(c, j, e, s) && SameValue(e, e', k)
    ensures Became(c, j, e, c, j, e', s, base, dst, k)
  {
    hide Good, JS, IsList, Pend, Frame;
    StepSame(c, j, e, e', s, base, k);
    forall env: Env, x, r, v | k <= env.k && Delivers(c, j, e, base, -1, env, x, r, v)
      ensures Delivers(c, j, e', base, dst, env, x, r, v)
    {
      WidenDst(c, JS(c, j), JS(c, e'.t), JS(c, e'.f), Val(e'), base, dst, env, x, r, v);
    }
  }

  lemma StateLists(c: seq<Instr>, j: int, e: ExpDesc, s: int)
    requires ExpState(c, j, e, s)
    ensures IsList(c, j) && IsList(c, e.t) && IsList(c, e.f) && 0 <= s <= |c|
    ensures JS(c, j) !! JS(c, e.t) && JS(c, j) !! JS(c, e.f) && JS(c, e.t) !! JS(c, e.f)
  {
  }

  lemma StateWaits(c: seq<Instr>, j: int, e: ExpDesc, s: int)
    requires ExpState(c, j, e, s) && Waits(e)
    ensures j == NO_JUMP && JS(c, j) == {} && s <= Waiting(e)
    ensures e.k == VRELOCABLE ==> 0 <= e.info == |c| - 1 && Relocatable(c[e.info])
    ensures e.k == VJMP ==> IsCondJump(c, e) && c[e.info] == JMP(NO_JUMP)
  {
    NoJump(c);
  }

  lemma BecameState(c0: seq<Instr>, j0: int, e0: ExpDesc, c1: seq<Instr>, j1: int, e1: ExpDesc, s: int, base: int,
                    dst: int, k: seq<Value>)
    requires Became(c0, j0, e0, c1, j1, e1, s, base, dst, k)
    ensures ExpState(c1, j1, e1, s)
  {
  }

  lemma LoadsOne(e: ExpDesc, reg: int, i: Instr)
    requires match e.k
      case VNIL => i == LOADNIL(reg)
      case VTRUE => i == LOADBOOL(reg, true, false)
      case VFALSE => i == LOADBOOL(reg, false, false)
      case VNONRELOC => i == MOVE(reg, e.info)
      case _ => false
    ensures Loads([i], e, reg)
  {
  }

  // ---------- the destinations of jumps ----------

  lemma AimedMore(c: seq<Instr>, L: set<int>, L': set<int>, s: int, s': int)
    requires Aimed(c, L, s) && s <= s' && forall p :: p in L && s' <= p < |c| ==> p in L'
    ensures Aimed(c, L', s')
  {
  }

  /** Only jumps in `L1` are new or other than before. */
  lemma AimedKept(c0: seq<Instr>, L0: set<int>, c1: seq<Instr>, L1: set<int>, s: int)
    requires Aimed(c0, L0, s) && |c0| <= |c1|
    requires forall i :: s <= i < |c1| && 0 <= i && c1[i].JMP? && i !in L1 ==> i < |c0| && c1[i] == c0[i] && i !in L0
    ensures Aimed(c1, L1, s)
  {
  }

  /** The jumps that were pending to the end of the code go to the first new instruction. */
  lemma AimedEmit(c0: seq<Instr>, J0: set<int>, L0: set<int>, s: int, tail: seq<Instr>, L1: set<int>)
    requires Aimed(c0, L0, s) && L0 <= J0 + L1
    requires NewJumps(tail, |c0|, L1)
    ensures Aimed(Extended(c0, J0, tail), L1, s)
  {
    var c1 := Extended(c0, J0, tail);
    forall i | 0 <= i < |c0| ensures c1[i] == Patched(c0, J0, |c0|, NO_REG, |c0|)[i] {}
    forall i | |c0| <= i < |c1| ensures c1[i] == tail[i - |c0|] {}
  }

  /** Code behind other code that keeps it. */
  lemma AimedJoin(c1: seq<Instr>, J1: set<int>, L1: set<int>, s: int, c2: seq<Instr>, J2: set<int>, L2: set<int>,
                  L: set<int>)
    requires Aimed(c1, L1, s) && Aimed(c2, L2, |c1|) && Frame(c1, J1, c2, J2, |c1|) && 0 <= s
    requires L1 <= J1 + L && J2 + L2 <= L
    ensures Aimed(c2, L, s)
  {
    forall i | s <= i < |c2| && c2[i].JMP? && i !in L
      ensures 0 <= c2[i].sbx && i + 1 + c2[i].sbx <= |c2|
    {
      if i < |c1| && i !in J1 {
        assert Similar(c1[i], c2[i]);
      }
    }
  }

  lemma PendJumps(c: seq<Instr>, J: set<int>, T: set<int>, F: set<int>, s: int)
    requires Pend(c, J, T, F, s)
    ensures Jumps(c, J) && Jumps(c, T) && Jumps(c, F) && Paired(c)
  {
  }

  // ---------- adding instructions ----------

  /** New instructions that leave `N` pending: nothing, or the jump of a test. */
  ghost predicate TailOk(tail: seq<Instr>, n: int, N: set<int>) {
    && |tail| > 0 && Paired(tail)
    && (N == {} || (N == {n + 1} && |tail| == 2 && tail[1].JMP? && IsTest(tail[0])
        && (tail[0].TESTSET? ==> tail[0].a == NO_REG != tail[0].b)))
    && forall i :: 0 <= i < |tail| && tail[i].TESTSET? && tail[i].a == NO_REG ==> i == 0 && N == {n + 1}
  }

  /** The jumps among new instructions. */
  ghost predicate NewJumps(tail: seq<Instr>, n: int, N: set<int>) {
    forall i :: 0 <= i < |tail| && tail[i].JMP? ==> n + i in N
  }

  lemma PendEmit(c0: seq<Instr>, J0: set<int>, T: set<int>, F: set<int>, s: int, tail: seq<Instr>, N: set<int>,
                 T2: set<int>, F2: set<int>)
    requires Pend(c0, J0, T, F, s) && 0 <= s <= |c0| && TailOk(tail, |c0|, N)
    requires (T2 == T + N && F2 == F) || (T2 == T && F2 == F + N)
    ensures Pend(Extended(c0, J0, tail), {}, T2, F2, s)
  {
    hide Patched, Paired;
    var c := Extended(c0, J0, tail);
    PairedEmit(c0, J0, tail);
    TailEmit(c0, J0, tail);
    forall p | p in T || p in F ensures Open(c, p) && Control(c, p) == Control(c0, p) {
      KeptByEmit(c0, J0, tail, p);
    }
    forall i | s <= i && Unset(c, i) ensures i + 1 in T2 || i + 1 in F2 {
      if i < |c0| {
        UnsetByEmit(c0, J0, tail, i);
      } else {
        assert c[i] == tail[i - |c0|];
      }
    }
  }

  lemma PairedEmit(c0: seq<Instr>, J0: set<int>, tail: seq<Instr>)
    requires Paired(c0) && Paired(tail) && Jumps(c0, J0)
    ensures Paired(Extended(c0, J0, tail))
  {
    PatchedPaired(c0, J0, |c0|, NO_REG, |c0|);
    PairedConcat(Patched(c0, J0, |c0|, NO_REG, |c0|), tail);
  }

  lemma TailEmit(c0: seq<Instr>, J0: set<int>, tail: seq<Instr>)
    requires |tail| > 0
    ensures
      var c := Extended(c0, J0, tail);
      && |c| == |c0| + |tail| && c[|c0|] == Control(c, |c0| + 1) == tail[0] && (|tail| > 1 ==> c[|c0| + 1] == tail[1])
      && forall i :: |c0| <= i < |c| ==> c[i] == tail[i - |c0|]
  {
  }

  lemma PairedConcat(c: seq<Instr>, tail: seq<Instr>)
    requires Paired(c) && Paired(tail)
    ensures Paired(c + tail)
  {
    forall i | 0 <= i < |c + tail|
      ensures IsTest((c + tail)[i]) ==> i + 1 < |c + tail| && (c + tail)[i + 1].JMP?
      ensures (c + tail)[i].LOADKX? ==> i + 1 < |c + tail| && (c + tail)[i + 1].EXTRAARG?
    {
      if i < |c| {
        assert (c + tail)[i] == c[i];
      } else {
        assert (c + tail)[i] == tail[i - |c|];
      }
    }
  }

  lemma KeptByEmit(c0: seq<Instr>, J0: set<int>, tail: seq<Instr>, p: int)
    requires Jumps(c0, J0) && Open(c0, p) && p !in J0
    ensures Open(Extended(c0, J0, tail), p) && Op(Extended(c0, J0, tail), p) == Op(c0, p)
    ensures IsTest(Control(c0, p)) ==> Control(Extended(c0, J0, tail), p) == Control(c0, p)
  {
    var c := Extended(c0, J0, tail);
    assert c[p] == c0[p];
    if p > 0 {
      assert p - 1 in J0 ==> Open(c0, p - 1);
      assert c[p - 1] == Patched(c0, J0, |c0|, NO_REG, |c0|)[p - 1];
    }
  }

  lemma UnsetByEmit(c0: seq<Instr>, J0: set<int>, tail: seq<Instr>, i: int)
    requires 0 <= i < |c0|
    ensures Unset(Extended(c0, J0, tail), i) ==> Unset(c0, i) && i + 1 !in J0
  {
    assert Extended(c0, J0, tail)[i] == Patched(c0, J0, |c0|, NO_REG, |c0|)[i];
  }

  lemma ListEmit(c0: seq<Instr>, J0: set<int>, tail: seq<Instr>, h: int)
    requires Jumps(c0, J0) && IsList(c0, h) && JS(c0, h) !! J0 && Jumps(c0, JS(c0, h))
    ensures IsList(Extended(c0, J0, tail), h) && JS(Extended(c0, J0, tail), h) == JS(c0, h)
  {
    hide IsList, JS;
    forall p | p in JS(c0, h) ensures Op(c0, p) == Op(Extended(c0, J0, tail), p) {
      assert Open(c0, p);
      KeptByEmit(c0, J0, tail, p);
    }
    ListFrame(c0, Extended(c0, J0, tail), h);
  }

  lemma FrameEmit(c0: seq<Instr>, J0: set<int>, tail: seq<Instr>, s: int)
    requires Jumps(c0, J0) && 0 <= s <= |c0|
    ensures Frame(c0, J0, Extended(c0, J0, tail), {}, s)
  {
    var cp := Patched(c0, J0, |c0|, NO_REG, |c0|);
    var c := Extended(c0, J0, tail);
    forall i | 0 <= i < s && i !in J0
      ensures Similar(c0[i], c[i]) && (i + 1 !in J0 ==> c[i] == c0[i])
    {
      assert c[i] == cp[i];
      if i + 1 in J0 {
        assert Open(c0, i + 1) && Control(c0, i + 1) == c0[i];
      }
    }
    forall i | i in J0 && 0 <= i < s
      ensures c[i].JMP? && s <= i + 1 + c[i].sbx <= |c|
    {
      assert c[i] == cp[i];
    }
    forall i | 0 <= i < s && Unset(c, i)
      ensures Unset(c0, i) && i + 1 !in J0
    {
      UnsetByEmit(c0, J0, tail, i);
    }
  }

  /** The lists and the structure after instructions were added. */
  lemma StateEmit(c0: seq<Instr>, j0: int, e0: ExpDesc, s: int, tail: seq<Instr>, N: set<int>)
    requires ExpState(c0, j0, e0, s) && TailOk(tail, |c0|, N) && e0.k != VJMP
    ensures
      var c := Extended(c0, JS(c0, j0), tail);
      && |c| == |c0| + |tail| && c[|c0|..] == tail
      && IsList(c, e0.t) && JS(c, e0.t) == JS(c0, e0.t)
      && IsList(c, e0.f) && JS(c, e0.f) == JS(c0, e0.f)
      && IsList(c, NO_JUMP) && JS(c, NO_JUMP) == {}
      && Pend(c, {}, JS(c0, e0.t) + N, JS(c0, e0.f), s) && Pend(c, {}, JS(c0, e0.t), JS(c0, e0.f) + N, s)
      && (NewJumps(tail, |c0|, N) ==> Aimed(c, JS(c0, e0.t) + JS(c0, e0.f) + N, s))
      && Frame(c0, JS(c0, j0), c, {}, s)
  {
    hide JS, IsList, Frame, TailOk, Waits, IsCondJump, Aimed;
    var J0, T, F := JS(c0, j0), JS(c0, e0.t), JS(c0, e0.f);
    var c := Extended(c0, J0, tail);
    ListEmit(c0, J0, tail, e0.t);
    ListEmit(c0, J0, tail, e0.f);
    NoJump(c);
    PendEmit(c0, J0, T, F, s, tail, N, T + N, F);
    PendEmit(c0, J0, T, F, s, tail, N, T, F + N);
    if NewJumps(tail, |c0|, N) {
      AimedEmit(c0, J0, J0 + T + F + Held(e0), s, tail, T + F + N);
    }
    FrameEmit(c0, J0, tail, s);
  }

  // ---------- steps that keep the value ----------

  lemma OneTailOk(i: Instr, n: int)
    requires Relocatable(i)
    ensures TailOk([i], n, {}) && NewJumps([i], n, {})
  {
  }

  lemma LoadsTailOk(tail: seq<Instr>, e: ExpDesc, reg: int, n: int)
    requires Loads(tail, e, reg)
    ensures TailOk(tail, n, {}) && NewJumps(tail, n, {})
  {
  }

  lemma StepLoad(c0: seq<Instr>, j0: int, e0: ExpDesc, s: int, base: int, dst: int, tail: seq<Instr>, e1: ExpDesc,
                 k: seq<Value>)
    requires ExpState(c0, j0, e0, s) && Loads(tail, e0, e1.info) && (e1.info >= base || e1.info == dst)
    requires e1.k == VNONRELOC && e1.t == e0.t && e1.f == e0.f
    ensures Became(c0, j0, e0, Extended(c0, JS(c0, j0), tail), NO_JUMP, e1, s, base, dst, k)
  {
    var J0 := JS(c0, j0);
    var c1 := Extended(c0, J0, tail);
    LoadsTailOk(tail, e0, e1.info, |c0|);
    StateEmit(c0, j0, e0, s, tail, {});
    hide Loads, Extended, Good, Frame, JS, IsList, Pend, Aimed;
    assert JS(c0, e0.t) + {} == JS(c0, e0.t);
    assert {} + JS(c0, e0.t) + JS(c0, e0.f) + Held(e1) == JS(c0, e0.t) + JS(c0, e0.f) + {};
    forall env: Env, x, r, v | k <= env.k && Delivers(c0, j0, e0, base, -1, env, x, r, v)
      ensures Delivers(c1, NO_JUMP, e1, base, dst, env, x, r, v)
    {
      WidenDst(c0, J0, JS(c0, e0.t), JS(c0, e0.f), Val(e0), base, dst, env, x, r, v);
      Load(c0, J0, JS(c0, e0.t), JS(c0, e0.f), s, e0, base, dst, tail, e1, env, x, r, v);
    }
  }

  lemma WidenDst(c: seq<Instr>, J: set<int>, T: set<int>, F: set<int>, end: End, base: int, dst: int, env: Env, x: int,
                 r: Regs, v: Value)
    requires Good(c, J, T, F, end, base, -1, env, x, r, v)
    ensures Good(c, J, T, F, end, base, dst, env, x, r, v)
  {
    hide Run, Ends;
  }

  /** An instruction that waits for its register delivers the value. */
  lemma WaitsGood(c0: seq<Instr>, c1: seq<Instr>, T: set<int>, F: set<int>, e0: ExpDesc, e1: ExpDesc, i: Instr,
                  base: int, env: Env, x: int, r: Regs, v: Value, o: Stop, o2: Stop)
    requires e0.k == VUPVAL && i == GETUPVAL(0, e0.info)
    requires e1 == e0.(k := VRELOCABLE, info := |c0|) && |c1| == |c0| + 1 && c1[|c0|] == i
    requires o2 == Run(c1, {} + T + F + EndStop(Val(e1)), env, x, r) && Agree(r, o.r, base, -1)
    requires Exits(c0, T, o, v, true) ==> o2 == o && Exits(c1, T, o, v, true)
    requires Exits(c0, F, o, v, false) ==> o2 == o && Exits(c1, F, o, v, false)
    requires o.pc !in T + F ==> o2 == Stop(|c0|, o.r, false) && ValueAt(c0, e0, env, o.r) == v
    requires Exits(c0, T, o, v, true) || Exits(c0, F, o, v, false) || o.pc !in T + F
    ensures Good(c1, {}, T, F, Val(e1), base, -1, env, x, r, v)
  {
    hide Run, Agree, Exits;
    assert Op(c1, |c0|) == i;
  }

  lemma WaitsNegated(c0: seq<Instr>, c1: seq<Instr>, T: set<int>, F: set<int>, e0: ExpDesc, e1: ExpDesc, i: Instr,
                     base: int, env: Env, x: int, r: Regs, v: Value, o: Stop, o2: Stop)
    requires e0.k == VNONRELOC && i == NOT(0, e0.info)
    requires e1 == e0.(k := VRELOCABLE, info := |c0|) && |c1| == |c0| + 1 && c1[|c0|] == i
    requires o2 == Run(c1, {} + T + F + EndStop(Val(e1)), env, x, r) && Agree(r, o.r, base, -1)
    requires Exits(c0, T, o, v, true) ==> o2 == o && Exits(c1, T, o, v, true)
    requires Exits(c0, F, o, v, false) ==> o2 == o && Exits(c1, F, o, v, false)
    requires o.pc !in T + F ==> o2 == Stop(|c0|, o.r, false) && ValueAt(c0, e0, env, o.r) == v
    requires Exits(c0, T, o, v, true) || Exits(c0, F, o, v, false) || o.pc !in T + F
    ensures HalfNegated(c1, {}, T, F, e1, base, env, x, r, v)
  {
    hide Run, Agree, Exits;
    assert Op(c1, |c0|) == i;
  }

  /** Reading an upvalue: the instruction waits for its register. */
  lemma StepUpvalue(c0: seq<Instr>, j0: int, e0: ExpDesc, s: int, base: int, k: seq<Value>)
    requires ExpState(c0, j0, e0, s) && e0.k == VUPVAL
    ensures
      Became(c0, j0, e0, Extended(c0, JS(c0, j0), [GETUPVAL(0, e0.info)]), NO_JUMP,
             e0.(k := VRELOCABLE, info := |c0|), s, base, -1, k)
  {
    hide Extended, Frame, JS, IsList, Run, Agree, Exits, Aimed, Pend;
    var J0, T, F := JS(c0, j0), JS(c0, e0.t), JS(c0, e0.f);
    var tail := [GETUPVAL(0, e0.info)];
    var c1 := Extended(c0, J0, tail);
    var e1 := e0.(k := VRELOCABLE, info := |c0|);
    OneTailOk(tail[0], |c0|);
    StateEmit(c0, j0, e0, s, tail, {});
    assert c1[|c0|] == c1[|c0|..][0];
    assert T + {} == T && F + {} == F;
    assert {} + T + F + Held(e1) == T + F + {};
    forall env: Env, x, r, v | k <= env.k && Delivers(c0, j0, e0, base, -1, env, x, r, v)
      ensures Delivers(c1, NO_JUMP, e1, base, -1, env, x, r, v)
    {
      var o, o2 := EmitWaiting(c0, J0, T, F, s, e0, base, -1, tail, e1, env, x, r, v);
      WaitsGood(c0, c1, T, F, e0, e1, tail[0], base, env, x, r, v, o, o2);
    }
  }

  lemma StepSetRegister(c0: seq<Instr>, e0: ExpDesc, s: int, base: int, dst: int, e1: ExpDesc, k: seq<Value>)
    requires ExpState(c0, NO_JUMP, e0, s) && e0.k == VRELOCABLE && (e1.info >= base || e1.info == dst)
    requires e1.k == VNONRELOC && e1.t == e0.t && e1.f == e0.f
    ensures Became(c0, NO_JUMP, e0, c0[e0.info := SetA(c0[e0.info], e1.info)], NO_JUMP, e1, s, base, dst, k)
  {
    var T, F := JS(c0, e0.t), JS(c0, e0.f);
    var c1 := c0[e0.info := SetA(c0[e0.info], e1.info)];
    NoJump(c0);
    NoJump(c1);
    hide JS, IsList, Run, Good;
    forall p | p in T || p in F ensures Op(c1, p) == Op(c0, p) && Control(c1, p) == Control(c0, p) {
      assert Open(c0, p);
    }
    ListFrame(c0, c1, e0.t);
    ListFrame(c0, c1, e0.f);
    PendSetRegister(c0, T, F, s, c1);
    forall env: Env, x, r, v | k <= env.k && Delivers(c0, NO_JUMP, e0, base, -1, env, x, r, v)
      ensures Delivers(c1, NO_JUMP, e1, base, dst, env, x, r, v)
    {
      WidenDst(c0, {}, T, F, Val(e0), base, dst, env, x, r, v);
      SetRegister(c0, T, F, s, e0, base, dst, e1, env, x, r, v);
    }
  }

  lemma PendSetRegister(c0: seq<Instr>, T: set<int>, F: set<int>, s: int, c1: seq<Instr>)
    requires Pend(c0, {}, T, F, s) && 0 <= s < |c0| == |c1| && Relocatable(c0[|c0| - 1]) && Relocatable(c1[|c0| - 1])
    requires forall i :: 0 <= i < |c0| - 1 ==> c1[i] == c0[i]
    ensures Pend(c1, {}, T, F, s) && Frame(c0, {}, c1, {}, s)
  {
    var n := |c0| - 1;
    forall i | 0 <= i <= n
      ensures IsTest(c1[i]) ==> i + 1 <= n && c1[i + 1].JMP?
      ensures c1[i].LOADKX? ==> i + 1 <= n && c1[i + 1].EXTRAARG?
    {
      if i < n {
        assert c1[i] == c0[i];
      }
    }
    forall p | p in T || p in F ensures Open(c1, p) && Control(c1, p) == Control(c0, p) {
      assert Open(c0, p);
    }
    forall i | s <= i && Unset(c1, i) ensures i + 1 in T || i + 1 in F {
      assert Unset(c0, i);
    }
  }

  /** Code whose pending jumps hold other links. */
  ghost predicate Relinked(c0: seq<Instr>, c1: seq<Instr>, P: set<int>) {
    && |c0| == |c1|
    && forall i :: 0 <= i < |c0| && c1[i] != c0[i] ==> i in P && c0[i].JMP? && c1[i].JMP?
  }

  lemma PendRelink(c0: seq<Instr>, J: set<int>, T: set<int>, F: set<int>, s: int, c1: seq<Instr>, P: set<int>)
    requires Pend(c0, J, T, F, s) && Relinked(c0, c1, P)
    ensures Pend(c1, J, T, F, s)
  {
    forall i | 0 <= i < |c0|
      ensures IsTest(c1[i]) ==> i + 1 < |c1| && c1[i + 1].JMP?
      ensures c1[i].LOADKX? ==> i + 1 < |c1| && c1[i + 1].EXTRAARG?
    {
      assert c1[i] == c0[i] || c1[i].JMP?;
    }
    forall p | p in J || p in T || p in F
      ensures Open(c1, p) && (Control(c1, p) == Control(c0, p) || (Control(c1, p).JMP? && Control(c0, p).JMP?))
    {
      assert Open(c0, p);
    }
    forall i | s <= i && Unset(c1, i) ensures i + 1 in J || i + 1 in T || i + 1 in F {
      assert Unset(c0, i);
    }
  }

  lemma FrameRelink(c0: seq<Instr>, J: set<int>, c1: seq<Instr>, J1: set<int>, P: set<int>, s: int)
    requires Relinked(c0, c1, P) && 0 <= s <= |c0| && Jumps(c0, J) && Jumps(c0, J1) && J <= J1
    requires forall p :: p in P ==> p in J || p >= s
    requires forall p :: p in J1 ==> p in J || p > s
    ensures Frame(c0, J, c1, J1, s)
  {
    forall i | i in J && 0 <= i < s ensures c1[i].JMP? {
      assert Open(c0, i);
    }
  }

  // ---------- putting a value with pending exits into a register ----------

  lemma PendAdd(c0: seq<Instr>, T: set<int>, F: set<int>, s: int, p: int)
    requires Pend(c0, {}, T, F, s) && Open(c0, p) && s < p && IsTest(Control(c0, p)) && p !in T + F
    ensures Pend(c0, {}, T + {p}, F, s) && Pend(c0, {}, T, F + {p}, s)
  {
  }

  lemma SameConstant(c: seq<Instr>, J: set<int>, T: set<int>, F: set<int>, e: ExpDesc, e': ExpDesc, base: int, dst: int,
                     env: Env, x: int, r: Regs, v: Value)
    requires Good(c, J, T, F, Val(e), base, dst, env, x, r, v)
    requires e.k == e'.k && (e.k == VTRUE || e.k == VFALSE)
    ensures Good(c, J, T, F, Val(e'), base, dst, env, x, r, v)
  {
    hide Run, Agree;
  }

  lemma AimedRelink(c0: seq<Instr>, L: set<int>, s: int, c1: seq<Instr>, P: set<int>)
    requires Aimed(c0, L, s) && Relinked(c0, c1, P) && P <= L
    ensures Aimed(c1, L, s)
  {
    AimedKept(c0, L, c1, L, s);
  }

  /** The jump of a comparison joins the true list; falling through means false. */
  lemma StepClose(c0: seq<Instr>, e0: ExpDesc, s: int, base: int, dst: int, c1: seq<Instr>, t1: int, k: seq<Value>)
    requires ExpState(c0, NO_JUMP, e0, s) && e0.k == VJMP
    requires Relinked(c0, c1, JS(c0, e0.t) + {e0.info}) && IsList(c1, t1) && JS(c1, t1) == JS(c0, e0.t) + {e0.info}
    ensures Settled(c0, NO_JUMP, e0, c1, NO_JUMP, e0.(k := VFALSE, t := t1), s, base, dst, k)
  {
    hide JS, IsList, Run, Good, Aimed, Pend, Frame, Relinked, IsCondJump;
    var T, F := JS(c0, e0.t), JS(c0, e0.f);
    var e1 := e0.(k := VFALSE, t := t1);
    CloseState(c0, e0, s, c1);
    assert {} + (T + {e0.info}) + F == T + {e0.info} + F + {} == {} + (T + {e0.info}) + F + Held(e1);
    forall env: Env, x, r, v | k <= env.k && Delivers(c0, NO_JUMP, e0, base, dst, env, x, r, v)
      ensures Delivers(c1, NO_JUMP, e1, base, dst, env, x, r, v)
    {
      CloseJump(c0, T, F, s, e0, base, dst, false, env, x, r, v);
      SameConstant(c0, {}, T + {e0.info}, F, e0.(k := VFALSE), e1, base, dst, env, x, r, v);
      RelinkGood(c0, c1, {}, T + {e0.info}, F, s, Val(e1), base, dst, env, x, r, v);
    }
  }

  /** The structure of the code when the held jump joins the true list. */
  lemma CloseState(c0: seq<Instr>, e0: ExpDesc, s: int, c1: seq<Instr>)
    requires ExpState(c0, NO_JUMP, e0, s) && e0.k == VJMP && Relinked(c0, c1, JS(c0, e0.t) + {e0.info})
    ensures
      var T, F := JS(c0, e0.t), JS(c0, e0.f);
      && 0 <= s <= |c1| && IsCondJump(c0, e0) && e0.info !in T + F && JS(c0, NO_JUMP) == {} && IsList(c1, NO_JUMP)
      && JS(c1, NO_JUMP) == {}
      && IsList(c1, e0.f) && JS(c1, e0.f) == F
      && Pend(c0, {}, T, F, s) && Pend(c0, {}, T + {e0.info}, F, s) && Pend(c1, {}, T + {e0.info}, F, s)
      && Aimed(c1, {} + (T + {e0.info}) + F, s) && Frame(c0, {}, c1, {}, s)
      && Relinked(c0, c1, {} + (T + {e0.info}) + F)
  {
    var T, F := JS(c0, e0.t), JS(c0, e0.f);
    NoJump(c0);
    NoJump(c1);
    assert Control(c0, e0.info) == c0[e0.info - 1];
    AimedRelink(c0, {} + T + F + {e0.info}, s, c1, T + {e0.info});
    AimedMore(c1, {} + T + F + {e0.info}, {} + (T + {e0.info}) + F, s, s);
    hide JS, IsList, Aimed;
    forall p | p in F ensures Op(c1, p) == Op(c0, p) {
      assert Open(c0, p);
    }
    ListFrame(c0, c1, e0.f);
    PendAdd(c0, T, F, s, e0.info);
    PendRelink(c0, {}, T + {e0.info}, F, s, c1, T + {e0.info});
    FrameRelink(c0, {}, c1, {}, T + {e0.info}, s);
  }

  lemma RelinkGood(c0: seq<Instr>, c1: seq<Instr>, J: set<int>, T: set<int>, F: set<int>, s: int, end: End, base: int,
                   dst: int, env: Env, x: int, r: Regs, v: Value)
    requires Pend(c0, J, T, F, s) && Relinked(c0, c1, J + T + F) && EndStop(end) == {}
    requires Good(c0, J, T, F, end, base, dst, env, x, r, v)
    ensures Good(c1, J, T, F, end, base, dst, env, x, r, v)
  {
    hide Good, Run;
    forall p | p in J + T + F + EndStop(end) ensures 0 <= p < |c0| {
      assert Open(c0, p);
    }
    Relink(c0, c1, J, T, F, end, base, dst, env, x, r, v);
  }

  lemma ListAppend(c: seq<Instr>, tail: seq<Instr>, h: int)
    requires IsList(c, h)
    ensures IsList(c + tail, h) && JS(c + tail, h) == JS(c, h)
  {
    hide IsList, JS;
    InBounds(c, h);
    ListFrame(c, c + tail, h);
  }

  /** The two instructions that load a boolean, and the jump over them. */
  function BoolTail(reg: int): seq<Instr> {
    [LOADBOOL(reg, false, true), LOADBOOL(reg, true, false)]
  }

  lemma BoolTailOk(reg: int, n: int)
    ensures TailOk(BoolTail(reg), n, {}) && NewJumps(BoolTail(reg), n, {})
  {
  }

  lemma ExtendedNone(c: seq<Instr>, tail: seq<Instr>)
    ensures Extended(c, {}, tail) == c + tail
  {
    PatchedNone(c, |c|, NO_REG, |c|);
  }

  /** The value is in its register: jump over the two loads. */
  lemma StepHold(c0: seq<Instr>, j0: int, e0: ExpDesc, s: int, base: int, dst: int, link: int, j1: int, c1: seq<Instr>,
                 k: seq<Value>)
    requires ExpState(c0, j0, e0, s) && e0.k == VNONRELOC
    requires c1 == c0 + ([JMP(link)] + BoolTail(e0.info)) && IsList(c1, j1) && JS(c1, j1) == {|c0|} + JS(c0, j0)
    ensures Settled(c0, j0, e0, c1, j1, e0, s, base, dst, k)
  {
    var J, T, F := JS(c0, j0), JS(c0, e0.t), JS(c0, e0.f);
    var tail := [JMP(link)] + BoolTail(e0.info);
    hide JS, IsList, Run, Good, Pend, Frame;
    ListAppend(c0, tail, e0.t);
    ListAppend(c0, tail, e0.f);
    PendHold(c0, J, T, F, s, tail);
    AimedHold(c0, J + T + F + Held(e0), s, tail);
    AimedMore(c1, J + T + F + Held(e0) + {|c0|}, {|c0|} + J + T + F + Held(e0), s, s);
    forall env: Env, x, r, v | k <= env.k && Delivers(c0, j0, e0, base, dst, env, x, r, v)
      ensures Delivers(c1, j1, e0, base, dst, env, x, r, v)
    {
      HoldGood(c0, J, T, F, s, e0, tail, base, dst, env, x, r, v);
    }
  }

  lemma AimedHold(c0: seq<Instr>, L: set<int>, s: int, tail: seq<Instr>)
    requires Aimed(c0, L, s) && |tail| == 3 && tail[1].LOADBOOL? && tail[2].LOADBOOL?
    ensures Aimed(c0 + tail, L + {|c0|}, s)
  {
  }

  lemma PendHold(c0: seq<Instr>, J: set<int>, T: set<int>, F: set<int>, s: int, tail: seq<Instr>)
    requires Pend(c0, J, T, F, s) && 0 <= s <= |c0| && |tail| == 3
    requires tail[0].JMP? && tail[1].LOADBOOL? && tail[2].LOADBOOL?
    ensures Pend(c0 + tail, {|c0|} + J, T, F, s) && Frame(c0, J, c0 + tail, {|c0|} + J, s)
  {
    var c1 := c0 + tail;
    var n := |c0|;
    PairedConcat(c0, tail);
    forall i | 0 <= i < n ensures c1[i] == c0[i] {}
    assert c1[n] == tail[0] && c1[n + 1] == tail[1] && c1[n + 2] == tail[2];
    forall p | p in T || p in F || p in J
      ensures Op(c1, p) == Op(c0, p) && Control(c1, p) == Control(c0, p) && Open(c1, p)
    {
      assert Open(c0, p);
    }
    assert !IsTest(Control(c1, n));
    forall i | s <= i && Unset(c1, i) ensures i + 1 in J || i + 1 in T || i + 1 in F {
      assert Unset(c0, i);
    }
    forall i | 0 <= i < s && Unset(c1, i) ensures Unset(c0, i) {}
    forall i | i in J && 0 <= i < s ensures c1[i].JMP? {
      assert Open(c0, i);
    }
  }

  lemma HoldGood(c0: seq<Instr>, J: set<int>, T: set<int>, F: set<int>, s: int, e: ExpDesc, tail: seq<Instr>, base: int,
                 dst: int, env: Env, x: int, r: Regs, v: Value)
    requires Pend(c0, J, T, F, s) && e.k == VNONRELOC && |tail| > 0 && 0 <= s
    requires Good(c0, J, T, F, Val(e), base, dst, env, x, r, v)
    ensures Good(c0 + tail, {|c0|} + J, T, F, Val(e), base, dst, env, x, r, v)
  {
    hide Run, Step, Agree;
    var c1 := c0 + tail;
    var E := J + T + F + EndStop(Val(e));
    var P := {|c0|} + J + T + F + EndStop(Val(e));
    assert P == E + {|c0|};
    forall p | p in E ensures 0 <= p < |c0| {
      assert Open(c0, p);
    }
    var o := Run(c0, E, env, x, r);
    Append(c0, E, tail, {|c0|}, env, x, r);
    RunPending(c1, P, env, o.pc, o.r);
    if o.pc in T + F {
      assert Control(c1, o.pc) == Control(c0, o.pc);
    }
  }

  /** A false value at the end of the code is loaded, skipping the load of true. */
  lemma StepSkip(c0: seq<Instr>, e0: ExpDesc, s: int, base: int, dst: int, e1: ExpDesc, k: seq<Value>)
    requires ExpState(c0, NO_JUMP, e0, s) && e0.k == VFALSE && (e1.info >= base || e1.info == dst)
    requires e1.k == VNONRELOC && e1.t == e0.t && e1.f == e0.f
    ensures Settled(c0, NO_JUMP, e0, c0 + BoolTail(e1.info), NO_JUMP, e1, s, base, dst, k)
  {
    hide Extended, Frame, JS, IsList, Pend, Run, Good, TailOk, BoolTail;
    NoJump(c0);
    var T, F := JS(c0, e0.t), JS(c0, e0.f);
    var tail := BoolTail(e1.info);
    var c1 := Extended(c0, {}, tail);
    ExtendedNone(c0, tail);
    BoolTailOk(e1.info, |c0|);
    StateEmit(c0, NO_JUMP, e0, s, tail, {});
    assert T + {} == T && F + {} == F;
    forall env: Env, x, r, v | k <= env.k && Delivers(c0, NO_JUMP, e0, base, dst, env, x, r, v)
      ensures Delivers(c1, NO_JUMP, e1, base, dst, env, x, r, v)
    {
      SkipGood(c0, T, F, s, e0, base, dst, e1, env, x, r, v);
    }
  }

  lemma SkipGood(c0: seq<Instr>, T: set<int>, F: set<int>, s: int, e0: ExpDesc, base: int, dst: int, e1: ExpDesc,
                 env: Env, x: int, r: Regs, v: Value)
    requires Pend(c0, {}, T, F, s) && Good(c0, {}, T, F, Val(e0), base, dst, env, x, r, v)
    requires 0 <= s && e0.k == VFALSE && e1.k == VNONRELOC && (e1.info >= base || e1.info == dst)
    ensures Good(Extended(c0, {}, BoolTail(e1.info)), {}, T, F, Val(e1), base, dst, env, x, r, v)
  {
    hide Run, Step;
    var tail := BoolTail(e1.info);
    var c1 := Extended(c0, {}, tail);
    var o, o2 := EmitGood(c0, {}, T, F, s, Val(e0), base, dst, tail, {}, env, x, r, v);
    assert {} + T + F + EndStop(Val(e1)) == T + F + {};
    if o.pc !in T + F {
      assert c1[|c0|] == tail[0];
      forall p | p in T + F ensures p < |c0| {
        assert Open(c0, p);
      }
      BoolRun(c1, T + F + {}, env, |c0|, e1.info, false, o.r);
    }
  }

  /** Patching one of the two lists: its exits end with the value in the register. */
  lemma StepSettle(c0: seq<Instr>, j0: int, e0: ExpDesc, s: int, base: int, dst: int, b: bool, d: int, k: seq<Value>)
    requires ExpState(c0, j0, e0, s) && e0.k == VNONRELOC && (e0.info >= base || e0.info == dst) && e0.info != NO_REG
    requires Settles(c0, JS(c0, if b then e0.t else e0.f), JS(c0, j0) + JS(c0, e0.t) + JS(c0, e0.f), b, e0.info, d)
    ensures
      var e1 := if b then e0.(t := NO_JUMP) else e0.(f := NO_JUMP);
      var c1 := Patched(c0, JS(c0, if b then e0.t else e0.f), |c0|, e0.info, d);
      && Settled(c0, j0, e0, c1, j0, e1, s, base, dst, k) && JS(c1, j0) == JS(c0, j0)
      && (b ==> JS(c1, e0.f) == JS(c0, e0.f)) && (!b ==> JS(c1, e0.t) == JS(c0, e0.t))
  {
    hide JS, IsList, Run, Good, Settles, Paired;
    var J, T, F := JS(c0, j0), JS(c0, e0.t), JS(c0, e0.f);
    var L, M := if b then T else F, if b then F else T;
    var c1 := Patched(c0, L, |c0|, e0.info, d);
    var e1 := if b then e0.(t := NO_JUMP) else e0.(f := NO_JUMP);
    PatchedPaired(c0, L, |c0|, e0.info, d);
    NoJump(c1);
    PatchList(c0, L, |c0|, e0.info, d, j0);
    PatchList(c0, L, |c0|, e0.info, d, if b then e0.f else e0.t);
    PendSettle(c0, J, T, F, s, b, e0.info, d);
    SettlesForward(c0, L, J + T + F, b, e0.info, d);
    AimedPatch(c0, J + T + F + Held(e0), L, |c0|, e0.info, d, s);
    AimedMore(c1, J + T + F + Held(e0) - L, J + JS(c1, e1.t) + JS(c1, e1.f) + Held(e1), s, s);
    hide Aimed;
    forall env: Env, x, r, v | k <= env.k && Delivers(c0, j0, e0, base, dst, env, x, r, v)
      ensures Delivers(c1, j0, e1, base, dst, env, x, r, v)
    {
      Settle(c0, J, T, F, s, b, e0, d, base, dst, env, x, r, v);
      SameRegister(c1, J, if b then {} else T, if b then F else {}, e0, e1, base, dst, env, x, r, v);
    }
  }

  lemma SettlesForward(c: seq<Instr>, L: set<int>, P: set<int>, b: bool, reg: int, d: int)
    requires Settles(c, L, P, b, reg, d)
    ensures forall p :: p in L ==> Control(c, p).TESTSET? || p < d < |c|
  {
  }

  lemma AimedPatch(c0: seq<Instr>, L0: set<int>, L: set<int>, vt: int, reg: int, dt: int, s: int)
    requires Aimed(c0, L0, s) && vt == |c0| && forall p :: p in L ==> Control(c0, p).TESTSET? || p < dt < |c0|
    ensures Aimed(Patched(c0, L, vt, reg, dt), L0 - L, s)
  {
    var c1 := Patched(c0, L, vt, reg, dt);
    forall i | 0 <= i < |c1| ensures c1[i] == c1[i] {}
  }

  lemma SameRegister(c: seq<Instr>, J: set<int>, T: set<int>, F: set<int>, e: ExpDesc, e': ExpDesc, base: int, dst: int,
                     env: Env, x: int, r: Regs, v: Value)
    requires Good(c, J, T, F, Val(e), base, dst, env, x, r, v)
    requires e.k == e'.k == VNONRELOC && e.info == e'.info
    ensures Good(c, J, T, F, Val(e'), base, dst, env, x, r, v)
  {
    hide Run, Agree;
  }

  lemma PatchList(c0: seq<Instr>, L: set<int>, vt: int, reg: int, d: int, h: int)
    requires IsList(c0, h) && JS(c0, h) !! L && Jumps(c0, JS(c0, h))
    ensures
      var c1 := Patched(c0, L, vt, reg, d);
      IsList(c1, h) && JS(c1, h) == JS(c0, h)
  {
    hide JS, IsList;
    var c1 := Patched(c0, L, vt, reg, d);
    forall p | p in JS(c0, h) ensures Op(c0, p) == Op(c1, p) {
      assert Open(c0, p);
      assert c1[p] == c0[p];
    }
    ListFrame(c0, c1, h);
  }

  lemma PendSettle(c0: seq<Instr>, J: set<int>, T: set<int>, F: set<int>, s: int, b: bool, reg: int, d: int)
    requires Pend(c0, J, T, F, s) && 0 <= s <= |c0| && reg != NO_REG
    ensures
      var c1 := Patched(c0, if b then T else F, |c0|, reg, d);
      && Pend(c1, J, if b then {} else T, if b then F else {}, s)
      && Frame(c0, J, c1, J, s)
  {
    hide Paired;
    var L := if b then T else F;
    var c1 := Patched(c0, L, |c0|, reg, d);
    PatchedPaired(c0, L, |c0|, reg, d);
    forall i | 0 <= i < |c0| && i !in L && i + 1 !in L ensures c1[i] == c0[i] {}
    forall p | p in J || p in T || p in F
      ensures p !in L ==> Open(c1, p) && (IsTest(Control(c0, p)) ==> Control(c1, p) == Control(c0, p))
    {
      assert Open(c0, p);
      if p !in L {
        assert c1[p] == c0[p];
        if p > 0 {
          assert p - 1 in L ==> Open(c0, p - 1);
          assert c1[p - 1] == if p - 1 in L then c1[p - 1] else c0[p - 1];
        }
      }
    }
    forall i | 0 <= i && Unset(c1, i) ensures Unset(c0, i) && i + 1 !in L {
      assert c1[i] == c1[i];
    }
    forall i | i in J && 0 <= i < s ensures c1[i].JMP? {
      assert Open(c0, i);
      assert c1[i] == c0[i];
    }
  }

  lemma StateJump(c: seq<Instr>, e: ExpDesc, s: int)
    requires ExpState(c, NO_JUMP, e, s) && e.k == VJMP
    ensures IsList(c, e.info) && JS(c, e.info) == {e.info} && e.info !in JS(c, e.t) && e.info !in JS(c, e.f)
    ensures JS(c, e.t) !! JS(c, e.info) && !Control(c, e.info).TESTSET?
  {
    NewJump(c, e.info);
  }

  lemma SettledTrans(c0: seq<Instr>, j0: int, e0: ExpDesc, c1: seq<Instr>, j1: int, e1: ExpDesc, c2: seq<Instr>,
                     j2: int, e2: ExpDesc, s: int, base: int, dst: int, k: seq<Value>)
    requires ExpState(c0, j0, e0, s)
    requires Settled(c0, j0, e0, c1, j1, e1, s, base, dst, k) && Settled(c1, j1, e1, c2, j2, e2, s, base, dst, k)
    ensures Settled(c0, j0, e0, c2, j2, e2, s, base, dst, k)
  {
    hide Delivers, Frame, JS, IsList;
    forall j | j in JS(c0, j0) ensures j < |c0| && Op(c0, j).JMP? {
      assert Open(c0, j);
    }
    FrameTrans(c0, JS(c0, j0), c1, JS(c1, j1), c2, JS(c2, j2), s);
  }

  /** After the two loads, every exit has somewhere to go. */
  lemma SettlesBool(c0: seq<Instr>, reg: int, c1: seq<Instr>, L: set<int>, P: set<int>, b: bool)
    requires |c1| >= |c0| + 2 && c1[|c1| - 2..] == BoolTail(reg)
    requires forall p :: p in P ==> p < |c1| - 2
    requires L <= P
    ensures Settles(c1, L, P, b, reg, if b then |c1| - 1 else |c1| - 2)
  {
    assert c1[|c1| - 2] == BoolTail(reg)[0] && c1[|c1| - 1] == BoolTail(reg)[1];
  }

  lemma StateBounds(c: seq<Instr>, j: int, e: ExpDesc, s: int)
    requires ExpState(c, j, e, s)
    ensures 0 <= s <= |c| && IsList(c, j) && IsList(c, e.t) && IsList(c, e.f)
    ensures forall p :: p in JS(c, j) || p in JS(c, e.t) || p in JS(c, e.f) ==> 0 <= p < |c|
  {
    InBounds(c, j);
    InBounds(c, e.t);
    InBounds(c, e.f);
  }

  /** Loads of booleans are where they were. */
  predicate SameLoads(c0: seq<Instr>, c1: seq<Instr>) {
    |c1| == |c0| && forall i :: 0 <= i < |c0| && c0[i].LOADBOOL? ==> c1[i] == c0[i]
  }

  lemma PatchedLoads(c: seq<Instr>, L: set<int>, vt: int, reg: int, d: int)
    requires Jumps(c, L)
    ensures SameLoads(c, Patched(c, L, vt, reg, d))
  {
    forall i | 0 <= i < |c| && c[i].LOADBOOL? ensures Patched(c, L, vt, reg, d)[i] == c[i] {
      assert i in L ==> Open(c, i);
    }
  }

  lemma SameLoadsTrans(c0: seq<Instr>, c1: seq<Instr>, c2: seq<Instr>)
    requires SameLoads(c0, c1) && SameLoads(c1, c2)
    ensures SameLoads(c0, c2)
  {
  }

  lemma SameLoadsTail(c0: seq<Instr>, c1: seq<Instr>, reg: int)
    requires SameLoads(c0, c1)
    ensures |c1| == |c0| && (|c0| >= 2 && c0[|c0| - 2..] == BoolTail(reg) ==> c1[|c1| - 2..] == BoolTail(reg))
  {
    if |c0| >= 2 && c0[|c0| - 2..] == BoolTail(reg) {
      assert c0[|c0| - 2] == c0[|c0| - 2..][0] && c0[|c0| - 1] == c0[|c0| - 2..][1];
    }
  }

  lemma RelinkedNone(c0: seq<Instr>, c1: seq<Instr>)
    requires Relinked(c0, c1, {})
    ensures c0 == c1
  {
  }

  ghost predicate NeedsLoad(code: seq<Instr>, L: set<int>) {
    exists p :: p in L && !Control(code, p).TESTSET?
  }

  lemma NoLoadSettles(c: seq<Instr>, L: set<int>, P: set<int>, b: bool, reg: int, d: int)
    requires !NeedsLoad(c, L)
    ensures Settles(c, L, P, b, reg, d)
  {
  }

  lemma SettlesTarget(c: seq<Instr>, L: set<int>, P: set<int>, b: bool, reg: int, d: int)
    requires Settles(c, L, P, b, reg, d)
    ensures forall p :: p in L ==> Control(c, p).TESTSET? || 0 <= d < |c|
  {
  }

  lemma SettlesAfter(c0: seq<Instr>, J: set<int>, T: set<int>, F: set<int>, reg: int, pf: int, pt: int)
    requires Settles(c0, T, J + T + F, true, reg, pt) && T !! F && Tested(c0, T, 0) && Jumps(c0, T) && Jumps(c0, F)
    ensures
      var c1 := Patched(c0, F, |c0|, reg, pf);
      Settles(c1, T, J + T + {}, true, reg, pt)
  {
    var c1 := Patched(c0, F, |c0|, reg, pf);
    forall p | p in T
      ensures Control(c1, p).TESTSET? || (p < pt && pt !in J + T + {} && LoadsBool(c1, pt, reg, true))
    {
      assert Open(c0, p);
      if Control(c0, p).TESTSET? {
        assert p - 1 in F ==> Open(c0, p - 1);
        assert c1[p - 1] == c0[p - 1];
      } else {
        assert c1[pt] == c0[pt];
      }
    }
  }

  lemma SettledState(c0: seq<Instr>, j0: int, e0: ExpDesc, c1: seq<Instr>, j1: int, e1: ExpDesc, s: int, base: int,
                     dst: int, k: seq<Value>)
    requires Settled(c0, j0, e0, c1, j1, e1, s, base, dst, k)
    ensures ExpState(c1, j1, e1, s)
  {
  }

  lemma SettledSame(c: seq<Instr>, j: int, e: ExpDesc, s: int, base: int, dst: int, k: seq<Value>)
    requires ExpState(c, j, e, s)
    ensures Settled(c, j, e, c, j, e, s, base, dst, k)
  {
    hide Delivers, JS, IsList;
    FrameSame(c, JS(c, j), s);
  }

  lemma HasJumps(c: seq<Instr>, j: int, e: ExpDesc, s: int)
    requires ExpState(c, j, e, s)
    ensures e.t == e.f ==> e.t == NO_JUMP && !NeedsLoad(c, JS(c, e.t))
  {
    if e.t == e.f {
      EmptyList(c, e.t);
    }
  }

  lemma StateTested(c: seq<Instr>, j: int, e: ExpDesc, s: int)
    requires ExpState(c, j, e, s)
    ensures Tested(c, JS(c, e.t), 0) && Jumps(c, JS(c, e.t)) && Jumps(c, JS(c, e.f)) && Jumps(c, JS(c, j))
  {
  }

  lemma RelinkedControl(c0: seq<Instr>, c1: seq<Instr>, P: set<int>, p: int)
    requires Relinked(c0, c1, P) && 0 <= p < |c0| && !Control(c0, p).TESTSET?
    ensures !Control(c1, p).TESTSET?
    ensures forall L :: p in L ==> NeedsLoad(c1, L)
  {
  }

  // ---------- conditional jumps ----------

  /** The code goes on when the value of `e0` is `b`, and jumps out by the lists `t`
      and `f` or by the new jumps `pc` when it is not. */
  ghost predicate Branched(c0: seq<Instr>, j0: int, e0: ExpDesc, c1: seq<Instr>, j1: int, t: int, f: int, pc: int,
                           b: bool, s: int, base: int, k: seq<Value>) {
    && 0 <= s <= |c1| && IsList(c1, j1) && IsList(c1, t) && IsList(c1, f) && IsList(c1, pc)
    && JS(c1, pc) !! JS(c1, t) && JS(c1, pc) !! JS(c1, f) && JS(c1, pc) !! JS(c1, j1)
    && Pend(c1, JS(c1, j1), JS(c1, t) + (if b then {} else JS(c1, pc)), JS(c1, f) + (if b then JS(c1, pc) else {}), s)
    && Aimed(c1, JS(c1, j1) + JS(c1, t) + JS(c1, f) + JS(c1, pc), s)
    && Frame(c0, JS(c0, j0), c1, JS(c1, j1), s)
    && forall env: Env, x, r, v :: k <= env.k && Delivers(c0, j0, e0, base, -1, env, x, r, v) ==>
         Good(c1, JS(c1, j1), JS(c1, t) + (if b then {} else JS(c1, pc)), JS(c1, f) + (if b then JS(c1, pc) else {}),
           Thru(b), base, -1, env, x, r, v)
  }

  /** The same with every jump on its list; the exits on the value `b` are closed. */
  ghost predicate GoesOn(c0: seq<Instr>, j0: int, e0: ExpDesc, c1: seq<Instr>, j1: int, t: int, f: int, b: bool,
                         s: int, base: int, k: seq<Value>) {
    && 0 <= s <= |c1| && IsList(c1, j1) && IsList(c1, t) && IsList(c1, f)
    && (if b then t else f) == NO_JUMP
    && Pend(c1, JS(c1, j1), JS(c1, t), JS(c1, f), s)
    && Aimed(c1, JS(c1, j1) + JS(c1, t) + JS(c1, f), s)
    && Frame(c0, JS(c0, j0), c1, JS(c1, j1), s)
    && forall env: Env, x, r, v :: k <= env.k && Delivers(c0, j0, e0, base, -1, env, x, r, v) ==>
         Good(c1, JS(c1, j1), JS(c1, t), JS(c1, f), Thru(b), base, -1, env, x, r, v)
  }

  predicate AlwaysIs(e: ExpDesc, b: bool) {
    if b then e.k == VK || e.k == VKINT || e.k == VTRUE else e.k == VNIL || e.k == VFALSE
  }

  /** Constants that are never nil or false. */
  predicate TrueConstants(k: seq<Value>, e: ExpDesc) {
    e.k == VK ==> 0 <= e.info < |k| && Truthy(k[e.info])
  }

  lemma StepConstant(c: seq<Instr>, j: int, e: ExpDesc, b: bool, s: int, base: int, k: seq<Value>)
    requires ExpState(c, j, e, s) && AlwaysIs(e, b) && TrueConstants(k, e)
    ensures Branched(c, j, e, c, j, e.t, e.f, NO_JUMP, b, s, base, k)
  {
    NoJump(c);
    var J, T, F := JS(c, j), JS(c, e.t), JS(c, e.f);
    hide JS, IsList, Run, Agree;
    FrameSame(c, J, s);
    assert T + {} == T && F + {} == F;
    assert T + (if b then {} else JS(c, NO_JUMP)) == T && F + (if b then JS(c, NO_JUMP) else {}) == F;
    forall env: Env, x, r, v | k <= env.k && Delivers(c, j, e, base, -1, env, x, r, v)
      ensures Good(c, J, T, F, Thru(b), base, -1, env, x, r, v)
    {
      assert forall r': Regs :: Truthy(ValueAt(c, e, env, r')) == b;
    }
  }

  lemma StepCompare(c0: seq<Instr>, e: ExpDesc, b: bool, s: int, base: int, k: seq<Value>)
    requires ExpState(c0, NO_JUMP, e, s) && e.k == VJMP
    ensures
      var c1 := if b then c0[e.info - 1 := Flip(c0[e.info - 1])] else c0;
      Branched(c0, NO_JUMP, e, c1, NO_JUMP, e.t, e.f, e.info, b, s, base, k)
  {
    hide JS, IsList, Run, Good, Aimed, Pend, Frame, Paired;
    var c1 := if b then c0[e.info - 1 := Flip(c0[e.info - 1])] else c0;
    var T, F := JS(c0, e.t), JS(c0, e.f);
    FlipState(c0, e, b, s);
    assert T + {} == T && F + {} == F && {} + T + F + {e.info} == T + F + {e.info};
    forall env: Env, x, r, v | k <= env.k && Delivers(c0, NO_JUMP, e, base, -1, env, x, r, v)
      ensures Good(c1, {}, T + (if b then {} else {e.info}), F + (if b then {e.info} else {}), Thru(b), base, -1,
        env, x, r, v)
    {
      CloseJump(c0, T, F, s, e, base, -1, b, env, x, r, v);
    }
  }

  /** The structure of the code when the pending comparison is negated, or kept. */
  lemma FlipState(c0: seq<Instr>, e: ExpDesc, b: bool, s: int)
    requires ExpState(c0, NO_JUMP, e, s) && e.k == VJMP
    ensures
      var c1 := if b then c0[e.info - 1 := Flip(c0[e.info - 1])] else c0;
      var T, F := JS(c0, e.t), JS(c0, e.f);
      && 0 < e.info < |c0| && |c1| == |c0| && IsCondJump(c1, e) && c1[e.info] == JMP(NO_JUMP) && s <= e.info - 1
      && e.info !in T + F
      && JS(c0, NO_JUMP) == {} && IsList(c1, NO_JUMP) && JS(c1, NO_JUMP) == {} && IsList(c1, e.info)
      && JS(c1, e.info) == {e.info}
      && IsList(c1, e.t) && JS(c1, e.t) == T && IsList(c1, e.f) && JS(c1, e.f) == F
      && Pend(c0, {}, T, F, s) && Pend(c1, {}, T, F, s)
      && Pend(c1, {}, T + (if b then {} else {e.info}), F + (if b then {e.info} else {}), s)
      && Frame(c0, {}, c1, {}, s) && Aimed(c1, T + F + {e.info}, s)
  {
    var c1 := if b then c0[e.info - 1 := Flip(c0[e.info - 1])] else c0;
    var T, F := JS(c0, e.t), JS(c0, e.f);
    StateWaits(c0, NO_JUMP, e, s);
    NoJump(c0);
    NoJump(c1);
    NewJump(c1, e.info);
    AimedFlip(c0, T + F + {e.info}, s, e);
    hide JS, IsList, Aimed;
    PendFlip(c0, T, F, s, e, b);
    forall p | p in T || p in F ensures Op(c1, p) == Op(c0, p) {
      assert Open(c0, p);
    }
    ListFrame(c0, c1, e.t);
    ListFrame(c0, c1, e.f);
  }

  lemma AimedFlip(c0: seq<Instr>, L: set<int>, s: int, e: ExpDesc)
    requires Aimed(c0, L, s) && IsCondJump(c0, e)
    ensures Aimed(c0[e.info - 1 := Flip(c0[e.info - 1])], L, s)
  {
  }

  lemma PendFlip(c0: seq<Instr>, T: set<int>, F: set<int>, s: int, e: ExpDesc, b: bool)
    requires Pend(c0, {}, T, F, s) && IsCondJump(c0, e) && 0 <= s <= e.info - 1 && e.info !in T + F
    ensures
      var c1 := if b then c0[e.info - 1 := Flip(c0[e.info - 1])] else c0;
      && Pend(c1, {}, T, F, s)
      && Pend(c1, {}, T + (if b then {} else {e.info}), F + (if b then {e.info} else {}), s)
      && Frame(c0, {}, c1, {}, s)
  {
    var c1 := if b then c0[e.info - 1 := Flip(c0[e.info - 1])] else c0;
    forall i | 0 <= i < |c0|
      ensures IsTest(c1[i]) ==> i + 1 < |c0| && c1[i + 1].JMP?
      ensures c1[i].LOADKX? ==> i + 1 < |c0| && c1[i + 1].EXTRAARG?
    {
      if i != e.info - 1 {
        assert c1[i] == c0[i];
      }
    }
    forall p | p in T || p in F ensures Open(c1, p) && Control(c1, p) == Control(c0, p) {
      assert Open(c0, p);
    }
    forall i | s <= i && Unset(c1, i) ensures i + 1 in T || i + 1 in F {
      assert Unset(c0, i);
    }
    assert Open(c1, e.info) && IsTest(Control(c1, e.info));
  }

  lemma TestTailOk(i: Instr, n: int)
    requires (i.TESTSET? && i.a == NO_REG != i.b) || i.TEST?
    ensures TailOk([i, JMP(NO_JUMP)], n, {n + 1})
  {
  }

  lemma StepTestJump(c0: seq<Instr>, j0: int, e: ExpDesc, cond: bool, s: int, base: int, k: seq<Value>)
    requires ExpState(c0, j0, e, s) && e.k == VNONRELOC && e.info != NO_REG
    ensures
      var c1 := Extended(c0, JS(c0, j0), [TESTSET(NO_REG, e.info, cond), JMP(NO_JUMP)]);
      Branched(c0, j0, e, c1, NO_JUMP, e.t, e.f, |c0| + 1, !cond, s, base, k)
  {
    var J0, T, F := JS(c0, j0), JS(c0, e.t), JS(c0, e.f);
    var tail := [TESTSET(NO_REG, e.info, cond), JMP(NO_JUMP)];
    var c1 := Extended(c0, J0, tail);
    var p := |c0| + 1;
    StateBounds(c0, j0, e, s);
    TestTailOk(tail[0], |c0|);
    StateEmit(c0, j0, e, s, tail, {p});
    assert c1[p] == c1[|c0|..][1];
    NewJump(c1, p);
    hide JS, IsList, Run, Good, Extended, Pend, Frame, Aimed;
    assert T + {} == T && F + {} == F;
    assert {} + T + F + {p} == T + F + {p};
    forall env: Env, x, r, v | k <= env.k && Delivers(c0, j0, e, base, -1, env, x, r, v)
      ensures Good(c1, {}, T + (if !cond then {} else {p}), F + (if !cond then {p} else {}), Thru(!cond), base, -1,
        env, x, r, v)
    {
      TestJump(c0, J0, T, F, s, e, base, -1, cond, env, x, r, v);
    }
  }

  lemma StepNotTestJump(c0: seq<Instr>, e: ExpDesc, cond: bool, s: int, base: int, k: seq<Value>)
    requires ExpState(c0, NO_JUMP, e, s) && e.k == VRELOCABLE && c0[e.info].NOT?
    ensures
      var c1 := c0[..|c0| - 1] + [TEST(c0[e.info].b, !cond), JMP(NO_JUMP)];
      Branched(c0, NO_JUMP, e, c1, NO_JUMP, e.t, e.f, |c0|, !cond, s, base, k)
  {
    var T, F := JS(c0, e.t), JS(c0, e.f);
    var b := c0[e.info].b;
    var c1 := c0[..|c0| - 1] + [TEST(b, !cond), JMP(NO_JUMP)];
    var p := |c0|;
    StateBounds(c0, NO_JUMP, e, s);
    NoJump(c0);
    NoJump(c1);
    NewJump(c1, p);
    hide JS, IsList, Run, Good;
    forall q | q in T || q in F ensures Op(c1, q) == Op(c0, q) {
      assert Open(c0, q);
    }
    ListFrame(c0, c1, e.t);
    ListFrame(c0, c1, e.f);
    PendNotTest(c0, T, F, s, TEST(b, !cond));
    assert T + {} == T && F + {} == F;
    forall env: Env, x, r, v | k <= env.k && Delivers(c0, NO_JUMP, e, base, -1, env, x, r, v)
      ensures Good(c1, {}, T + (if !cond then {} else {p}), F + (if !cond then {p} else {}), Thru(!cond), base, -1,
        env, x, r, v)
    {
      NotTestJump(c0, T, F, s, e, base, -1, cond, b, env, x, r, v);
    }
  }

  lemma PendNotTest(c0: seq<Instr>, T: set<int>, F: set<int>, s: int, i: Instr)
    requires Pend(c0, {}, T, F, s) && 0 <= s < |c0| && c0[|c0| - 1].NOT? && i.TEST?
    ensures
      var c1 := c0[..|c0| - 1] + [i, JMP(NO_JUMP)];
      Pend(c1, {}, T + {|c0|}, F, s) && Pend(c1, {}, T, F + {|c0|}, s) && Frame(c0, {}, c1, {}, s)
  {
    var n := |c0| - 1;
    var c1 := c0[..n] + [i, JMP(NO_JUMP)];
    forall q | 0 <= q < |c1|
      ensures IsTest(c1[q]) ==> q + 1 < |c1| && c1[q + 1].JMP?
      ensures c1[q].LOADKX? ==> q + 1 < |c1| && c1[q + 1].EXTRAARG?
    {
      if q < n {
        assert c1[q] == c0[q];
      }
    }
    forall p | p in T || p in F ensures Open(c1, p) && Control(c1, p) == Control(c0, p) && p != |c0| {
      assert Open(c0, p);
    }
    forall q | s <= q && Unset(c1, q) ensures q + 1 in T || q + 1 in F {
      assert Unset(c0, q);
    }
    assert Open(c1, |c0|) && Control(c1, |c0|) == i;
  }

  /** Linking the new jump and closing the exits on `b`. */
  lemma StepGoOn(c0: seq<Instr>, j0: int, e0: ExpDesc, c1: seq<Instr>, j1: int, t: int, f: int, pc: int, b: bool,
                 c2: seq<Instr>, l2: int, c3: seq<Instr>, j3: int, s: int, base: int, k: seq<Value>)
    requires Jumps(c0, JS(c0, j0)) && Branched(c0, j0, e0, c1, j1, t, f, pc, b, s, base, k)
    requires
      var L, M := JS(c1, if b then f else t), JS(c1, if b then t else f);
      && Relinked(c1, c2, L) && Relinked(c2, c3, JS(c1, j1))
      && IsList(c3, l2) && JS(c3, l2) == L + JS(c1, pc)
      && IsList(c3, j3) && JS(c3, j3) == JS(c1, j1) + M
    ensures GoesOn(c0, j0, e0, c3, j3, if b then NO_JUMP else l2, if b then l2 else NO_JUMP, b, s, base, k)
  {
    NoJump(c3);
    var J, T, F, P := JS(c1, j1), JS(c1, t), JS(c1, f), JS(c1, pc);
    var T1, F1 := T + (if b then {} else P), F + (if b then P else {});
    var T3, F3 := if b then {} else T1, if b then F1 else {};
    var J3 := JS(c3, j3);
    hide JS, IsList, Run, Good;
    PendRelink(c1, J, T1, F1, s, c2, if b then F else T);
    PendRelink(c2, J, T1, F1, s, c3, J);
    assert Relinked(c1, c3, J + T1 + F1);
    assert Pend(c3, J3, T3, F3, s);
    FrameRelink(c1, J, c3, J3, J + T1 + F1, s);
    FrameTrans2(c0, JS(c0, j0), c1, J, c3, J3, s);
    forall env: Env, x, r, v | k <= env.k && Delivers(c0, j0, e0, base, -1, env, x, r, v)
      ensures Good(c3, J3, T3, F3, Thru(b), base, -1, env, x, r, v)
    {
      RelinkGood(c1, c3, J, T1, F1, s, Thru(b), base, -1, env, x, r, v);
      CloseExits(c3, J, T1, F1, b, base, env, x, r, v);
      assert J3 == J + (if b then T1 else F1);
    }
  }

  lemma FrameTrans2(c0: seq<Instr>, J0: set<int>, c1: seq<Instr>, J1: set<int>, c2: seq<Instr>, J2: set<int>, s: int)
    requires Frame(c0, J0, c1, J1, s) && Frame(c1, J1, c2, J2, s)
    requires Jumps(c0, J0)
    ensures Frame(c0, J0, c2, J2, s)
  {
    hide Frame;
    forall j | j in J0 ensures j < |c0| && Op(c0, j).JMP? {
      assert Open(c0, j);
    }
    FrameTrans(c0, J0, c1, J1, c2, J2, s);
  }

  lemma CloseExits(c: seq<Instr>, J: set<int>, T: set<int>, F: set<int>, b: bool, base: int, env: Env, x: int, r: Regs,
                   v: Value)
    requires Good(c, J, T, F, Thru(b), base, -1, env, x, r, v)
    ensures Good(c, J + (if b then T else F), if b then {} else T, if b then F else {}, Thru(b), base, -1, env, x, r, v)
  {
    hide Run, Agree;
    assert J + T + F + EndStop(Thru(b)) == (J + (if b then T else F)) + (if b then {} else T)
      + (if b then F else {}) + EndStop(Thru(b));
  }

  lemma BecameBranched(c0: seq<Instr>, j0: int, e0: ExpDesc, c1: seq<Instr>, j1: int, e1: ExpDesc,
                       c2: seq<Instr>, j2: int, t: int, f: int, pc: int, b: bool, s: int, base: int, k: seq<Value>)
    requires ExpState(c0, j0, e0, s)
    requires exists k1 :: k1 <= k && Became(c0, j0, e0, c1, j1, e1, s, base, -1, k1)
    requires Branched(c1, j1, e1, c2, j2, t, f, pc, b, s, base, k)
    ensures Branched(c0, j0, e0, c2, j2, t, f, pc, b, s, base, k)
  {
    hide Delivers, Good, JS, IsList, Frame;
    var k1 :| k1 <= k && Became(c0, j0, e0, c1, j1, e1, s, base, -1, k1);
    StateTested(c0, j0, e0, s);
    FrameTrans2(c0, JS(c0, j0), c1, JS(c1, j1), c2, JS(c2, j2), s);
  }

  lemma BranchedLists(c0: seq<Instr>, j0: int, e0: ExpDesc, c1: seq<Instr>, j1: int, t: int, f: int, pc: int, b: bool,
                      s: int, base: int, k: seq<Value>)
    requires Branched(c0, j0, e0, c1, j1, t, f, pc, b, s, base, k)
    ensures IsList(c1, j1) && IsList(c1, t) && IsList(c1, f) && IsList(c1, pc)
    ensures JS(c1, pc) !! JS(c1, t) && JS(c1, pc) !! JS(c1, f) && JS(c1, pc) !! JS(c1, j1)
    ensures JS(c1, t) !! JS(c1, f) && JS(c1, j1) !! JS(c1, t) && JS(c1, j1) !! JS(c1, f)
  {
  }

  lemma RelinkedBy(c0: seq<Instr>, c1: seq<Instr>, L: set<int>)
    requires |c0| == |c1|
    requires forall i :: 0 <= i < |c1| && c1[i] != c0[i] ==> i in L && c1[i].JMP? && c0[i].JMP?
    ensures Relinked(c0, c1, L)
  {
  }

  lemma RelinkList(c0: seq<Instr>, c1: seq<Instr>, L: set<int>, h: int)
    requires Relinked(c0, c1, L) && IsList(c0, h) && JS(c0, h) !! L
    ensures IsList(c1, h) && JS(c1, h) == JS(c0, h)
  {
    hide IsList, JS;
    InBounds(c0, h);
    ListFrame(c0, c1, h);
  }

  // ---------- negation ----------

  /** The code delivers the negated value. */
  ghost predicate Negates(c0: seq<Instr>, j0: int, e0: ExpDesc, c1: seq<Instr>, j1: int, e1: ExpDesc, s: int, base: int,
                          k: seq<Value>) {
    && ExpState(c1, j1, e1, s)
    && Frame(c0, JS(c0, j0), c1, JS(c1, j1), s)
    && forall env: Env, x, r, v :: k <= env.k && Delivers(c0, j0, e0, base, -1, env, x, r, v) ==>
         Delivers(c1, j1, e1, base, -1, env, x, r, Bool(!Truthy(v)))
  }

  /** The main value is negated, the lists are not yet. */
  ghost predicate HalfNegated(c: seq<Instr>, J: set<int>, T: set<int>, F: set<int>, e: ExpDesc, base: int, env: Env,
                              x: int, r: Regs, v: Value) {
    var o := Run(c, J + T + F + EndStop(Val(e)), env, x, r);
    && Agree(r, o.r, base, -1)
    && (Exits(c, T, o, v, true) || Exits(c, F, o, v, false)
        || (AtEnd(c, J, Val(e), o.pc) && ValueAt(c, e, env, o.r) == Bool(!Truthy(v))))
  }

  /** A valid state in which only the main value of `e0` is negated. */
  ghost predicate NegatesMain(c0: seq<Instr>, j0: int, e0: ExpDesc, c1: seq<Instr>, j1: int, e1: ExpDesc, s: int,
                              base: int, k: seq<Value>) {
    && ExpState(c1, j1, e1, s)
    && Frame(c0, JS(c0, j0), c1, JS(c1, j1), s)
    && forall env: Env, x, r, v :: k <= env.k && Delivers(c0, j0, e0, base, -1, env, x, r, v) ==>
         HalfNegated(c1, JS(c1, j1), JS(c1, e1.t), JS(c1, e1.f), e1, base, env, x, r, v)
  }

  lemma StepNotConstant(c: seq<Instr>, j: int, e: ExpDesc, b: bool, s: int, base: int, k: seq<Value>)
    requires ExpState(c, j, e, s) && AlwaysIs(e, b) && TrueConstants(k, e)
    ensures NegatesMain(c, j, e, c, j, e.(k := if b then VFALSE else VTRUE), s, base, k)
  {
    var e1 := e.(k := if b then VFALSE else VTRUE);
    var J, T, F := JS(c, j), JS(c, e.t), JS(c, e.f);
    StateTested(c, j, e, s);
    FrameSame(c, J, s);
    hide JS, IsList, Run, Agree;
    forall env: Env, x, r, v | k <= env.k && Delivers(c, j, e, base, -1, env, x, r, v)
      ensures HalfNegated(c, J, T, F, e1, base, env, x, r, v)
    {
      assert EndStop(Val(e)) == EndStop(Val(e1));
      assert forall r': Regs :: Truthy(ValueAt(c, e, env, r')) == b;
    }
  }

  lemma StepNotCompare(c0: seq<Instr>, e: ExpDesc, s: int, base: int, k: seq<Value>)
    requires ExpState(c0, NO_JUMP, e, s) && e.k == VJMP
    ensures NegatesMain(c0, NO_JUMP, e, c0[e.info - 1 := Flip(c0[e.info - 1])], NO_JUMP, e, s, base, k)
  {
    hide JS, IsList, Run, Good, Aimed, Frame, HalfNegated, Pend, Paired;
    var c1 := c0[e.info - 1 := Flip(c0[e.info - 1])];
    var T, F := JS(c0, e.t), JS(c0, e.f);
    FlipState(c0, e, true, s);
    assert {} + T + F + {e.info} == T + F + {e.info};
    FlipStops(c0, e, s);
    forall env: Env, x, r, v | k <= env.k && Delivers(c0, NO_JUMP, e, base, -1, env, x, r, v)
      ensures HalfNegated(c1, {}, T, F, e, base, env, x, r, v)
    {
      FlipRun(c0, T, F, e, base, env, x, r, v);
    }
  }

  lemma FlipStops(c0: seq<Instr>, e: ExpDesc, s: int)
    requires ExpState(c0, NO_JUMP, e, s) && e.k == VJMP
    ensures Paired(c0) && IsCondJump(c0, e) && forall p :: p in JS(c0, e.t) + JS(c0, e.f) ==>
      0 < p < |c0| && p - 1 != e.info - 1
  {
    hide JS, IsList, Aimed, Unset;
    forall p | p in JS(c0, e.t) + JS(c0, e.f) ensures 0 < p < |c0| {
      assert Open(c0, p);
    }
  }

  lemma FlipRun(c0: seq<Instr>, T: set<int>, F: set<int>, e: ExpDesc, base: int, env: Env, x: int, r: Regs, v: Value)
    requires Paired(c0) && IsCondJump(c0, e) && Good(c0, {}, T, F, Val(e), base, -1, env, x, r, v)
    requires forall p :: p in T + F ==> 0 < p < |c0| && p - 1 != e.info - 1
    ensures HalfNegated(c0[e.info - 1 := Flip(c0[e.info - 1])], {}, T, F, e, base, env, x, r, v)
  {
    hide Run, Step, Agree;
    var c1 := c0[e.info - 1 := Flip(c0[e.info - 1])];
    var P := {} + T + F + EndStop(Val(e));
    var o := Run(c0, P, env, x, r);
    assert P == T + F + {e.info - 1};
    assert o.pc in P;
    assert o.pc in T + F || o.pc == e.info - 1;
    assert Continues(c0, P, c1, P);
    Resume(c0, P, c1, P, env, x, r);
    if o.pc in T + F {
      assert Control(c1, o.pc) == Control(c0, o.pc);
    } else {
      assert Op(c1, e.info - 1) == c1[e.info - 1];
    }
  }

  lemma StepNotRegister(c0: seq<Instr>, j0: int, e0: ExpDesc, s: int, base: int, k: seq<Value>)
    requires ExpState(c0, j0, e0, s) && e0.k == VNONRELOC
    ensures
      NegatesMain(c0, j0, e0, Extended(c0, JS(c0, j0), [NOT(0, e0.info)]), NO_JUMP,
                  e0.(k := VRELOCABLE, info := |c0|), s, base, k)
  {
    hide Extended, Frame, JS, IsList, Run, Agree, Exits, HalfNegated, Aimed, Pend;
    var J0, T, F := JS(c0, j0), JS(c0, e0.t), JS(c0, e0.f);
    var tail := [NOT(0, e0.info)];
    var c1 := Extended(c0, J0, tail);
    var e1 := e0.(k := VRELOCABLE, info := |c0|);
    OneTailOk(tail[0], |c0|);
    StateEmit(c0, j0, e0, s, tail, {});
    assert c1[|c0|] == c1[|c0|..][0];
    assert T + {} == T && F + {} == F;
    assert {} + T + F + Held(e1) == T + F + {};
    forall env: Env, x, r, v | k <= env.k && Delivers(c0, j0, e0, base, -1, env, x, r, v)
      ensures HalfNegated(c1, {}, T, F, e1, base, env, x, r, v)
    {
      var o, o2 := EmitWaiting(c0, J0, T, F, s, e0, base, -1, tail, e1, env, x, r, v);
      WaitsNegated(c0, c1, T, F, e0, e1, tail[0], base, env, x, r, v, o, o2);
    }
  }

  /** Swapping the lists and removing their values completes the negation. */
  lemma StepDemote(c0: seq<Instr>, j0: int, e0: ExpDesc, c1: seq<Instr>, j1: int, e1: ExpDesc, s: int, base: int,
                   k: seq<Value>)
    requires Jumps(c0, JS(c0, j0)) && NegatesMain(c0, j0, e0, c1, j1, e1, s, base, k)
    ensures
      var c2 := Demoted(c1, JS(c1, e1.t) + JS(c1, e1.f));
      Negates(c0, j0, e0, c2, j1, e1.(t := e1.f, f := e1.t), s, base, k)
  {
    var J, T, F := JS(c1, j1), JS(c1, e1.t), JS(c1, e1.f);
    var c2 := Demoted(c1, T + F);
    var e2 := e1.(t := e1.f, f := e1.t);
    hide JS, IsList, Run, Good, HalfNegated;
    StateDemote(c1, j1, e1, s);
    FrameTrans2(c0, JS(c0, j0), c1, J, c2, J, s);
    forall env: Env, x, r, v | k <= env.k && Delivers(c0, j0, e0, base, -1, env, x, r, v)
      ensures Delivers(c2, j1, e2, base, -1, env, x, r, Bool(!Truthy(v)))
    {
      DemoteHalf(c1, j1, e1, s, base, env, x, r, v);
    }
  }

  lemma DemoteHalf(c1: seq<Instr>, j1: int, e1: ExpDesc, s: int, base: int, env: Env, x: int, r: Regs, v: Value)
    requires ExpState(c1, j1, e1, s)
    requires HalfNegated(c1, JS(c1, j1), JS(c1, e1.t), JS(c1, e1.f), e1, base, env, x, r, v)
    ensures
      Good(Demoted(c1, JS(c1, e1.t) + JS(c1, e1.f)), JS(c1, j1), JS(c1, e1.f), JS(c1, e1.t),
        Val(e1.(t := e1.f, f := e1.t)),
           base, -1, env, x, r, Bool(!Truthy(v)))
  {
    var J, T, F := JS(c1, j1), JS(c1, e1.t), JS(c1, e1.f);
    DemoteWaits(c1, j1, e1, s);
    hide JS, IsList, Run, Agree, Demoted, IsCondJump;
    Negated(c1, J, T, F, s, e1, base, -1, env, x, r, v);
    SwapEnd(Demoted(c1, T + F), J, F, T, e1, e1.(t := e1.f, f := e1.t), base, env, x, r, Bool(!Truthy(v)));
  }

  lemma DemoteWaits(c: seq<Instr>, j: int, e: ExpDesc, s: int)
    requires ExpState(c, j, e, s)
    ensures Waits(e) ==> 0 <= Waiting(e) < |c| && !c[Waiting(e)].TESTSET?
    ensures Waits(e) ==> Waiting(e) !in JS(c, j) && Waiting(e) !in JS(c, e.t) && Waiting(e) !in JS(c, e.f)
  {
    hide JS, IsList;
    assert forall p :: p in JS(c, j) || p in JS(c, e.t) || p in JS(c, e.f) ==> Open(c, p);
  }

  lemma StateDemote(c: seq<Instr>, j: int, e: ExpDesc, s: int)
    requires ExpState(c, j, e, s)
    ensures
      var c2 := Demoted(c, JS(c, e.t) + JS(c, e.f));
      && ExpState(c2, j, e.(t := e.f, f := e.t), s) && Frame(c, JS(c, j), c2, JS(c, j), s)
      && JS(c2, j) == JS(c, j) && JS(c2, e.t) == JS(c, e.t) && JS(c2, e.f) == JS(c, e.f)
  {
    var J, T, F := JS(c, j), JS(c, e.t), JS(c, e.f);
    hide JS, IsList, Pend, Frame, Aimed, Demoted, Tested, Jumps;
    PendDemote(c, J, T, F, s);
    AimedDemote(c, J + T + F + Held(e), T + F, s);
    AimedMore(Demoted(c, T + F), J + T + F + Held(e), J + F + T + Held(e.(t := e.f, f := e.t)), s, s);
    StateTested(c, j, e, s);
    DemoteList(c, T + F, j);
    DemoteList(c, T + F, e.t);
    DemoteList(c, T + F, e.f);
    DemoteWaiting(c, T + F, e);
  }

  lemma AimedDemote(c: seq<Instr>, L: set<int>, P: set<int>, s: int)
    requires Aimed(c, L, s)
    ensures Aimed(Demoted(c, P), L, s)
  {
    var c2 := Demoted(c, P);
    forall i | 0 <= i < |c| ensures c2[i].JMP? ==> c2[i] == c[i] {}
  }

  lemma SwapEnd(c: seq<Instr>, J: set<int>, T: set<int>, F: set<int>, e: ExpDesc, e': ExpDesc, base: int, env: Env,
                x: int, r: Regs, v: Value)
    requires Good(c, J, T, F, Val(e), base, -1, env, x, r, v)
    requires e'.k == e.k && e'.info == e.info && e'.ival == e.ival
    ensures Good(c, J, T, F, Val(e'), base, -1, env, x, r, v)
  {
    hide Run, Agree;
  }

  lemma DemoteList(c: seq<Instr>, L: set<int>, h: int)
    requires IsList(c, h) && Jumps(c, JS(c, h))
    ensures IsList(Demoted(c, L), h) && JS(Demoted(c, L), h) == JS(c, h)
  {
    hide IsList, JS;
    DemotedJumps(c, L);
    forall p | p in JS(c, h) ensures Op(c, p) == Op(Demoted(c, L), p) {
      assert Open(c, p);
    }
    ListFrame(c, Demoted(c, L), h);
  }

  lemma DemoteWaiting(c: seq<Instr>, L: set<int>, e: ExpDesc)
    ensures |Demoted(c, L)| == |c|
    ensures 0 <= e.info < |c| && Relocatable(c[e.info]) ==> Demoted(c, L)[e.info] == c[e.info]
    ensures IsCondJump(c, e) ==> IsCondJump(Demoted(c, L), e) && Demoted(c, L)[e.info] == c[e.info]
  {
  }

  lemma PendDemote(c: seq<Instr>, J: set<int>, T: set<int>, F: set<int>, s: int)
    requires Pend(c, J, T, F, s) && 0 <= s <= |c|
    ensures Pend(Demoted(c, T + F), J, F, T, s) && Frame(c, J, Demoted(c, T + F), J, s)
  {
    var c2 := Demoted(c, T + F);
    forall i | 0 <= i < |c|
      ensures IsTest(c2[i]) == IsTest(c[i]) && c2[i].JMP? == c[i].JMP? && c2[i].LOADKX? == c[i].LOADKX?
        && c2[i].EXTRAARG? == c[i].EXTRAARG?
      ensures c2[i] == c[i] || (i + 1 in T + F && c2[i] == PatchTest(c[i], NO_REG))
    {
    }
    forall i | 0 <= i < |c|
      ensures IsTest(c2[i]) ==> i + 1 < |c2| && c2[i + 1].JMP?
      ensures c2[i].LOADKX? ==> i + 1 < |c2| && c2[i + 1].EXTRAARG?
    {
      if IsTest(c2[i]) {
        assert IsTest(c[i]);
      }
    }
    forall p | p in J || p in T || p in F ensures Open(c2, p) && IsTest(Control(c2, p)) == IsTest(Control(c, p)) {
      assert Open(c, p);
    }
    forall i | 0 <= i && Unset(c2, i) ensures Unset(c, i) && i + 1 !in T + F {
    }
    forall i | i in J && 0 <= i < s ensures c2[i].JMP? {
      assert Open(c, i);
    }
  }

  lemma BecameNegatesMain(c0: seq<Instr>, j0: int, e0: ExpDesc, c1: seq<Instr>, j1: int, e1: ExpDesc,
                          c2: seq<Instr>, j2: int, e2: ExpDesc, s: int, base: int, k: seq<Value>)
    requires ExpState(c0, j0, e0, s) && Became(c0, j0, e0, c1, j1, e1, s, base, -1, k)
    requires NegatesMain(c1, j1, e1, c2, j2, e2, s, base, k)
    ensures NegatesMain(c0, j0, e0, c2, j2, e2, s, base, k)
  {
    hide Delivers, HalfNegated, JS, IsList, Frame;
    StateTested(c0, j0, e0, s);
    FrameTrans2(c0, JS(c0, j0), c1, JS(c1, j1), c2, JS(c2, j2), s);
  }

  lemma BecameNegates(c0: seq<Instr>, j0: int, e0: ExpDesc, c1: seq<Instr>, j1: int, e1: ExpDesc,
                      c2: seq<Instr>, j2: int, e2: ExpDesc, s: int, base: int, k: seq<Value>)
    requires ExpState(c0, j0, e0, s)
    requires exists k1 :: k1 <= k && Became(c0, j0, e0, c1, j1, e1, s, base, -1, k1)
    requires Negates(c1, j1, e1, c2, j2, e2, s, base, k)
    ensures Negates(c0, j0, e0, c2, j2, e2, s, base, k)
  {
    hide Delivers, JS, IsList, Frame;
    var k1 :| k1 <= k && Became(c0, j0, e0, c1, j1, e1, s, base, -1, k1);
    StateTested(c0, j0, e0, s);
    FrameTrans2(c0, JS(c0, j0), c1, JS(c1, j1), c2, JS(c2, j2), s);
  }

  lemma NegatesMainState(c0: seq<Instr>, j0: int, e0: ExpDesc, c1: seq<Instr>, j1: int, e1: ExpDesc, s: int, base: int,
                         k: seq<Value>)
    requires NegatesMain(c0, j0, e0, c1, j1, e1, s, base, k)
    ensures ExpState(c1, j1, e1, s)
  {
  }
}
