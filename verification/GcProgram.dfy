/** What a program does between the steps of the collector, and what it would see if
    nothing were ever collected. */
module GcProgram {
  import opened ObjectHeap
  import opened GcInvariant
  import opened GcSweep
  import opened GcMutator

  datatype Phase = Propagate | Atomic | InsideAtomic | SwpAllgc | SwpFinobj | SwpTobefnz | SwpEnd | CallFin | Pause

  /** The order of the phases. */
  predicate NextPhase(p: Phase, q: Phase) {
    match p
    case Pause => q == Propagate
    case Propagate => q == Propagate || q == Atomic
    case Atomic => q == SwpAllgc
    case SwpAllgc => q == SwpAllgc || q == SwpFinobj
    case SwpFinobj => q == SwpTobefnz
    case SwpTobefnz => q == SwpEnd
    case SwpEnd => q == CallFin
    case CallFin => q == Pause
    case InsideAtomic => false
  }

  /** What can happen next: a step of the collector, a full collection, or a step of the
      program. */
  datatype Action =
    | Collect
    | Full
    | New(id: Id, kind: Kind, slots: nat, nodes: nat)
    | PushValue(th: Id, v: Val)
    | PopValue(th: Id)
    | Meta(o: Id, v: Val)
    | Upvalue(o: Id, i: nat, v: Val)
    | ArraySlot(t: Id, i: nat, v: Val)
    | Key(t: Id, i: nat, v: Val)
    | Value(t: Id, i: nat, v: Val)
    | Global(i: nat, v: Val)
    | Switch(th: Id)
    | InternString(id: Id)

  datatype State =
    State(heap: Heap, globals: seq<Val>, running: Id, main: Id, phase: Phase, white: bool)

  function RootsOf(s: State): set<Id> {
    {s.main, s.running} + set i | 0 <= i < |s.globals| && s.globals[i].Ref? :: s.globals[i].id
  }

  // ---------- the steps of the program ----------

  /** The program may use `v`: it is no reference to an object that is dead or was freed. */
  predicate Usable(s: State, v: Val) {
    v.Ref? ==> v.id in s.heap && s.heap[v.id].color != White(!s.white)
  }

  predicate CanNew(kind: Kind, slots: nat, nodes: nat) {
    (kind.USERDATA? ==> slots == 1) && (kind.STRING? ==> slots == 0) && (kind.TABLE? || nodes == 0)
  }

  /** An action is possible in a state. */
  predicate Can(s: State, a: Action) {
    match a
    case Collect => true
    case Full => true
    case New(x, kind, slots, nodes) => x !in s.heap && CanNew(kind, slots, nodes)
    case PushValue(th, v) => Usable(s, Ref(th)) && Usable(s, v) && v != DeadKey && s.heap[th].kind.THREAD?
    case PopValue(th) => Usable(s, Ref(th)) && s.heap[th].kind.THREAD? && |s.heap[th].slots| > 0
    case Meta(o, v) =>
      Usable(s, Ref(o)) && Usable(s, v) && v != DeadKey && (s.heap[o].kind.TABLE? || s.heap[o].kind.USERDATA?)
    case Upvalue(o, i, v) =>
      && Usable(s, Ref(o)) && Usable(s, v) && v != DeadKey && i < |s.heap[o].slots|
      && (s.heap[o].kind.USERDATA? || s.heap[o].kind.CLOSURE?)
    case ArraySlot(t, i, v) =>
      Usable(s, Ref(t)) && Usable(s, v) && v != DeadKey && s.heap[t].kind.TABLE? && i < |s.heap[t].slots|
    case Key(t, i, v) =>
      && Usable(s, Ref(t)) && Usable(s, v) && v != Nil && v != DeadKey && s.heap[t].kind.TABLE?
      && i < |s.heap[t].node| && s.heap[t].node[i].val == Nil
    case Value(t, i, v) =>
      && Usable(s, Ref(t)) && Usable(s, v) && v != DeadKey && s.heap[t].kind.TABLE?
      && i < |s.heap[t].node| && s.heap[t].node[i].key != Nil && s.heap[t].node[i].key != DeadKey
    case Global(i, v) => i < |s.globals| && Usable(s, v)
    case Switch(th) => Usable(s, Ref(th)) && s.heap[th].kind.THREAD?
    case InternString(x) => x in s.heap && s.heap[x].kind.STRING?
  }

  /** A new object refers to nothing. */
  function Blank(kind: Kind, white: bool, slots: nat, nodes: nat): Obj {
    Obj(kind, White(white), Nil, seq(slots, i => Nil), seq(nodes, i => Entry(Nil, Nil)))
  }

  lemma FreshBlank(o: Obj)
    requires Fresh(o) && o.color.White?
    ensures o == Blank(o.kind, o.color.w, |o.slots|, |o.node|)
  {
    var b := Blank(o.kind, o.color.w, |o.slots|, |o.node|);
    forall i | 0 <= i < |o.slots| ensures o.slots[i] == Nil {
      assert o.slots[i] in o.slots;
    }
    forall i | 0 <= i < |o.node| ensures o.node[i] == Entry(Nil, Nil) {
      assert o.node[i] in o.node;
    }
    assert o.slots == b.slots && o.node == b.node;
  }

  function WithSlots(h: Heap, x: Id, slots: seq<Val>): Heap {
    if x in h then h[x := h[x].(slots := slots)] else h
  }

  function WithEntry(h: Heap, x: Id, i: nat, e: Entry): Heap {
    if x in h && i < |h[x].node| then h[x := h[x].(node := h[x].node[i := e])] else h
  }

  /** The state after an action, as the program means it; the collector does nothing here. */
  function After(s: State, a: Action): State {
    var h := s.heap;
    match a
    case New(x, kind, slots, nodes) =>
      var h' := h[x := Blank(kind, s.white, slots, nodes)];
      s.(heap := if s.running in h' then WithSlots(h', s.running, h'[s.running].slots + [Ref(x)]) else h')
    case PushValue(th, v) =>
      if th in h then s.(heap := WithSlots(h, th, h[th].slots + [v])) else s
    case PopValue(th) =>
      if th in h && h[th].slots != [] then s.(heap := WithSlots(h, th, h[th].slots[..|h[th].slots| - 1])) else s
    case Meta(o, v) =>
      if o in h then s.(heap := h[o := h[o].(meta := v)]) else s
    case Upvalue(o, i, v) =>
      if o in h && i < |h[o].slots| then s.(heap := WithSlots(h, o, h[o].slots[i := v])) else s
    case ArraySlot(t, i, v) =>
      if t in h && i < |h[t].slots| then s.(heap := WithSlots(h, t, h[t].slots[i := v])) else s
    case Key(t, i, v) => s.(heap := WithEntry(h, t, i, Entry(v, Nil)))
    case Value(t, i, v) =>
      if t in h && i < |h[t].node| then s.(heap := WithEntry(h, t, i, Entry(h[t].node[i].key, v))) else s
    case Global(i, v) => if i < |s.globals| then s.(globals := s.globals[i := v]) else s
    case Switch(th) => s.(running := th)
    case _ => s
  }

  /** The same contents, roots and phase; only colors may differ. */
  ghost predicate Alike(s: State, s': State) {
    && SameContents(s.heap, s'.heap) && s'.globals == s.globals && s'.running == s.running && s'.main == s.main
    && s'.phase == s.phase && s'.white == s.white
  }

  /** The object that an action takes into use. */
  function Taken(a: Action): set<Id> {
    match a
    case New(x, _, _, _) => {x}
    case InternString(x) => {x}
    case _ => {}
  }

  /** One step of the collector: it goes on in the order of the phases, changes the white in
      the atomic step only, and keeps what the roots reach. */
  ghost predicate Collected(s: State, s': State) {
    && NextPhase(s.phase, s'.phase) && s'.white == (if s.phase == Atomic then !s.white else s.white)
    && Preserved(s.heap, RootsOf(s), s'.heap, s'.white)
  }

  /** A full collection leaves exactly what the roots reach. */
  ghost predicate CollectedAll(s: State, s': State) {
    && s'.phase == Pause && s'.heap.Keys == Reachable(s.heap, RootsOf(s)) && AllWhite(s'.heap, s'.white)
    && forall x :: x in s'.heap ==>
         && x in s.heap && Cleaned(s.heap[x], s'.heap[x], s'.heap.Keys + Strings(s.heap))
         && Within(s'.heap[x], s'.heap.Keys)
  }

  /** What one action does: nothing if it is not possible. */
  ghost predicate Step(s: State, a: Action, s': State) {
    if !Can(s, a) then s' == s
    else match a
      case Collect =>
        Collected(s, s') && s'.globals == s.globals && s'.running == s.running && s'.main == s.main
      case Full =>
        CollectedAll(s, s') && s'.globals == s.globals && s'.running == s.running && s'.main == s.main
      case _ =>
        Alike(After(s, a), s') && Alive(s'.heap, s'.white) == Alive(s.heap, s.white) + Taken(a)
  }

  /** The running thread is there. */
  ghost predicate Running(s: State) {
    s.running in s.heap && s.heap[s.running].kind.THREAD?
  }

  /** Everything that can be reached is alive, and nothing dangles. */
  ghost predicate Sound(s: State) {
    LiveClosed(s.heap, s.white) && RootsOf(s) <= Alive(s.heap, s.white) && Running(s)
  }

  /** What the program can get hold of, it can use. */
  lemma AccessibleUsable(s: State, v: Val)
    requires Sound(s) && In(v, Accessible(s.heap, RootsOf(s)))
    ensures Usable(s, v)
  {
    hide Accessible;
    AccessibleAlive(s.heap, s.white, RootsOf(s));
  }

  /** The states of a run. */
  ghost predicate Trace(trace: seq<State>, actions: seq<Action>) {
    && |trace| == |actions| + 1
    && (forall i :: 0 <= i < |actions| ==> Step(trace[i], actions[i], trace[i + 1]))
    && forall i :: 0 <= i < |trace| ==> Sound(trace[i])
  }

  /** The first `n` actions without a collector, which frees nothing; an action that was not
      possible in the run is left out. */
  ghost function Program(trace: seq<State>, actions: seq<Action>, n: nat): State
    requires n <= |actions| < |trace|
  {
    if n == 0 then trace[0]
    else
      var w := Program(trace, actions, n - 1);
      if Can(trace[n - 1], actions[n - 1]) then After(w, actions[n - 1]) else w
  }

  // ---------- the collector cannot be seen ----------

  /** `h` has what `w` has, but for objects that were collected, weak references, and keys
      of empty entries. */
  ghost predicate Covers(w: Heap, h: Heap) {
    h.Keys <= w.Keys && forall x :: x in h ==> Cleaned(w[x], h[x], {})
  }

  ghost predicate Refines(w: State, s: State) {
    && Covers(w.heap, s.heap) && s.globals == w.globals && s.running == w.running && s.main == w.main
  }

  lemma CoversPut(w: Heap, h: Heap, x: Id, o: Obj, o': Obj)
    requires Covers(w, h) && Cleaned(o, o', {})
    ensures Covers(w[x := o], h[x := o'])
  {
    hide Cleaned;
  }

  lemma CoversTrans(w: Heap, h: Heap, h': Heap, S: set<Id>)
    requires Covers(w, h) && h'.Keys <= h.Keys && forall x :: x in h' ==> Cleaned(h[x], h'[x], S)
    ensures Covers(w, h')
  {
    hide Cleaned;
    forall x | x in h' ensures Cleaned(w[x], h'[x], {}) {
      CleanedLess(h[x], h'[x], S, {});
      CleanedTrans(w[x], h[x], h'[x], {});
    }
  }

  lemma CleanedSelf(o: Obj, o': Obj)
    requires o' == o.(color := o'.color)
    ensures Cleaned(o, o', {})
  {
  }

  lemma CoversColors(h: Heap, h': Heap)
    requires SameContents(h, h')
    ensures h'.Keys <= h.Keys && forall x :: x in h' ==> Cleaned(h[x], h'[x], {})
  {
    forall x | x in h' ensures Cleaned(h[x], h'[x], {}) {
      CleanedSelf(h[x], h'[x]);
    }
  }

  /** The same slots, and the same changes to them. */
  lemma CleanedSlots(o: Obj, o': Obj, slots: seq<Val>, slots': seq<Val>)
    requires Cleaned(o, o', {}) && |slots'| == |slots|
    requires forall i :: 0 <= i < |slots| ==>
      slots'[i] == slots[i] || (i < |o.slots| && slots[i] == o.slots[i] && slots'[i] == o'.slots[i])
    ensures Cleaned(o.(slots := slots), o'.(slots := slots'), {})
  {
  }

  lemma CleanedEntry(o: Obj, o': Obj, i: nat, e: Entry)
    requires Cleaned(o, o', {}) && i < |o.node|
    ensures |o'.node| == |o.node| && Cleaned(o.(node := o.node[i := e]), o'.(node := o'.node[i := e]), {})
  {
  }

  lemma CleanedKey(o: Obj, o': Obj, i: nat)
    requires Cleaned(o, o', {}) && i < |o.node| && |o'.node| == |o.node| && o'.node[i].key != DeadKey
    ensures o'.node[i].key == o.node[i].key
  {
    assert EntryCleaned(o.kind, o.node[i], o'.node[i], {});
  }

  /** A stack is the same with and without a collector. */
  lemma CleanedStack(o: Obj, o': Obj)
    requires Cleaned(o, o', {}) && o'.kind.THREAD?
    ensures o'.slots == o.slots
  {
  }

  /** What the program does keeps the two states together. */
  lemma UpdatedCovers(w: State, s: State, a: Action)
    requires Refines(w, s) && Can(s, a) && s.running in s.heap && s.heap[s.running].kind.THREAD?
    ensures Refines(After(w, a), After(s, a))
  {
    hide Cleaned, Covers;
    var hw, hs := w.heap, s.heap;
    match a
    case New(x, kind, slots, nodes) =>
      UpdatedNew(w, s, a);
    case PushValue(th, v) =>
      CoversAt(hw, hs, th);
      CleanedStack(hw[th], hs[th]);
      CleanedSlots(hw[th], hs[th], hw[th].slots + [v], hs[th].slots + [v]);
      CoversPut(hw, hs, th, hw[th].(slots := hw[th].slots + [v]), hs[th].(slots := hs[th].slots + [v]));
    case PopValue(th) =>
      CoversAt(hw, hs, th);
      CleanedStack(hw[th], hs[th]);
      var slots := hs[th].slots[..|hs[th].slots| - 1];
      CleanedSlots(hw[th], hs[th], slots, slots);
      CoversPut(hw, hs, th, hw[th].(slots := slots), hs[th].(slots := slots));
    case Meta(o, v) =>
      CoversAt(hw, hs, o);
      CleanedMeta(hw[o], hs[o], v);
      CoversPut(hw, hs, o, hw[o].(meta := v), hs[o].(meta := v));
    case Upvalue(o, i, v) =>
      UpdatedSlot(hw, hs, o, i, v);
    case ArraySlot(t, i, v) =>
      UpdatedSlot(hw, hs, t, i, v);
    case Key(t, i, v) =>
      UpdatedEntry(hw, hs, t, i, Entry(v, Nil));
    case Value(t, i, v) =>
      CoversAt(hw, hs, t);
      UpdatedEntry(hw, hs, t, i, Entry(hs[t].node[i].key, v));
    case _ =>
  }

  lemma CoversAt(w: Heap, h: Heap, x: Id)
    requires Covers(w, h) && x in h
    ensures x in w && Cleaned(w[x], h[x], {}) && |w[x].slots| == |h[x].slots| && |w[x].node| == |h[x].node|
    ensures h[x].kind == w[x].kind
    ensures forall i :: 0 <= i < |h[x].node| && h[x].node[i].key != DeadKey ==> w[x].node[i].key == h[x].node[i].key
  {
    forall i | 0 <= i < |h[x].node| && h[x].node[i].key != DeadKey
      ensures w[x].node[i].key == h[x].node[i].key
    {
      CleanedKey(w[x], h[x], i);
    }
  }

  lemma CleanedMeta(o: Obj, o': Obj, v: Val)
    requires Cleaned(o, o', {})
    ensures Cleaned(o.(meta := v), o'.(meta := v), {})
  {
  }

  lemma UpdatedSlot(w: Heap, h: Heap, x: Id, i: nat, v: Val)
    requires Covers(w, h) && x in h && i < |h[x].slots|
    ensures x in w && i < |w[x].slots|
    ensures Covers(WithSlots(w, x, w[x].slots[i := v]), WithSlots(h, x, h[x].slots[i := v]))
  {
    hide Cleaned, Covers;
    CoversAt(w, h, x);
    SlotCleaned(w[x], h[x], i, v);
    CoversPut(w, h, x, w[x].(slots := w[x].slots[i := v]), h[x].(slots := h[x].slots[i := v]));
  }

  lemma SlotCleaned(o: Obj, o': Obj, i: nat, v: Val)
    requires Cleaned(o, o', {}) && i < |o.slots| && |o'.slots| == |o.slots|
    ensures Cleaned(o.(slots := o.slots[i := v]), o'.(slots := o'.slots[i := v]), {})
  {
  }

  lemma UpdatedEntry(w: Heap, h: Heap, x: Id, i: nat, e: Entry)
    requires Covers(w, h) && x in h && i < |h[x].node|
    ensures Covers(WithEntry(w, x, i, e), WithEntry(h, x, i, e))
  {
    hide Cleaned, Covers;
    CoversAt(w, h, x);
    CleanedEntry(w[x], h[x], i, e);
    CoversPut(w, h, x, w[x].(node := w[x].node[i := e]), h[x].(node := h[x].node[i := e]));
  }

  lemma UpdatedNew(w: State, s: State, a: Action)
    requires Refines(w, s) && a.New? && Can(s, a) && s.running in s.heap && s.heap[s.running].kind.THREAD?
    ensures Refines(After(w, a), After(s, a))
  {
    hide Cleaned, Covers;
    var x := a.id;
    var o, o' := Blank(a.kind, w.white, a.slots, a.nodes), Blank(a.kind, s.white, a.slots, a.nodes);
    CleanedSelf(o, o');
    CoversPut(w.heap, s.heap, x, o, o');
    var hw, hs, th := w.heap[x := o], s.heap[x := o'], s.running;
    CoversAt(hw, hs, th);
    CleanedStack(hw[th], hs[th]);
    var slots := hs[th].slots + [Ref(x)];
    CleanedSlots(hw[th], hs[th], slots, slots);
    CoversPut(hw, hs, th, hw[th].(slots := slots), hs[th].(slots := slots));
  }

  lemma StepRefines(w: State, s: State, a: Action, s': State)
    requires Refines(w, s) && Running(s) && Step(s, a, s')
    ensures Refines(if Can(s, a) then After(w, a) else w, s')
  {
    hide Cleaned, Covers, Can, After;
    if Can(s, a) {
      match a
      case Collect =>
        CoversTrans(w.heap, s.heap, s'.heap, Reachable(s.heap, RootsOf(s)) + Strings(s.heap));
        UpdatedNone(w, a);
      case Full =>
        CoversTrans(w.heap, s.heap, s'.heap, s'.heap.Keys + Strings(s.heap));
        UpdatedNone(w, a);
      case _ =>
        UpdatedCovers(w, s, a);
        CoversColors(After(s, a).heap, s'.heap);
        CoversTrans(After(w, a).heap, After(s, a).heap, s'.heap, {});
    }
  }

  lemma UpdatedNone(w: State, a: Action)
    requires a == Collect || a == Full
    ensures After(w, a) == w
  {
  }

  /** Every run: what the program has is what it would have without a collector, but for
      what no one refers to and for weak references. */
  lemma {:induction false} RunRefines(trace: seq<State>, actions: seq<Action>, n: nat)
    requires Trace(trace, actions) && n <= |actions|
    ensures Refines(Program(trace, actions, n), trace[n])
    decreases n
  {
    hide Step, Can, After, LiveClosed, RootsOf;
    if n == 0 {
      CoversSelf(trace[0].heap);
    } else {
      RunRefines(trace, actions, n - 1);
      StepRefines(Program(trace, actions, n - 1), trace[n - 1], actions[n - 1], trace[n]);
    }
  }

  lemma CoversSelf(h: Heap)
    ensures Covers(h, h)
  {
  }

  // ---------- programs without weak tables ----------

  predicate WeakMode(k: Kind) {
    k == TABLE(WeakValues) || k == TABLE(Ephemeron)
  }

  /** What an object without weak references refers to is in `S`. */
  predicate StrongIn(o: Obj, S: set<Id>) {
    && In(o.meta, S) && SlotsIn(o.slots, S)
    && forall i :: 0 <= i < |o.node| && o.node[i].val != Nil ==> EntryIn(o.node[i], S)
  }

  /** The same but for the color and for the keys of empty entries. */
  predicate SameObject(o: Obj, o': Obj) {
    && o'.kind == o.kind && o'.meta == o.meta && o'.slots == o.slots && |o'.node| == |o.node|
    && forall i :: 0 <= i < |o.node| ==>
         o'.node[i].val == o.node[i].val && (o.node[i].val != Nil ==> o'.node[i].key == o.node[i].key)
  }

  lemma CleanedStrong(o: Obj, o': Obj)
    requires Cleaned(o, o', {}) && !WeakMode(o'.kind)
    ensures SameObject(o, o')
  {
    forall i | 0 <= i < |o.node|
      ensures o'.node[i].val == o.node[i].val && (o.node[i].val != Nil ==> o'.node[i].key == o.node[i].key)
    {
      assert EntryCleaned(o.kind, o.node[i], o'.node[i], {});
    }
  }

  lemma KeepsStrong(h: Heap, o: Obj, S: set<Id>)
    requires !WeakMode(o.kind) && (o.kind.TABLE? || o.node == [])
    ensures Keeps(h, o, S) <==> StrongIn(o, S)
  {
  }

  lemma SameStrong(o: Obj, o': Obj, S: set<Id>)
    requires SameObject(o, o')
    ensures StrongIn(o, S) <==> StrongIn(o', S)
  {
    if StrongIn(o, S) {
      forall i | 0 <= i < |o'.node| && o'.node[i].val != Nil ensures EntryIn(o'.node[i], S) {
        assert o.node[i].val != Nil;
      }
    }
  }

  /** No object that the roots reach has weak references. */
  ghost predicate NoWeak(s: State) {
    forall x :: x in Reachable(s.heap, RootsOf(s)) ==> !WeakMode(s.heap[x].kind)
  }

  /** Such an object keeps the same alive in both states. */
  lemma SameKeeps(w: State, s: State, x: Id, S: set<Id>)
    requires Refines(w, s) && Sound(s) && NoWeak(s) && x in Reachable(s.heap, RootsOf(s))
    ensures x in w.heap && SameObject(w.heap[x], s.heap[x])
    ensures Keeps(w.heap, w.heap[x], S) <==> StrongIn(s.heap[x], S)
    ensures Keeps(s.heap, s.heap[x], S) <==> StrongIn(s.heap[x], S)
  {
    hide Cleaned, Keeps, StrongIn, SameObject, RootsOf, Running;
    CoversAt(w.heap, s.heap, x);
    CleanedStrong(w.heap[x], s.heap[x]);
    assert Shape(s.heap[x]);
    KeepsStrong(w.heap, w.heap[x], S);
    KeepsStrong(s.heap, s.heap[x], S);
    SameStrong(w.heap[x], s.heap[x], S);
  }

  lemma ReachesNoMore(w: State, s: State)
    requires Refines(w, s) && Sound(s) && NoWeak(s)
    ensures Reachable(w.heap, RootsOf(w)) <= Reachable(s.heap, RootsOf(s))
  {
    var R := Reachable(s.heap, RootsOf(s));
    ReachableClosed(s.heap, RootsOf(s), Alive(s.heap, s.white));
    hide Keeps, StrongIn, SameObject, Covers, Reachable, LiveClosed, Running;
    forall x | x in R && x in w.heap ensures Keeps(w.heap, w.heap[x], R) {
      SameKeeps(w, s, x, R);
    }
    InReachable(w.heap, RootsOf(w), R);
  }

  lemma ReachesNoLess(w: State, s: State)
    requires Refines(w, s) && Sound(s) && NoWeak(s)
    ensures Reachable(s.heap, RootsOf(s)) <= Reachable(w.heap, RootsOf(w))
  {
    hide Keeps, StrongIn, SameObject, Covers, LiveClosed, Running, Alive;
    var roots := RootsOf(s);
    var R := Reachable(s.heap, roots);
    forall x | x in R ensures x in Reachable(w.heap, roots) {
      CoversAt(w.heap, s.heap, x);
      forall S | roots <= S && Closed(w.heap, S) ensures x in S {
        ClosedMeet(w, s, S);
        assert Closed(s.heap, S * R);
      }
    }
  }

  /** A set that is closed without a collector is closed with it. */
  lemma ClosedMeet(w: State, s: State, S: set<Id>)
    requires Refines(w, s) && Sound(s) && NoWeak(s) && RootsOf(s) <= S && Closed(w.heap, S)
    ensures
      var T := S * Reachable(s.heap, RootsOf(s));
      RootsOf(s) <= T && Closed(s.heap, T)
  {
    var R := Reachable(s.heap, RootsOf(s));
    ReachableClosed(s.heap, RootsOf(s), Alive(s.heap, s.white));
    hide Keeps, SameObject, Covers, Reachable, LiveClosed, Running;
    var T := S * R;
    forall x | x in T && x in s.heap ensures Keeps(s.heap, s.heap[x], T) {
      SameKeeps(w, s, x, S);
      SameKeeps(w, s, x, R);
      SameKeeps(w, s, x, T);
      StrongMeet(s.heap[x], S, R);
    }
  }

  lemma StrongMeet(o: Obj, S: set<Id>, R: set<Id>)
    requires StrongIn(o, S) && StrongIn(o, R)
    ensures StrongIn(o, S * R)
  {
  }

  /** A program without weak tables cannot see the collector: the roots reach the same
      objects as if nothing had ever been freed, with the same contents. */
  lemma Transparent(trace: seq<State>, actions: seq<Action>)
    requires Trace(trace, actions) && NoWeak(trace[|actions|])
    ensures
      var s, w := trace[|actions|], Program(trace, actions, |actions|);
      && RootsOf(s) == RootsOf(w) && Reachable(s.heap, RootsOf(s)) == Reachable(w.heap, RootsOf(w))
      && forall x :: x in Reachable(s.heap, RootsOf(s)) ==> x in w.heap && SameObject(w.heap[x], s.heap[x])
  {
    var s, w := trace[|actions|], Program(trace, actions, |actions|);
    RunRefines(trace, actions, |actions|);
    hide Program, Step, Reachable, SameObject, Covers, LiveClosed, Running;
    ReachesNoMore(w, s);
    ReachesNoLess(w, s);
    forall x | x in Reachable(s.heap, RootsOf(s)) ensures x in w.heap && SameObject(w.heap[x], s.heap[x]) {
      SameKeeps(w, s, x, {});
    }
  }
}
