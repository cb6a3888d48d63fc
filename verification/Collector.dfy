/** The incremental collector: marking, the atomic phase, sweeping, and the barriers of
    the program that runs between its steps. */
module Collector {
  import opened ObjectHeap
  import opened GcInvariant
  import opened GcSweep
  import opened GcMutator
  import opened GcProgram

  /** Where the sweep stands: nowhere, behind the first `pos` objects of the list of all
      objects, or in a list that is empty in this model. */
  datatype Sweep = NoSweep | InAllgc(pos: nat) | InEmpty

  /** The gray objects that wait outside the list `gray` inside the atomic phase, and
      whether weak tables are already on the lists of that phase. */
  datatype Others = Others(list: seq<Id>, atomic: bool)

  /** The size of a string header over four is the cost of sweeping one object. */
  const GCSWEEPMAX: nat := 85

  /** Phases in which the invariant of the colors must be kept. */
  predicate KeepInvariant(p: Phase) {
    p == Propagate || p == Atomic
  }

  /** How many phases are left until the collector pauses. */
  function PhasesLeft(p: Phase): nat {
    match p
    case Propagate => 7
    case Atomic => 6
    case InsideAtomic => 6
    case SwpAllgc => 5
    case SwpFinobj => 4
    case SwpTobefnz => 3
    case SwpEnd => 2
    case CallFin => 1
    case Pause => 0
  }

  /** How far the sweep has come. */
  ghost predicate SweepOk(h: Heap, allgc: seq<Id>, white: bool, phase: Phase, sweep: Sweep) {
    match phase
    case SwpAllgc =>
      && !sweep.InEmpty?
      && (sweep.InAllgc? ==> sweep.pos < |allgc|)
      && AllSwept(h, if sweep.InAllgc? then allgc[..sweep.pos] else allgc, white)
    case SwpFinobj => sweep == InEmpty && AllSwept(h, allgc, white)
    case SwpTobefnz => sweep == InEmpty && AllSwept(h, allgc, white)
    case SwpEnd => sweep == NoSweep && AllSwept(h, allgc, white)
    case _ => sweep == NoSweep && AllWhite(h, white)
  }

  lemma SweepOkSame(h: Heap, h': Heap, allgc: seq<Id>, white: bool, phase: Phase, sweep: Sweep)
    requires SweepOk(h, allgc, white, phase, sweep)
    requires forall s :: AllSwept(h, s, white) ==> AllSwept(h', s, white)
    requires AllWhite(h, white) ==> AllWhite(h', white)
    ensures SweepOk(h', allgc, white, phase, sweep)
  {
    hide AllSwept, AllWhite;
  }

  /** A new object at the front of the list moves the sweep position. */
  lemma SweepOkNew(h: Heap, h': Heap, allgc: seq<Id>, white: bool, phase: Phase, sweep: Sweep, x: Id)
    requires SweepOk(h, allgc, white, phase, sweep)
    requires forall s :: AllSwept(h, s, white) ==> AllSwept(h', s, white) && AllSwept(h', [x] + s, white)
    requires AllWhite(h, white) ==> AllWhite(h', white)
    ensures SweepOk(h', [x] + allgc, white, phase,
      if sweep.InAllgc? && sweep.pos > 0 then InAllgc(sweep.pos + 1) else sweep)
  {
    hide AllSwept, AllWhite;
    if sweep.InAllgc? && sweep.pos > 0 && sweep.pos < |allgc| {
      assert ([x] + allgc)[..sweep.pos + 1] == [x] + allgc[..sweep.pos];
    }
    if sweep.InAllgc? && sweep.pos == 0 {
      assert ([x] + allgc)[..0] == allgc[..0] == [];
    }
  }

  class GlobalState {
    var heap: Heap
    var allgc: seq<Id>
    var gray: seq<Id>
    var grayagain: seq<Id>
    var weak: seq<Id>
    var allweak: seq<Id>
    var ephemeron: seq<Id>
    var gcstate: Phase
    var currentwhite: bool
    var sweepgc: Sweep
    const mainthread: Id
    var running: Id
    var globals: seq<Val>

    /** A new state: the main thread is the only object, and the collector pauses. */
    constructor (main: Id, types: nat)
      ensures Inv() && gcstate == Pause && heap.Keys == {main} && mainthread == running == main && |globals| == types
    {
      mainthread, running := main, main;
      heap := map[main := Obj(THREAD, White(false), Nil, [], [])];
      allgc, gray, grayagain, weak, allweak, ephemeron := [], [], [], [], [], [];
      gcstate, currentwhite, sweepgc := Pause, false, NoSweep;
      globals := seq(types, i => Nil);
      new;
      assert Alive(heap, currentwhite) == {main};
    }

    /** The gray lists during marking. */
    ghost function M(rest: Others, busy: set<Id>): Marks
      reads this
    {
      Marks(gray, if gcstate == InsideAtomic then rest.list else grayagain, weak, allweak, ephemeron, rest.atomic, busy)
    }

    ghost predicate Marking(rest: Others, busy: set<Id>, S: set<Id>)
      reads this
    {
      MarkOk(heap, currentwhite, M(rest, busy)) && Bounded(heap, S)
    }

    // ---------- marking ----------

    /** Marks what a value refers to, if it is white. */
    method MarkValue(v: Val, ghost rest: Others, ghost busy: set<Id>, ghost S: set<Id>)
      requires Marking(rest, busy, S) && In(v, heap.Keys) && In(v, S)
      modifies this`heap, this`gray
      ensures Marking(rest, busy, S) && Recolored(old(heap), heap) && In(v, Marked(heap))
      ensures |Unmarked(heap)| <= |Unmarked(old(heap))| && Work(heap, gray) <= Work(old(heap), old(gray))
        && |gray| >= |old(gray)|
      ensures |Unmarked(heap)| == |Unmarked(old(heap))| ==> heap == old(heap) && gray == old(gray)
      ensures v.Ref? ==> v.id in heap && !heap[v.id].color.White?
      ensures v.Ref? && old(heap)[v.id].kind.STRING? ==>
        gray == old(gray) && (heap == old(heap) || heap == Paint(old(heap), v.id, Black))
      decreases |Unmarked(heap)|, 1
    {
      hide MarkOk, Bounded, Work;
      if IsWhite(heap, v) {
        hide Recolored, Marked, Unmarked;
        ReallyMark(v.id, rest, busy, S);
        MarkedNotWhite(heap, v.id);
      }
    }

    /** A string or a userdata with its metatable becomes black; a white user value `v` is
        what is to be marked next. */
    method MarkLeaf(o: Id, ghost h0: Heap, ghost rest: Others, ghost busy: set<Id>, ghost S: set<Id>)
      returns (more: bool, v: Id)
      requires o in heap && heap[o].color.Gray? && o in S && o !in busy
        && (heap[o].kind.STRING? || heap[o].kind.USERDATA?)
      requires MarkOk(heap, currentwhite, M(rest, busy + {o})) && Bounded(heap, S)
      requires Recolored(h0, heap) && o in h0 && h0[o].color.White?
      modifies this`heap, this`gray
      ensures Recolored(h0, heap) && Marked(old(heap)) <= Marked(heap) && |gray| >= |old(gray)|
      ensures |Unmarked(heap)| <= |Unmarked(old(heap))| && Work(heap, gray) <= Work(old(heap), old(gray))
      ensures !more ==> Marking(rest, busy, S)
      ensures more ==> v in heap && heap[v].color.Gray? && v in S && v !in busy && v in h0 && h0[v].color.White?
      ensures more ==>
        MarkOk(heap, currentwhite, M(rest, busy + {v})) && Bounded(heap, S) && |Unmarked(heap)| < |Unmarked(old(heap))|
      ensures old(heap)[o].kind.STRING? ==> !more && heap == Paint(old(heap), o, Black) && gray == old(gray)
      decreases |Unmarked(heap)|, 2
    {
      hide MarkOk, Bounded, Cleaned, Keeps, Within, Marked, Unmarked, Recolored, Shape;
      if heap[o].kind.USERDATA? {
        MetaRefs(heap, currentwhite, M(rest, busy + {o}), o, S);
        ghost var h1 := heap;
        MarkValue(heap[o].meta, rest, busy + {o}, S);
        RecoloredKept(h0, h1, heap, o);
        RecoloredKeys(h1, heap, o);
      }
      LeafStep(h0, heap, currentwhite, M(rest, busy + {o}), o, S);
      heap := Paint(heap, o, Black);
      assert busy + {o} - {o} == busy;
      more := heap[o].kind.USERDATA? && IsWhite(heap, heap[o].slots[0]);
      v := o;
      if more {
        v := heap[o].slots[0].id;
        heap := Paint(heap, v, Gray);
      }
    }

    /** Marks a white object: strings and userdata become black at once, the others gray. */
    method ReallyMark(o0: Id, ghost rest: Others, ghost busy: set<Id>, ghost S: set<Id>)
      requires Marking(rest, busy, S) && o0 in heap && heap[o0].color.White? && o0 in S
      modifies this`heap, this`gray
      ensures Marking(rest, busy, S) && Recolored(old(heap), heap) && o0 in Marked(heap)
      ensures |Unmarked(heap)| < |Unmarked(old(heap))| && Work(heap, gray) <= Work(old(heap), old(gray))
        && |gray| >= |old(gray)|
      ensures old(heap)[o0].kind.STRING? ==> heap == Paint(old(heap), o0, Black) && gray == old(gray)
      ensures Listed(old(heap)[o0].kind) ==> gray == [o0] + old(gray)
      decreases |Unmarked(heap)|, 0
    {
      hide MarkOk, Bounded, Cleaned, Keeps, Within, Marked, Unmarked, Recolored, Shape;
      var o := o0;
      MarkBegin(heap, currentwhite, M(rest, busy), o, S);
      heap := Paint(heap, o, Gray);
      while true
        invariant o in heap && heap[o].color.Gray? && o in S && o !in busy
        invariant MarkOk(heap, currentwhite, M(rest, busy + {o})) && Bounded(heap, S)
        invariant Recolored(old(heap), heap) && o in old(heap) && old(heap)[o].color.White? && o0 in Marked(heap)
        invariant |Unmarked(heap)| < |Unmarked(old(heap))| && Work(heap, gray) < Work(old(heap), old(gray))
          && |gray| >= |old(gray)|
        invariant !old(heap)[o0].kind.USERDATA? ==> o == o0 && heap == Paint(old(heap), o0, Gray) && gray == old(gray)
        decreases |Unmarked(heap)|
      {
        RecoloredKeys(old(heap), heap, o);
        if heap[o].kind.STRING? || heap[o].kind.USERDATA? {
          var more, v := MarkLeaf(o, old(heap), rest, busy, S);
          if !more {
            return;
          }
          o := v;
        } else {
          StepPush(heap, currentwhite, M(rest, busy + {o}), GRAY, o);
          gray := [o] + gray;
          assert Paint(heap, o, Gray) == heap;
          assert busy + {o} - {o} == busy;
          return;
        }
      }
    }

    // ---------- traversing objects ----------

    /** Marks the values in the slots of an object; returns whether one was white. */
    method MarkSlots(o: Id, ghost rest: Others, ghost busy: set<Id>, ghost S: set<Id>) returns (marked: bool)
      requires Marking(rest, busy, S) && o in heap && o in S && !heap[o].color.White?
        && heap[o].kind != TABLE(WeakValues)
      modifies this`heap, this`gray
      ensures Marking(rest, busy, S) && Recolored(old(heap), heap) && o in heap && heap[o] == old(heap)[o]
      ensures SlotsIn(heap[o].slots, Marked(heap)) && Work(heap, gray) <= Work(old(heap), old(gray))
      ensures |Unmarked(heap)| <= |Unmarked(old(heap))|
      ensures if marked then |Unmarked(heap)| < |Unmarked(old(heap))| else heap == old(heap) && gray == old(gray)
      ensures SlotsIn(old(heap)[o].slots, Marked(old(heap))) ==> !marked
    {
      hide MarkOk, Bounded, Recolored, Marked, Unmarked, Work;
      marked := false;
      SlotRefs(heap, currentwhite, M(rest, busy), o, S);
      AdvancedSame(heap);
      var i := 0;
      while i < |heap[o].slots|
        invariant Marking(rest, busy, S) && Recolored(old(heap), heap) && heap.Keys == old(heap).Keys
          && heap[o] == old(heap)[o]
        invariant 0 <= i <= |heap[o].slots| && SlotsIn(heap[o].slots[..i], Marked(heap))
        invariant SlotsIn(heap[o].slots, heap.Keys) && SlotsIn(heap[o].slots, S)
        invariant Work(heap, gray) <= Work(old(heap), old(gray)) && |Unmarked(heap)| <= |Unmarked(old(heap))|
        invariant if marked then |Unmarked(heap)| < |Unmarked(old(heap))| else heap == old(heap) && gray == old(gray)
        invariant SlotsIn(old(heap)[o].slots, Marked(old(heap))) ==> !marked
      {
        ghost var h := heap;
        var v := heap[o].slots[i];
        if IsWhite(heap, v) {
          WhiteMarked(heap, v);
          marked := true;
          ReallyMark(v.id, rest, busy, S);
          RecoloredTrans(old(heap), h, heap);
          RecoloredKeys(h, heap, o);
          SlotsMore(heap[o].slots[..i], Marked(h), Marked(heap));
        } else {
          WhiteMarked(heap, v);
        }
        SlotsNext(heap[o].slots, i, Marked(heap));
        i := i + 1;
      }
      assert heap[o].slots[..i] == heap[o].slots;
    }

    /** Removes the key of an empty entry when it is not marked. */
    method RemoveEntry(o: Id, i: nat, ghost rest: Others, ghost busy: set<Id>, ghost S: set<Id>)
      requires Marking(rest, busy, S) && o in heap && o in busy && i < |heap[o].node| && heap[o].node[i].val == Nil
      modifies this`heap
      ensures Marking(rest, busy, S) && Advanced(old(heap), heap)
      ensures Marked(heap) == Marked(old(heap)) && Unmarked(heap) == Unmarked(old(heap))
      ensures o in heap && heap == old(heap)[o := heap[o]]
      ensures heap[o] == old(heap)[o] || heap[o] == WithoutKey(old(heap)[o], i)
      ensures i < |heap[o].node| && In(heap[o].node[i].key, Marked(heap)) && heap[o].node[i].val == Nil
    {
      hide MarkOk, Bounded, Marked, Unmarked, Advanced;
      AdvancedSame(heap);
      var k := heap[o].node[i].key;
      KeyRef(heap, currentwhite, M(rest, busy), o, i);
      if IsWhite(heap, k) {
        StepRemoveKey(heap, currentwhite, M(rest, busy), o, i, S);
        heap := heap[o := WithoutKey(heap[o], i)];
      } else {
        WhiteMarked(heap, k);
      }
    }

    method TraverseStrongTable(o: Id, ghost rest: Others, ghost busy: set<Id>, ghost S: set<Id>)
      requires Marking(rest, busy, S) && o in heap && o in S && o in busy && heap[o].kind == TABLE(Strong)
        && !heap[o].color.White?
      modifies this`heap, this`gray
      ensures Marking(rest, busy, S) && Advanced(old(heap), heap) && o in heap && SameHead(old(heap)[o], heap[o])
      ensures SlotsIn(heap[o].slots, Marked(heap)) && NodeIn(heap[o].node, Marked(heap))
      ensures Work(heap, gray) <= Work(old(heap), old(gray))
    {
      hide MarkOk, Bounded, Recolored, Marked, Unmarked, Advanced;
      var _ := MarkSlots(o, rest, busy, S);
      RecoloredAdvanced(old(heap), heap);
      ghost var o0 := heap[o];
      var i := 0;
      while i < |heap[o].node|
        invariant Marking(rest, busy, S) && Advanced(old(heap), heap) && o in heap && Scanned(o0, heap[o], i)
        invariant 0 <= i <= |heap[o].node| && NodeDone(heap[o].node, i, Marked(heap)) && SlotsIn(o0.slots, Marked(heap))
        invariant Work(heap, gray) <= Work(old(heap), old(gray))
        decreases |o0.node| - i
      {
        ghost var h := heap;
        var e := heap[o].node[i];
        if e.val == Nil {
          RemoveEntry(o, i, rest, busy, S);
          AdvancedTrans(old(heap), h, heap);
        } else {
          NodeRefs(heap, currentwhite, M(rest, busy), o, i, S);
          MarkValue(e.key, rest, busy, S);
          AdvancedKept(old(heap), h, heap, o);
          ghost var h1 := heap;
          NodeRefs(heap, currentwhite, M(rest, busy), o, i, S);
          MarkValue(e.val, rest, busy, S);
          AdvancedKept(old(heap), h1, heap, o);
          NodeMore(h[o].node, i, Marked(h), Marked(heap));
          SlotsMore(o0.slots, Marked(h), Marked(heap));
        }
        ScannedNext(o0, h[o], heap[o], i, Marked(heap));
        i := i + 1;
      }
    }

    /** Whether a value is to be cleared from a weak table; a string is marked instead. */
    method IsCleared(v: Val, ghost rest: Others, ghost busy: set<Id>, ghost S: set<Id>) returns (r: bool)
      requires Marking(rest, busy, S) && In(v, heap.Keys) && (IsString(heap, v) ==> In(v, S))
      modifies this`heap, this`gray
      ensures Marking(rest, busy, S) && Recolored(old(heap), heap) && OnlyStrings(old(heap), heap) && gray == old(gray)
      ensures r <==> Clearable(old(heap), v)
      ensures r <==> Clearable(heap, v)
      ensures r ==> heap == old(heap)
      ensures !r ==> In(v, Marked(heap))
      ensures |Unmarked(heap)| <= |Unmarked(old(heap))|
    {
      hide MarkOk, Bounded, Recolored, Marked, Unmarked, OnlyStrings, IsString, Clearable;
      NothingCleared(heap, v);
      if !v.Ref? {
        return false;
      }
      if heap[v.id].kind.STRING? {
        ghost var h := heap;
        MarkValue(v, rest, busy, S);
        StringMarked(h, heap, v);
        return false;
      }
      return heap[v.id].color.White?;
    }

    /** Marks the key of an entry and tells whether its value may have to be cleared. */
    method WeakEntry(o: Id, i: nat, hasclears: bool, ghost rest: Others, ghost busy: set<Id>, ghost S: set<Id>)
      returns (clears: bool)
      requires Marking(rest, busy, S) && o in heap && o in S && heap[o].kind == TABLE(WeakValues)
        && !heap[o].color.White?
      requires i < |heap[o].node| && heap[o].node[i].val != Nil
      modifies this`heap, this`gray
      ensures Marking(rest, busy, S) && Advanced(old(heap), heap) && o in heap && heap[o] == old(heap)[o]
      ensures Work(heap, gray) <= Work(old(heap), old(gray)) && In(heap[o].node[i].key, Marked(heap))
      ensures hasclears ==> clears
      ensures clears && !hasclears ==> Clearable(old(heap), heap[o].node[i].val)
      ensures !clears ==> In(heap[o].node[i].val, Marked(heap))
    {
      hide MarkOk, Bounded, Recolored, Marked, Unmarked, Advanced, OnlyStrings, IsString, Clearable;
      ghost var h := heap;
      var e := heap[o].node[i];
      clears := hasclears;
      AdvancedSame(heap);
      NodeRefs(heap, currentwhite, M(rest, busy), o, i, S);
      MarkValue(e.key, rest, busy, S);
      AdvancedKept(h, h, heap, o);
      StillWhite(h, heap, e.val);
      ghost var h1 := heap;
      if !clears {
        NodeRefs(heap, currentwhite, M(rest, busy), o, i, S);
        clears := IsCleared(e.val, rest, busy, S);
        AdvancedKept(h, h1, heap, o);
      }
    }

    /** The list on which a traversed table with weak values is kept. */
    method LinkWeak(o: Id, hasclears: bool, ghost rest: Others, ghost busy: set<Id>, ghost S: set<Id>)
      requires Marking(rest, busy, S) && o in heap && o in busy && heap[o].kind == TABLE(WeakValues)
        && heap[o].color.Gray?
      requires In(heap[o].meta, Marked(heap)) && (gcstate == Propagate || rest.atomic)
      requires KeysDone(heap[o].node, |heap[o].node|, Marked(heap))
      requires !hasclears ==> heap[o].slots == [] && ValsDone(heap[o].node, |heap[o].node|, Marked(heap))
      modifies this`grayagain, this`weak
      ensures Marking(rest, busy - {o}, S)
      ensures weak == if gcstate != Propagate && hasclears then [o] + old(weak) else old(weak)
      ensures grayagain == if gcstate == Propagate then [o] + old(grayagain) else old(grayagain)
    {
      hide MarkOk, Bounded, Marked, KeysDone, ValsDone, Visited;
      PaintSame(heap, o);
      if gcstate == Propagate {
        StepPush(heap, currentwhite, M(rest, busy), REST, o);
        grayagain := [o] + grayagain;
      } else if hasclears {
        VisitedWeakValues(heap, Push(M(rest, busy), WEAK, o), o, true);
        StepPush(heap, currentwhite, M(rest, busy), WEAK, o);
        weak := [o] + weak;
      } else {
        VisitedWeakValues(heap, M(rest, busy - {o}), o, false);
        StepDone(heap, currentwhite, M(rest, busy), o, Gray);
      }
    }

    method TraverseWeakValue(o: Id, ghost rest: Others, ghost busy: set<Id>, ghost S: set<Id>)
      requires Marking(rest, busy, S) && o in heap && o in S && o in busy && heap[o].kind == TABLE(WeakValues)
        && heap[o].color.Gray?
      requires In(heap[o].meta, Marked(heap)) && (gcstate == Propagate || rest.atomic)
      modifies this`heap, this`gray, this`grayagain, this`weak
      ensures Marking(rest, busy - {o}, S) && Advanced(old(heap), heap)
      ensures Work(heap, gray) <= Work(old(heap), old(gray))
      ensures weak == old(weak) || weak == [o] + old(weak)
      ensures gcstate != Propagate && |old(heap)[o].slots| > 0 ==> weak == [o] + old(weak)
      ensures gcstate == Propagate ==> weak == old(weak)
      ensures Quiet(old(heap), o) ==> weak == old(weak)
      ensures grayagain == if gcstate == Propagate then [o] + old(grayagain) else old(grayagain)
    {
      hide MarkOk, Bounded, Recolored, Marked, Unmarked, Advanced, OnlyStrings, IsString, Visited, Clearable;
      ghost var quiet := Quiet(heap, o);
      QuietSlots(heap, o);
      hide Quiet;
      AdvancedSame(heap);
      ghost var o0 := heap[o];
      var hasclears := |heap[o].slots| > 0;
      var i := 0;
      while i < |heap[o].node|
        invariant Marking(rest, busy, S) && Advanced(old(heap), heap) && o in heap && Scanned(o0, heap[o], i)
        invariant 0 <= i <= |heap[o].node| && KeysDone(heap[o].node, i, Marked(heap)) && In(o0.meta, Marked(heap))
        invariant (|o0.slots| > 0 ==> hasclears) && (quiet ==> !hasclears) && weak == old(weak)
          && grayagain == old(grayagain)
        invariant !hasclears ==> heap[o].slots == [] && ValsDone(heap[o].node, i, Marked(heap))
        invariant Work(heap, gray) <= Work(old(heap), old(gray))
        decreases |o0.node| - i
      {
        ghost var h := heap;
        var e := heap[o].node[i];
        if e.val == Nil {
          RemoveEntry(o, i, rest, busy, S);
          AdvancedTrans(old(heap), h, heap);
        } else {
          QuietValue(old(heap), h, o, i);
          hasclears := WeakEntry(o, i, hasclears, rest, busy, S);
          AdvancedTrans(old(heap), h, heap);
          AdvancedMarked(h, heap);
          NodeMore(h[o].node, i, Marked(h), Marked(heap));
        }
        ScannedNext(o0, h[o], heap[o], i, Marked(heap));
        i := i + 1;
      }
      LinkWeak(o, hasclears, rest, busy, S);
    }

    /** An entry with a value: where the key is marked, the value is marked. */
    method EphemeronPair(o: Id, i: nat, ghost rest: Others, ghost busy: set<Id>, ghost S: set<Id>)
      returns (marked: bool, cleared: bool, ww: bool)
      requires Marking(rest, busy, S) && o in heap && o in S && heap[o].kind == TABLE(Ephemeron)
        && !heap[o].color.White?
      requires i < |heap[o].node| && heap[o].node[i].val != Nil
      modifies this`heap, this`gray
      ensures Marking(rest, busy, S) && Advanced(old(heap), heap) && o in heap && heap[o] == old(heap)[o]
      ensures Work(heap, gray) <= Work(old(heap), old(gray)) && |Unmarked(heap)| <= |Unmarked(old(heap))|
      ensures marked ==> |Unmarked(heap)| < |Unmarked(old(heap))|
      ensures !marked ==> OnlyStrings(old(heap), heap) && gray == old(gray)
      ensures cleared <==> Clearable(old(heap), heap[o].node[i].key)
      ensures cleared ==> !marked && heap == old(heap)
      ensures !cleared ==> In(heap[o].node[i].key, Marked(heap)) && !ww
      ensures ww ==> cleared && IsWhite(heap, heap[o].node[i].val)
      ensures !ww ==> In(heap[o].node[i].val, Marked(heap))
      ensures In(heap[o].node[i].val, Marked(old(heap))) ==> !marked
    {
      hide MarkOk, Bounded, Recolored, Marked, Unmarked, Advanced, OnlyStrings, IsString, Clearable;
      AdvancedSame(heap);
      marked, ww := false, false;
      ghost var h := heap;
      var e := heap[o].node[i];
      NodeRefs(heap, currentwhite, M(rest, busy), o, i, S);
      WhiteMarked(heap, e.val);
      cleared := IsCleared(e.key, rest, busy, S);
      AdvancedKept(h, h, heap, o);
      NodeRefs(heap, currentwhite, M(rest, busy), o, i, S);
      WhiteMarked(heap, e.val);
      if cleared {
        ww := IsWhite(heap, e.val);
      } else {
        InBound(e.key, heap, S);
        ghost var h1 := heap;
        WhiteKept(h, heap, e.val);
        if IsWhite(heap, e.val) {
          marked := true;
          ReallyMark(e.val.id, rest, busy, S);
          AdvancedKept(h, h1, heap, o);
        }
      }
    }

    /** One entry of an ephemeron table: returns whether its value was marked, and the new
        values of the two flags. */
    method EphemeronEntry(o: Id, i: nat, ghost o0: Obj, hasclears: bool, hasww: bool, ghost rest: Others,
                          ghost busy: set<Id>, ghost S: set<Id>)
      returns (marked: bool, clears: bool, ww: bool)
      requires Marking(rest, busy, S) && o in heap && o in S && o in busy && heap[o].kind == TABLE(Ephemeron)
        && heap[o].color.Gray?
      requires i < |heap[o].node| && Scanned(o0, heap[o], i) && EphemeronDone(heap, heap[o].node, i, hasclears, hasww)
      modifies this`heap, this`gray
      ensures Marking(rest, busy, S) && Advanced(old(heap), heap) && o in heap && Scanned(o0, heap[o], i + 1)
      ensures EphemeronDone(heap, heap[o].node, i + 1, clears, ww)
      ensures Work(heap, gray) <= Work(old(heap), old(gray)) && |Unmarked(heap)| <= |Unmarked(old(heap))|
      ensures marked ==> |Unmarked(heap)| < |Unmarked(old(heap))|
      ensures !marked ==> OnlyStrings(old(heap), heap) && gray == old(gray)
      ensures !marked && NodeConverged(old(heap), old(heap)[o].node, i) ==> NodeConverged(heap, heap[o].node, i + 1)
      ensures Clearable(old(heap), old(heap)[o].node[i].key) || In(old(heap)[o].node[i].val, Marked(old(heap))) ==>
        !marked
      ensures ww && !hasww ==>
        IsWhite(old(heap), old(heap)[o].node[i].val) && Clearable(old(heap), old(heap)[o].node[i].key)
    {
      hide MarkOk, Bounded, Recolored, Marked, Unmarked, Advanced, OnlyStrings, IsString, Visited, EphemeronDone,
           NodeConverged, KeysDone, ValsDone;
      AdvancedSame(heap);
      marked, clears, ww := false, hasclears, hasww;
      ghost var h := heap;
      var e := heap[o].node[i];
      NodeRefs(heap, currentwhite, M(rest, busy), o, i, S);
      if e.val == Nil {
        RemoveEntry(o, i, rest, busy, S);
        OnlyStringsSame(h, heap);
      } else {
        var cleared, w;
        marked, cleared, w := EphemeronPair(o, i, rest, busy, S);
        clears, ww := hasclears || cleared, hasww || w;
      }
      EphemeronMore(h, heap, h[o].node, i, hasclears, hasww);
      EphemeronFlags(heap, h[o].node, i, hasclears, hasww, clears, ww);
      EphemeronNext(heap, h[o].node, heap[o].node, i, clears, ww);
      if !marked && NodeConverged(h, h[o].node, i) {
        StringsKept(h, heap);
        AdvancedKeys(h, heap, o);
        ConvergedMore(h, heap, h[o].node, i);
        ConvergedNext(heap, h[o].node, heap[o].node, i);
      }
      ScannedNext(o0, h[o], heap[o], i, Marked(heap));
    }

    /** The list on which a traversed ephemeron table is kept. */
    method LinkEphemeron(o: Id, hasclears: bool, hasww: bool, ghost rest: Others, ghost busy: set<Id>, ghost S: set<Id>)
      requires Marking(rest, busy, S) && o in heap && o in busy && heap[o].kind == TABLE(Ephemeron)
        && heap[o].color.Gray?
      requires In(heap[o].meta, Marked(heap)) && SlotsIn(heap[o].slots, Marked(heap))
        && (gcstate == Propagate || rest.atomic)
      requires EphemeronDone(heap, heap[o].node, |heap[o].node|, hasclears, hasww)
      modifies this`grayagain, this`ephemeron, this`allweak
      ensures |allweak| >= |old(allweak)|
      ensures Marking(rest, busy - {o}, S)
      ensures ephemeron == if gcstate != Propagate && hasww then [o] + old(ephemeron) else old(ephemeron)
      ensures gcstate == Propagate ==> allweak == old(allweak)
      ensures grayagain == if gcstate == Propagate then [o] + old(grayagain) else old(grayagain)
    {
      hide MarkOk, Bounded, Marked, EphemeronDone, Visited;
      PaintSame(heap, o);
      if gcstate == Propagate {
        StepPush(heap, currentwhite, M(rest, busy), REST, o);
        grayagain := [o] + grayagain;
      } else if hasww {
        VisitedEphemeron(heap, Push(M(rest, busy), EPHEMERON, o), o, hasclears, hasww);
        StepPush(heap, currentwhite, M(rest, busy), EPHEMERON, o);
        ephemeron := [o] + ephemeron;
      } else if hasclears {
        VisitedEphemeron(heap, Push(M(rest, busy), ALLWEAK, o), o, hasclears, hasww);
        StepPush(heap, currentwhite, M(rest, busy), ALLWEAK, o);
        allweak := [o] + allweak;
      } else {
        VisitedEphemeron(heap, M(rest, busy - {o}), o, hasclears, hasww);
        StepDone(heap, currentwhite, M(rest, busy), o, Gray);
      }
    }

    /** Marks the values of an ephemeron table whose keys are marked; returns whether one
        was white. In the atomic phase the table is kept on the list of those that still
        have an entry from a white key to a white value, or only a white key. */
    method TraverseEphemeron(o: Id, ghost rest: Others, ghost busy: set<Id>, ghost S: set<Id>) returns (marked: bool)
      requires Marking(rest, busy, S) && o in heap && o in S && o in busy && heap[o].kind == TABLE(Ephemeron)
        && heap[o].color.Gray?
      requires In(heap[o].meta, Marked(heap)) && (gcstate == Propagate || rest.atomic)
      modifies this`heap, this`gray, this`grayagain, this`ephemeron, this`allweak
      ensures |allweak| >= |old(allweak)|
      ensures Marking(rest, busy - {o}, S) && Advanced(old(heap), heap)
      ensures Work(heap, gray) <= Work(old(heap), old(gray)) && |Unmarked(heap)| <= |Unmarked(old(heap))|
      ensures ephemeron == old(ephemeron) || ephemeron == [o] + old(ephemeron)
      ensures marked ==> |Unmarked(heap)| < |Unmarked(old(heap))|
      ensures !marked ==>
        OnlyStrings(old(heap), heap) && o in heap && NodeConverged(heap, heap[o].node, |heap[o].node|)
          && gray == old(gray)
      ensures
        NodeConverged(old(heap), old(heap)[o].node, |old(heap)[o].node|) &&
        SlotsIn(old(heap)[o].slots, Marked(old(heap))) ==>
        !marked
      ensures gcstate == Propagate ==> allweak == old(allweak) && ephemeron == old(ephemeron)
      ensures Quiet(old(heap), o) ==> ephemeron == old(ephemeron)
      ensures grayagain == if gcstate == Propagate then [o] + old(grayagain) else old(grayagain)
    {
      hide MarkOk, Bounded, Recolored, Marked, Unmarked, Advanced, OnlyStrings, IsString, IsWhite, Visited, Clearable,
           EphemeronDone, NodeConverged, Quiet;
      AdvancedSame(heap);
      OnlyStringsSame(heap, heap);
      marked := MarkSlots(o, rest, busy, S);
      AdvancedKept(old(heap), old(heap), heap, o);
      ghost var o0 := heap[o];
      var hasclears, hasww := false, false;
      var i := 0;
      EphemeronStart(heap, heap[o].node);
      ghost var conv := NodeConverged(old(heap), o0.node, |o0.node|) && SlotsIn(o0.slots, Marked(old(heap)));
      while i < |heap[o].node|
        invariant Marking(rest, busy, S) && Advanced(old(heap), heap) && o in heap && Scanned(o0, heap[o], i)
        invariant 0 <= i <= |heap[o].node| && In(o0.meta, Marked(heap)) && SlotsIn(o0.slots, Marked(heap))
        invariant EphemeronDone(heap, heap[o].node, i, hasclears, hasww)
        invariant Work(heap, gray) <= Work(old(heap), old(gray)) && |Unmarked(heap)| <= |Unmarked(old(heap))|
        invariant marked ==> |Unmarked(heap)| < |Unmarked(old(heap))|
        invariant !marked ==> OnlyStrings(old(heap), heap) && NodeConverged(heap, heap[o].node, i) && gray == old(gray)
        invariant ephemeron == old(ephemeron) && allweak == old(allweak) && grayagain == old(grayagain)
        invariant Quiet(old(heap), o) ==> !hasww
        invariant conv ==> !marked && NodeConverged(heap, o0.node, |o0.node|)
        decreases |o0.node| - i
      {
        ghost var h := heap;
        if conv && heap[o].node[i].val != Nil {
          ConvergedEntry(heap, o0.node, i);
        }
        QuietPair(old(heap), heap, o, i);
        var m, c, w := EphemeronEntry(o, i, o0, hasclears, hasww, rest, busy, S);
        AdvancedTrans(old(heap), h, heap);
        AdvancedKeys(h, heap, o);
        SlotsMore(o0.slots, Marked(h), Marked(heap));
        if !marked && !m {
          StringsTrans(old(heap), h, heap);
          StringsKept(h, heap);
          if conv {
            ConvergedMore(h, heap, o0.node, |o0.node|);
          }
        }
        marked, hasclears, hasww := marked || m, c, w;
        i := i + 1;
      }
      LinkEphemeron(o, hasclears, hasww, rest, busy, S);
    }

    /** Traverses a weak table, which becomes gray again. */
    method TraverseWeak(o: Id, ghost rest: Others, ghost S: set<Id>)
      requires Marking(rest, {o}, S) && o in heap && o in S && heap[o].color.Black?
      requires heap[o].kind.TABLE? && !heap[o].kind.mode.Strong? && In(heap[o].meta, Marked(heap))
      requires gcstate == Propagate || rest.atomic
      modifies this`heap, this`gray, this`grayagain, this`weak, this`allweak, this`ephemeron
      ensures |allweak| >= |old(allweak)|
      ensures Marking(rest, {}, S) && Advanced(old(heap), heap)
      ensures Work(heap, gray) <= Work(old(heap), old(gray))
      ensures gcstate != Propagate && old(heap)[o].kind == TABLE(WeakValues) && |old(heap)[o].slots| > 0 ==>
        weak == [o] + old(weak)
      ensures gcstate == Propagate ==> weak == old(weak) && allweak == old(allweak) && ephemeron == old(ephemeron)
      ensures weak == old(weak) || weak == [o] + old(weak)
      ensures ephemeron == old(ephemeron) || ephemeron == [o] + old(ephemeron)
      ensures gcstate != Propagate && Quiet(old(heap), o) ==> weak == old(weak) && ephemeron == old(ephemeron)
      ensures grayagain == old(grayagain) || (gcstate == Propagate && NeverBlack(old(heap)[o].kind)
        && grayagain == [o] + old(grayagain))
    {
      hide MarkOk, Bounded, Recolored, Marked, Unmarked, Advanced, Within, Cleaned, Shape, OnlyStrings, NodeConverged,
           Quiet;
      ghost var h1 := heap;
      AdvancedPaint(heap, o, Gray);
      PaintCleaned(heap, o, Gray);
      BoundedPaint(heap, o, Gray, S);
      StepBusy(heap, currentwhite, M(rest, {o}), o, heap[o].(color := Gray), heap.Keys);
      heap := Paint(heap, o, Gray);
      ghost var h2 := heap;
      QuietKept(h1, h2, o);
      if heap[o].kind.mode.WeakValues? {
        TraverseWeakValue(o, rest, {o}, S);
      } else {
        var _ := TraverseEphemeron(o, rest, {o}, S);
      }
      AdvancedTrans(h1, h2, heap);
      assert {o} - {o} == {};
    }

    /** Traverses a table taken from the gray list; a weak table stays gray. */
    method TraverseTable(o: Id, ghost rest: Others, ghost S: set<Id>)
      requires Marking(rest, {o}, S) && o in heap && o in S && heap[o].kind.TABLE? && heap[o].color.Black?
      requires gcstate == Propagate || rest.atomic
      modifies this`heap, this`gray, this`grayagain, this`weak, this`allweak, this`ephemeron
      ensures |allweak| >= |old(allweak)|
      ensures Marking(rest, {}, S) && Advanced(old(heap), heap)
      ensures Work(heap, gray) <= Work(old(heap), old(gray))
      ensures gcstate != Propagate && old(heap)[o].kind == TABLE(WeakValues) && |old(heap)[o].slots| > 0 ==>
        weak == [o] + old(weak)
      ensures gcstate == Propagate ==> weak == old(weak) && allweak == old(allweak) && ephemeron == old(ephemeron)
      ensures weak == old(weak) || weak == [o] + old(weak)
      ensures ephemeron == old(ephemeron) || ephemeron == [o] + old(ephemeron)
      ensures gcstate != Propagate && Quiet(old(heap), o) ==> weak == old(weak) && ephemeron == old(ephemeron)
      ensures grayagain == old(grayagain) || (gcstate == Propagate && NeverBlack(old(heap)[o].kind)
        && grayagain == [o] + old(grayagain))
    {
      hide MarkOk, Bounded, Recolored, Marked, Unmarked, Advanced, Within, Quiet;
      AdvancedSame(heap);
      ghost var h0 := heap;
      MetaRefs(heap, currentwhite, M(rest, {o}), o, S);
      MarkValue(heap[o].meta, rest, {o}, S);
      AdvancedKept(h0, h0, heap, o);
      ghost var h1 := heap;
      if heap[o].kind.mode.Strong? {
        TraverseStrongTable(o, rest, {o}, S);
        AdvancedTrans(h0, h1, heap);
        AdvancedKeys(h1, heap, o);
        WithinMake(heap[o], Marked(heap));
        StepTraversed(heap, currentwhite, M(rest, {o}), o);
      } else {
        QuietKept(h0, h1, o);
        TraverseWeak(o, rest, S);
        AdvancedTrans(h0, h1, heap);
      }
      assert {o} - {o} == {};
    }

    /** Marks the stack of a thread, which is kept gray on the list for the atomic phase. */
    method TraverseThread(o: Id, ghost rest: Others, ghost S: set<Id>)
      requires Marking(rest, {o}, S) && o in heap && o in S && heap[o].kind.THREAD? && heap[o].color.Gray?
      requires gcstate == Propagate || rest.atomic
      modifies this`heap, this`gray, this`grayagain
      ensures Marking(rest, {}, S) && Advanced(old(heap), heap)
      ensures Work(heap, gray) <= Work(old(heap), old(gray))
      ensures grayagain == [o] + old(grayagain) && o in heap && heap[o].kind.THREAD?
        && SlotsIn(heap[o].slots, Marked(heap))
    {
      hide MarkOk, Bounded, Recolored, Marked, Unmarked, Advanced, Within;
      ghost var h1 := heap;
      AdvancedSame(heap);
      assert {o} - {o} == {};
      if gcstate != InsideAtomic {
        PaintSame(heap, o);
        StepPush(heap, currentwhite, M(rest, {o}), REST, o);
      }
      grayagain := [o] + grayagain;
      ghost var busy := if gcstate == InsideAtomic then {o} else {};
      var _ := MarkSlots(o, rest, busy, S);
      AdvancedKept(h1, h1, heap, o);
      if gcstate == InsideAtomic {
        StepThread(heap, currentwhite, M(rest, {o}), o);
      }
    }

    /** Marks the constants or upvalues of a function. */
    method TraverseFunction(o: Id, ghost rest: Others, ghost S: set<Id>)
      requires Marking(rest, {o}, S) && o in heap && o in S && heap[o].kind.CLOSURE? && heap[o].color.Black?
      modifies this`heap, this`gray
      ensures Marking(rest, {}, S) && Advanced(old(heap), heap)
      ensures Work(heap, gray) <= Work(old(heap), old(gray))
    {
      hide MarkOk, Bounded, Recolored, Marked, Unmarked, Advanced, Within;
      AdvancedSame(heap);
      assert {o} - {o} == {};
      ghost var h := heap;
      var _ := MarkSlots(o, rest, {o}, S);
      AdvancedKept(h, h, heap, o);
      MarkOkHeap(heap, currentwhite, M(rest, {o}));
      SlotsOnly(heap, o, Marked(heap));
      StepTraversed(heap, currentwhite, M(rest, {o}), o);
    }

    /** Traverses one gray object. */
    method PropagateMark(ghost rest: Others, ghost S: set<Id>)
      requires Marking(rest, {}, S) && gray != [] && (gcstate == Propagate || rest.atomic)
      modifies this`heap, this`gray, this`grayagain, this`weak, this`allweak, this`ephemeron
      ensures |allweak| >= |old(allweak)|
      ensures Marking(rest, {}, S) && Advanced(old(heap), heap)
      ensures Work(heap, gray) < Work(old(heap), old(gray))
      ensures old(gray[0]) in old(heap)
      ensures
        gcstate != Propagate && old(heap)[old(gray[0])].kind == TABLE(WeakValues) &&
        |old(heap)[old(gray[0])].slots| > 0 ==>
        weak == [old(gray[0])] + old(weak)
      ensures gcstate == Propagate ==> weak == old(weak) && allweak == old(allweak) && ephemeron == old(ephemeron)
      ensures weak == old(weak) || weak == [old(gray[0])] + old(weak)
      ensures ephemeron == old(ephemeron) || ephemeron == [old(gray[0])] + old(ephemeron)
      ensures gcstate != Propagate && Quiet(old(heap), old(gray[0])) ==>
        weak == old(weak) && ephemeron == old(ephemeron)
      ensures grayagain == old(grayagain) || (grayagain == [old(gray[0])] + old(grayagain)
        && NeverBlack(old(heap)[old(gray[0])].kind))
      ensures gcstate == Atomic && grayagain != old(grayagain) ==>
        old(gray[0]) in heap && heap[old(gray[0])].kind.THREAD? && SlotsIn(heap[old(gray[0])].slots, Marked(heap))
    {
      hide MarkOk, Bounded, Recolored, Marked, Unmarked, Advanced, Within, Quiet;
      var o := gray[0];
      ghost var h0 := heap;
      PopFacts(heap, currentwhite, M(rest, {}), Black, S);
      PopFacts(heap, currentwhite, M(rest, {}), Gray, S);
      gray := gray[1..];
      assert {} + {o} == {o} && {o} - {o} == {};
      if heap[o].kind.THREAD? {
        heap := Paint(heap, o, Gray);
        ghost var h1 := heap;
        TraverseThread(o, rest, S);
        AdvancedTrans(h0, h1, heap);
      } else {
        heap := Paint(heap, o, Black);
        ghost var h1 := heap;
        if heap[o].kind.TABLE? {
          QuietKept(h0, heap, o);
          TraverseTable(o, rest, S);
          AdvancedTrans(h0, h1, heap);
        } else {
          TraverseFunction(o, rest, S);
          AdvancedTrans(h0, h1, heap);
        }
      }
    }

    method PropagateAll(ghost rest: Others, ghost S: set<Id>)
      requires Marking(rest, {}, S) && (gcstate == Propagate || rest.atomic)
      modifies this`heap, this`gray, this`grayagain, this`weak, this`allweak, this`ephemeron
      ensures |allweak| >= |old(allweak)|
      ensures Marking(rest, {}, S) && Advanced(old(heap), heap) && gray == []
      ensures Work(heap, gray) <= Work(old(heap), old(gray))
      ensures old(gray) == [] ==>
        heap == old(heap) && weak == old(weak) && allweak == old(allweak) && ephemeron == old(ephemeron)
      ensures Grown(old(weak), weak) && Grown(old(ephemeron), ephemeron) && Grown(old(grayagain), grayagain)
      ensures NoneBlack(heap, old(grayagain), grayagain)
      ensures gcstate == Atomic ==> StacksMarked(heap, old(grayagain), grayagain)
      ensures gcstate == Atomic && Calm(old(heap), S, old(grayagain)) ==>
        weak == old(weak) && ephemeron == old(ephemeron)
    {
      hide MarkOk, Bounded, Advanced, Work, Quiet, Calm, Grown, NoneBlack, StacksMarked, SlotsIn, Marked, NeverBlack;
      AdvancedSame(heap);
      GrownSame(heap, weak);
      GrownSame(heap, ephemeron);
      GrownSame(heap, grayagain);
      while gray != []
        invariant Grown(old(weak), weak) && Grown(old(ephemeron), ephemeron) && Grown(old(grayagain), grayagain)
        invariant NoneBlack(heap, old(grayagain), grayagain)
        invariant gcstate == Atomic ==> StacksMarked(heap, old(grayagain), grayagain)
        invariant gcstate == Atomic && Calm(old(heap), S, old(grayagain)) ==>
          weak == old(weak) && ephemeron == old(ephemeron)
        invariant old(gray) == [] ==>
          gray == [] && heap == old(heap) && weak == old(weak) && allweak == old(allweak) && ephemeron == old(ephemeron)
        invariant Marking(rest, {}, S) && Advanced(old(heap), heap) && |allweak| >= |old(allweak)|
        invariant Work(heap, gray) <= Work(old(heap), old(gray))
        decreases Work(heap, gray)
      {
        ghost var h, x, w, e, again := heap, gray[0], weak, ephemeron, grayagain;
        if gcstate == Atomic && Calm(old(heap), S, old(grayagain)) {
          CalmNext(old(heap), heap, currentwhite, M(rest, {}), S, old(grayagain));
        }
        PropagateMark(rest, S);
        AdvancedTrans(old(heap), h, heap);
        GrownMore(old(weak), w, weak, x);
        GrownMore(old(ephemeron), e, ephemeron, x);
        GrownMore(old(grayagain), again, grayagain, x);
        NoneBlackMore(h, heap, old(grayagain), again, grayagain, x);
        if gcstate == Atomic {
          StacksMore(h, heap, old(grayagain), again, grayagain, x);
        }
      }
    }

    /** Traverses the first of the ephemeron tables and what that marks. */
    method ConvergeTable(next: seq<Id>, ghost S: set<Id>) returns (marked: bool)
      requires next != [] && Marking(Others(next, true), {}, S) && gray == [] && gcstate == InsideAtomic
        && MetasMarked(heap, next)
      modifies this`heap, this`gray, this`grayagain, this`weak, this`allweak, this`ephemeron
      ensures |allweak| >= |old(allweak)|
      ensures Marking(Others(next[1..], true), {}, S) && Advanced(old(heap), heap) && gray == []
      ensures if marked then |Unmarked(heap)| < |Unmarked(old(heap))|
        else OnlyStrings(old(heap), heap) && weak == old(weak)
      ensures !marked && AllConverged(old(heap), old(ephemeron)) ==> AllConverged(heap, ephemeron)
      ensures
        var w := next[0];
        && w in old(heap)
        && (NodeConverged(old(heap), old(heap)[w].node, |old(heap)[w].node|) &&
            SlotsIn(old(heap)[w].slots, Marked(old(heap))) ==>
            !marked)
    {
      hide MarkOk, Bounded, Advanced, Marked, Unmarked, OnlyStrings, AllConverged, NodeConverged, Visited, Grown,
           NoneBlack, StacksMarked, Calm, Quiet;
      ghost var h := heap;
      var w := next[0];
      StepPopRest(heap, currentwhite, M(Others(next, true), {}), S);
      assert w in next && {} + {w} == {w} && {w} - {w} == {};
      ghost var e := ephemeron;
      marked := TraverseEphemeron(w, Others(next[1..], true), {w}, S);
      ghost var h1 := heap;
      if marked {
        PropagateAll(Others(next[1..], true), S);
        AdvancedTrans(h, h1, heap);
        AdvancedUnmarked(h1, heap);
      } else {
        AdvancedCleaned(h, heap);
        if AllConverged(h, e) {
          AllConvergedMore(h, heap, h.Keys, e);
          AllConvergedAdd(heap, e, w);
        }
      }
    }

    /** One pass over the ephemeron tables; returns whether it marked a value. */
    method ConvergePass(ghost S: set<Id>) returns (changed: bool)
      requires Marking(Others([], true), {}, S) && gray == [] && gcstate == InsideAtomic
      modifies this`heap, this`gray, this`grayagain, this`weak, this`allweak, this`ephemeron
      ensures |allweak| >= |old(allweak)|
      ensures Marking(Others([], true), {}, S) && Advanced(old(heap), heap) && gray == []
      ensures if changed then |Unmarked(heap)| < |Unmarked(old(heap))|
        else |Unmarked(heap)| <= |Unmarked(old(heap))| && AllConverged(heap, ephemeron)
      ensures AllConverged(old(heap), old(ephemeron)) ==> !changed && OnlyStrings(old(heap), heap) && weak == old(weak)
    {
      hide MarkOk, Bounded, Advanced, Marked, Unmarked, OnlyStrings, AllConverged, NodeConverged, Visited, Grown,
           NoneBlack, StacksMarked, Calm, Quiet;
      AdvancedSame(heap);
      OnlyStringsSame(heap, heap);
      ghost var conv := AllConverged(heap, ephemeron);
      StepTakeEphemerons(heap, currentwhite, M(Others([], true), {}));
      AllConvergedNone(heap);
      var next := ephemeron;
      ephemeron := [];
      changed := false;
      while next != []
        invariant Marking(Others(next, true), {}, S) && Advanced(old(heap), heap) && gray == []
          && |allweak| >= |old(allweak)|
        invariant MetasMarked(heap, next)
        invariant conv ==> !changed && OnlyStrings(old(heap), heap) && weak == old(weak) && AllConverged(heap, next)
        invariant if changed then |Unmarked(heap)| < |Unmarked(old(heap))|
          else |Unmarked(heap)| <= |Unmarked(old(heap))| && AllConverged(heap, ephemeron)
      {
        ghost var h := heap;
        if conv {
          AllConvergedPop(heap, next);
        }
        var marked := ConvergeTable(next, S);
        next := next[1..];
        AdvancedTrans(old(heap), h, heap);
        AdvancedUnmarked(h, heap);
        MetasMore(h, heap, next);
        changed := changed || marked;
        if conv {
          StringsTrans(old(heap), h, heap);
          AdvancedCleaned(h, heap);
          AllConvergedMore(h, heap, h.Keys, next);
        }
      }
    }

    /** Traverses the ephemeron tables until a pass marks no value. */
    method ConvergeEphemerons(ghost S: set<Id>)
      requires Marking(Others([], true), {}, S) && gray == [] && gcstate == InsideAtomic
      modifies this`heap, this`gray, this`grayagain, this`weak, this`allweak, this`ephemeron
      ensures |allweak| >= |old(allweak)|
      ensures Marking(Others([], true), {}, S) && Advanced(old(heap), heap) && gray == []
      ensures AllConverged(heap, ephemeron)
      ensures AllConverged(old(heap), old(ephemeron)) ==> OnlyStrings(old(heap), heap) && weak == old(weak)
    {
      hide MarkOk, Bounded, Advanced, Marked, Unmarked, OnlyStrings, AllConverged;
      AdvancedSame(heap);
      OnlyStringsSame(heap, heap);
      ghost var conv := AllConverged(heap, ephemeron);
      var changed := true;
      while changed
        invariant Marking(Others([], true), {}, S) && Advanced(old(heap), heap) && gray == []
          && |allweak| >= |old(allweak)|
        invariant !changed ==> AllConverged(heap, ephemeron)
        invariant conv ==> OnlyStrings(old(heap), heap) && weak == old(weak) && AllConverged(heap, ephemeron)
        decreases |Unmarked(heap)|, changed
      {
        ghost var h := heap;
        changed := ConvergePass(S);
        AdvancedTrans(old(heap), h, heap);
        if conv {
          StringsTrans(old(heap), h, heap);
        }
      }
    }

    // ---------- clearing weak tables ----------

    /** The atomic phase after the marking is complete. */
    ghost predicate Clearing(S: set<Id>)
      reads this
    {
      Marking(Others([], true), {}, S) && gray == [] && gcstate == InsideAtomic
    }

    /** Clears the slots of a weak table whose values are not marked. */
    method ClearSlots(x: Id, ghost S: set<Id>)
      requires Clearing(S) && (x in weak || x in allweak)
      modifies this`heap, this`gray
      ensures Clearing(S) && Faded(old(heap), heap) && x in heap && SlotsIn(heap[x].slots, Marked(heap))
    {
      hide MarkOk, Bounded, Recolored, Marked, Unmarked, OnlyStrings, IsString, Visited, Clearable, Faded, Shape;
      ghost var m := M(Others([], true), {});
      FadedSame(heap);
      WeakRefs(heap, currentwhite, m, x, S);
      var i := 0;
      while i < |heap[x].slots|
        invariant Clearing(S) && M(Others([], true), {}) == m && Faded(old(heap), heap)
        invariant x in heap && heap[x].color.Gray? && x in S && Visited(heap, x, m) && Within(heap[x], heap.Keys)
        invariant heap[x].kind == TABLE(if x in weak then WeakValues else Ephemeron)
        invariant x !in weak ==> ValuesIn(heap[x], Marked(heap))
        invariant 0 <= i <= |heap[x].slots| && SlotsIn(heap[x].slots[..i], Marked(heap))
        decreases |heap[x].slots| - i
      {
        ghost var h := heap;
        SlotString(heap, x, i, S);
        var r := IsCleared(heap[x].slots[i], Others([], true), {}, S);
        FadedMore(old(heap), h, heap, x);
        VisitedString(h, heap, x, m);
        if r {
          ClearableKind(heap, x, heap[x].slots[i]);
          StepClearSlot(heap, currentwhite, m, x, i, S);
          ghost var h1 := heap;
          heap := heap[x := WithoutSlot(heap[x], i)];
          FadedTrans(old(heap), h1, heap);
        }
        SlotsMore(h[x].slots[..i], Marked(h), Marked(heap));
        assert heap[x].slots[..i] == h[x].slots[..i];
        SlotsNext(heap[x].slots, i, Marked(heap));
        i := i + 1;
        WeakRefs(heap, currentwhite, m, x, S);
      }
      assert heap[x].slots[..i] == heap[x].slots;
    }

    /** Clears the entries of a weak table whose values are not marked. */
    method ClearNode(x: Id, ghost S: set<Id>)
      requires Clearing(S) && (x in weak || x in allweak)
      modifies this`heap, this`gray
      ensures Clearing(S) && Faded(old(heap), heap) && x in heap && ValsDone(heap[x].node, |heap[x].node|, Marked(heap))
    {
      hide MarkOk, Bounded, Recolored, Marked, Unmarked, OnlyStrings, IsString, Visited, Clearable, Faded, Shape;
      ghost var m := M(Others([], true), {});
      FadedSame(heap);
      WeakRefs(heap, currentwhite, m, x, S);
      var i := 0;
      while i < |heap[x].node|
        invariant Clearing(S) && M(Others([], true), {}) == m && Faded(old(heap), heap)
        invariant x in heap && heap[x].color.Gray? && x in S && Visited(heap, x, m) && Within(heap[x], heap.Keys)
        invariant heap[x].kind == TABLE(if x in weak then WeakValues else Ephemeron)
        invariant x !in weak ==> ValuesIn(heap[x], Marked(heap))
        invariant 0 <= i <= |heap[x].node| && ValsDone(heap[x].node, i, Marked(heap))
        decreases |heap[x].node| - i
      {
        ghost var h := heap;
        var e := heap[x].node[i];
        if e.val != Nil {
          var r := ValueCleared(x, i, S);
          FadedMore(old(heap), h, heap, x);
          VisitedString(h, heap, x, m);
          NodeMore(h[x].node, i, Marked(h), Marked(heap));
          if r {
            ClearableKind(heap, x, e.val);
            EmptyKey(heap, x, m, i);
            var key := if IsWhite(heap, e.key) then DeadKey else e.key;
            StepClearVal(heap, currentwhite, m, x, i, key, S);
            ghost var h1 := heap;
            heap := heap[x := WithoutVal(heap[x], i, key)];
            FadedTrans(old(heap), h1, heap);
          }
        }
        i := i + 1;
        WeakRefs(heap, currentwhite, m, x, S);
      }
    }

    /** Whether the value of an entry of a weak table is to be cleared. */
    method ValueCleared(x: Id, i: nat, ghost S: set<Id>) returns (r: bool)
      requires Clearing(S) && (x in weak || x in allweak) && x in heap && i < |heap[x].node|
        && heap[x].node[i].val != Nil
      modifies this`heap, this`gray
      ensures Clearing(S) && Recolored(old(heap), heap) && OnlyStrings(old(heap), heap) && gray == old(gray)
      ensures r <==> Clearable(heap, old(heap)[x].node[i].val)
      ensures !r ==> In(old(heap)[x].node[i].val, Marked(heap))
    {
      hide MarkOk, Bounded, Recolored, Marked, Unmarked, OnlyStrings, IsString, Visited, Clearable, Shape;
      ghost var m := M(Others([], true), {});
      WeakRefs(heap, currentwhite, m, x, S);
      KeyRef(heap, currentwhite, m, x, i);
      if heap[x].kind == TABLE(WeakValues) {
        ValString(heap, x, i, S);
      } else {
        InBound(heap[x].node[i].val, heap, S);
      }
      r := IsCleared(heap[x].node[i].val, Others([], true), {}, S);
    }

    /** Clears the unmarked values of the weak tables on a list. */
    method ClearValues(l: seq<Id>, ghost S: set<Id>)
      requires Clearing(S) && forall x :: x in l ==> x in weak || x in allweak
      modifies this`heap, this`gray
      ensures Clearing(S) && Faded(old(heap), heap) && AllValuesIn(heap, l)
    {
      hide MarkOk, Bounded, Marked, Faded, AllValuesIn, ValuesIn;
      FadedSame(heap);
      AllValuesNone(heap);
      var i := 0;
      while i < |l|
        invariant Clearing(S) && Faded(old(heap), heap) && 0 <= i <= |l| && AllValuesIn(heap, l[..i])
      {
        ghost var h := heap;
        ClearSlots(l[i], S);
        ghost var h1 := heap;
        ClearNode(l[i], S);
        FadedTrans(old(heap), h, h1);
        FadedTrans(old(heap), h1, heap);
        FadedTrans(h, h1, heap);
        FadedSlots(h1, heap, l[i]);
        AllValuesMore(h, heap, l[..i]);
        AllValuesAdd(heap, l, i);
        i := i + 1;
      }
      assert l[..i] == l;
    }

    /** Clears the entries of the ephemeron tables on a list whose keys are not marked. */
    method ClearKeys(l: seq<Id>, ghost S: set<Id>)
      requires Clearing(S) && forall x :: x in l ==> x in ephemeron || x in allweak
      modifies this`heap, this`gray
      ensures Clearing(S) && Faded(old(heap), heap) && AllKeysIn(heap, l)
    {
      hide MarkOk, Bounded, Marked, Faded, AllKeysIn, KeysIn;
      FadedSame(heap);
      AllValuesNone(heap);
      var i := 0;
      while i < |l|
        invariant Clearing(S) && Faded(old(heap), heap) && 0 <= i <= |l| && AllKeysIn(heap, l[..i])
      {
        ghost var h := heap;
        ClearTableKeys(l[i], S);
        FadedTrans(old(heap), h, heap);
        AllValuesMore(h, heap, l[..i]);
        AllKeysAdd(heap, l, i);
        i := i + 1;
      }
      assert l[..i] == l;
    }

    method ClearTableKeys(x: Id, ghost S: set<Id>)
      requires Clearing(S) && (x in ephemeron || x in allweak)
      modifies this`heap, this`gray
      ensures Clearing(S) && Faded(old(heap), heap) && x in heap && KeysIn(heap[x], Marked(heap))
    {
      hide MarkOk, Bounded, Recolored, Marked, Unmarked, OnlyStrings, IsString, Visited, Clearable, Faded, Shape;
      ghost var m := M(Others([], true), {});
      FadedSame(heap);
      WeakKind(heap, currentwhite, m, x, S);
      var i := 0;
      while i < |heap[x].node|
        invariant Clearing(S) && M(Others([], true), {}) == m && Faded(old(heap), heap)
        invariant x in heap && heap[x].color.Gray? && x in S && Visited(heap, x, m) && Within(heap[x], heap.Keys)
          && heap[x].kind == TABLE(Ephemeron)
        invariant 0 <= i <= |heap[x].node| && KeysDone(heap[x].node, i, Marked(heap))
        decreases |heap[x].node| - i
      {
        ghost var h := heap;
        var e := heap[x].node[i];
        EmptyKey(heap, x, m, i);
        if e.val != Nil {
          KeyString(heap, x, m, i, S);
          var r := IsCleared(e.key, Others([], true), {}, S);
          FadedMore(old(heap), h, heap, x);
          VisitedString(h, heap, x, m);
          NodeMore(h[x].node, i, Marked(h), Marked(heap));
          if r {
            StepClearKey(heap, currentwhite, m, x, i, S);
            ghost var h1 := heap;
            heap := heap[x := WithoutKey(heap[x], i)];
            FadedTrans(old(heap), h1, heap);
          }
        }
        i := i + 1;
        WeakKind(heap, currentwhite, m, x, S);
      }
    }

    // ---------- the roots ----------

    ghost predicate RootsIn(S: set<Id>)
      reads this
    {
      mainthread in S && running in S && SlotsIn(globals, S)
    }

    /** The roots: the main thread, the running thread, the registry and the metatables
        of the basic types. */
    ghost function Roots(): (r: set<Id>)
      reads this
      ensures forall S :: r <= S <==> RootsIn(S)
    {
      {mainthread, running} + set i | 0 <= i < |globals| && globals[i].Ref? :: globals[i].id
    }

    /** Marks the registry and the metatables of the basic types. */
    method MarkGlobals(ghost rest: Others, ghost S: set<Id>)
      requires Marking(rest, {}, S) && SlotsIn(globals, heap.Keys) && SlotsIn(globals, S)
      modifies this`heap, this`gray
      ensures Marking(rest, {}, S) && Recolored(old(heap), heap) && SlotsIn(globals, Marked(heap))
    {
      hide MarkOk, Bounded, Recolored, Marked, Unmarked;
      AdvancedSame(heap);
      var i := 0;
      while i < |globals|
        invariant Marking(rest, {}, S) && Recolored(old(heap), heap) && heap.Keys == old(heap).Keys
        invariant 0 <= i <= |globals| && SlotsIn(globals[..i], Marked(heap))
      {
        ghost var h := heap;
        MarkValue(globals[i], rest, {}, S);
        RecoloredTrans(old(heap), h, heap);
        RecoloredMarked(h, heap);
        SlotsMore(globals[..i], Marked(h), Marked(heap));
        i := i + 1;
      }
      assert globals[..i] == globals;
    }

    /** Marks the main thread, the registry and the metatables. */
    method MarkMain(ghost S: set<Id>)
      requires Marking(Others([], false), {}, S) && RootsIn(S) && RootsIn(heap.Keys) && heap[mainthread].kind.THREAD?
      requires heap[mainthread].color.White? && gcstate == Pause && grayagain == []
      modifies this`heap, this`gray
      ensures Marking(Others([], false), {}, S) && Recolored(old(heap), heap) && mainthread in Marked(heap)
        && gray != []
      ensures SlotsIn(globals, Marked(heap))
    {
      hide MarkOk, Bounded, Recolored, Marked, Unmarked;
      MarkValue(Ref(mainthread), Others([], false), {}, S);
      ghost var h := heap;
      RecoloredMarked(old(heap), heap);
      MarkGlobals(Others([], false), S);
      RecoloredTrans(old(heap), h, heap);
      RecoloredMarked(h, heap);
      ThreadGray(old(heap), heap, currentwhite, M(Others([], false), {}), mainthread);
    }

    /** Resets the gray lists and marks the roots, to start a new cycle. */
    method RestartCollection(ghost S: set<Id>)
      requires HeapOk(heap) && AllWhite(heap, currentwhite) && Closed(heap, S)
      requires RootsIn(S) && RootsIn(heap.Keys) && heap[mainthread].kind.THREAD? && gcstate == Pause
      modifies this`heap, this`gray, this`grayagain, this`weak, this`allweak, this`ephemeron
      ensures weak == [] && allweak == [] && ephemeron == [] && grayagain == [] && gray != []
      ensures Marking(Others([], false), {}, S) && Recolored(old(heap), heap) && mainthread in Marked(heap)
      ensures SlotsIn(globals, Marked(heap))
    {
      hide MarkOk, Bounded, Recolored, Marked, HeapOk, Closed, AllWhite, Unmarked;
      IsAllWhite(heap, currentwhite, mainthread);
      gray, grayagain := [], [];
      weak, allweak, ephemeron := [], [], [];
      StartCycle(heap, currentwhite, M(Others([], false), {}), S);
      MarkMain(S);
    }

    // ---------- the atomic phase ----------

    /** The collection is complete: the objects that the roots reach are exactly the
        marked ones, and nothing marked refers to an unmarked object. */
    ghost predicate Complete(S: set<Id>)
      reads this
    {
      && HeapOk(heap) && MarkedClosed(heap) && RootsIn(Marked(heap)) && Marked(heap) <= S
      && OneWhite(heap, !currentwhite)
    }

    lemma RootsMore(S: set<Id>, T: set<Id>)
      requires RootsIn(S) && S <= T
      ensures RootsIn(T)
    {
    }

    /** Marks the running thread, and the roots that the program may have changed. */
    method MarkRoots(ghost rest: Others, ghost S: set<Id>)
      requires Marking(rest, {}, S) && RootsIn(S) && RootsIn(heap.Keys) && mainthread in Marked(heap)
      modifies this`heap, this`gray
      ensures Marking(rest, {}, S) && Advanced(old(heap), heap) && RootsIn(Marked(heap))
    {
      hide MarkOk, Bounded, Recolored, Marked, Unmarked, Advanced;
      ghost var h0 := heap;
      MarkValue(Ref(running), rest, {}, S);
      ghost var h1 := heap;
      RecoloredAdvanced(h0, h1);
      RecoloredMarked(h0, h1);
      MarkGlobals(rest, S);
      RecoloredAdvanced(h1, heap);
      AdvancedTrans(h0, h1, heap);
      RecoloredMarked(h1, heap);
    }

    /** The marking half of the atomic phase. */
    method MarkAll(ghost S: set<Id>)
      requires gcstate == Atomic && Marking(Others([], true), {}, S) && gray == []
      requires RootsIn(S) && RootsIn(heap.Keys) && mainthread in Marked(heap)
      modifies this`heap, this`gray, this`grayagain, this`weak, this`allweak, this`ephemeron, this`gcstate
      ensures Clearing(S) && AllConverged(heap, ephemeron) && Advanced(old(heap), heap) && RootsIn(Marked(heap))
    {
      hide MarkOk, Bounded, Recolored, Marked, Unmarked, Advanced, AllConverged, OnlyStrings, Grown, NoneBlack,
           StacksMarked, Calm;
      ghost var h0 := heap;
      var again := grayagain;
      gcstate := InsideAtomic;
      MarkRoots(Others(again, true), S);
      ghost var h2 := heap;
      PropagateAll(Others(again, true), S);
      ghost var h3 := heap;
      AdvancedTrans(h0, h2, h3);
      AdvancedCleaned(h2, h3);
      StepSwapLists(heap, currentwhite, M(Others(again, true), {}));
      gray := again;
      PropagateAll(Others([], true), S);
      ghost var h4 := heap;
      AdvancedTrans(h0, h3, h4);
      AdvancedCleaned(h3, h4);
      ConvergeEphemerons(S);
      AdvancedTrans(h0, h4, heap);
      AdvancedCleaned(h4, heap);
      RootsMore(Marked(h2), Marked(heap));
    }

    /** The clearing half; no object waits for its finalizer, so the second convergence
        finds nothing to mark but strings. */
    method ClearAll(ghost S: set<Id>)
      requires Clearing(S) && AllConverged(heap, ephemeron)
      modifies this`heap, this`gray, this`grayagain, this`weak, this`allweak, this`ephemeron
      ensures Clearing(S) && Faded(old(heap), heap) && MarkedClosed(heap) && Closed(old(heap), Marked(heap))
    {
      hide MarkOk, Bounded, Marked, Unmarked, Advanced, Faded, Closed, Kept, AllConverged, AllValuesIn, AllKeysIn,
           OnlyStrings, MarkedClosed, Grown, NoneBlack, StacksMarked, Calm;
      ghost var h0, m0 := heap, M(Others([], true), {});
      ClearValues(weak, S);
      ghost var h1 := heap;
      ClearValues(allweak, S);
      ghost var h2 := heap;
      AllValuesMore(h1, h2, weak);
      FadedTrans(h0, h1, h2);
      FadedConverged(h0, h2, ephemeron);
      var origweak, origall := weak, allweak;
      PropagateAll(Others([], true), S);
      ConvergeEphemerons(S);
      ghost var h3 := heap;
      AdvancedFaded(h2, h3);
      FadedTrans(h0, h2, h3);
      AllValuesMore(h2, h3, origweak);
      ClearKeys(ephemeron, S);
      ghost var h4 := heap;
      FadedTrans(h0, h3, h4);
      ClearKeys(allweak, S);
      ghost var h5 := heap;
      FadedTrans(h0, h4, h5);
      FadedTrans(h3, h4, h5);
      AllValuesMore(h4, h5, ephemeron);
      ClearValues(weak[..|weak| - |origweak|], S);
      ghost var h6 := heap;
      FadedTrans(h0, h5, h6);
      FadedTrans(h3, h5, h6);
      FadedTrans(h4, h5, h6);
      ClearValues(allweak[..|allweak| - |origall|], S);
      FadedTrans(h0, h6, heap);
      FadedTrans(h3, h6, heap);
      FadedTrans(h5, h6, heap);
      FadedTrans(h4, h5, heap);
      AllValuesMore(h4, heap, ephemeron);
      AllValuesMore(h5, heap, allweak);
      AllValuesMore(h3, heap, weak);
      FadedConverged(h3, heap, ephemeron);
      ClearedWithin(heap, currentwhite, M(Others([], true), {}));
      ConvergedClosed(h0, currentwhite, m0, heap);
    }

    /** The atomic phase: marks everything that is left, clears the weak tables and
        exchanges the two whites. */
    method AtomicPhase(ghost S: set<Id>)
      requires gcstate == Atomic && Marking(Others([], true), {}, S) && gray == []
      requires RootsIn(S) && RootsIn(heap.Keys) && mainthread in Marked(heap)
      modifies this`heap, this`gray, this`grayagain, this`weak, this`allweak, this`ephemeron, this`gcstate,
               this`currentwhite
      ensures gcstate == InsideAtomic && currentwhite == !old(currentwhite) && Complete(S)
      ensures HeapCleaned(old(heap), heap, Kept(heap)) && Closed(old(heap), Marked(heap))
    {
      hide MarkOk, Bounded, Marked, Unmarked, Advanced, Faded, Closed, HeapCleaned, Kept, AllConverged, MarkedClosed;
      ghost var h0, m0 := heap, M(Others([], true), {});
      MarkAll(S);
      ghost var h1 := heap;
      ClearAll(S);
      MarkOkHeap(h0, currentwhite, m0);
      FinalFacts(h0, h1, heap, currentwhite, M(Others([], true), {}), S);
      RootsMore(Marked(h1), Marked(heap));
      currentwhite := !currentwhite;
    }

    // ---------- sweeping ----------

    /** Sweeps at most `count` objects from position `p` of the list of all objects. */
    method SweepList(p: nat, count: nat) returns (next: Sweep)
      requires ListsAll(heap, allgc, mainthread) && LiveClosed(heap, currentwhite)
      requires p <= |allgc| && AllSwept(heap, allgc[..p], currentwhite)
      modifies this`heap, this`allgc
      ensures ListsAll(heap, allgc, mainthread) && LiveClosed(heap, currentwhite)
        && Swept(old(heap), heap, currentwhite)
      ensures match next
        case NoSweep => AllSwept(heap, allgc, currentwhite)
        case InAllgc(q) => q < |allgc| && AllSwept(heap, allgc[..q], currentwhite)
          && |allgc| - q == |old(allgc)| - p - count
        case InEmpty => false
    {
      hide ListsAll, LiveClosed, AllSwept, Swept;
      SweptSame(heap, currentwhite);
      var q, n := p, count;
      while q < |allgc| && n > 0
        invariant ListsAll(heap, allgc, mainthread) && LiveClosed(heap, currentwhite)
          && Swept(old(heap), heap, currentwhite)
        invariant 0 <= q <= |allgc| && 0 <= n <= count && AllSwept(heap, allgc[..q], currentwhite)
        invariant |allgc| - q == |old(allgc)| - p - (count - n)
        decreases n
      {
        ghost var h := heap;
        var curr := allgc[q];
        InHeap(heap, allgc, mainthread, q);
        if heap[curr].color == White(!currentwhite) {
          StepFree(heap, allgc, mainthread, currentwhite, q);
          AllSweptFree(heap, allgc[..q], currentwhite, curr);
          allgc := allgc[..q] + allgc[q + 1..];
          heap := heap - {curr};
        } else {
          StepWhiten(heap, allgc, mainthread, currentwhite, curr);
          AllSweptPaint(heap, allgc[..q], currentwhite, curr);
          heap := Paint(heap, curr, White(currentwhite));
          AllSweptNext(heap, allgc, currentwhite, q);
          q := q + 1;
        }
        SweptTrans(old(heap), h, heap, currentwhite);
        n := n - 1;
      }
      assert allgc[..|allgc|] == allgc;
      return if q == |allgc| then NoSweep else InAllgc(q);
    }

    // ---------- the state between two steps ----------

    ghost predicate MarkPhase()
      reads this
    {
      && MarkOk(heap, currentwhite, M(Others([], false), {}))
      && weak == [] && allweak == [] && ephemeron == [] && mainthread in Marked(heap)
      && sweepgc == NoSweep && (gcstate == Propagate ==> gray != [])
    }

    ghost predicate SweepPhase()
      reads this
    {
      LiveClosed(heap, currentwhite) && SweepOk(heap, allgc, currentwhite, gcstate, sweepgc)
    }

    /** What holds before and after every step of the collector or of the program. */
    ghost predicate Inv()
      reads this
    {
      && ListsAll(heap, allgc, mainthread)
      && RootsIn(Alive(heap, currentwhite))
      && mainthread in heap && heap[mainthread].kind.THREAD? && running in heap && heap[running].kind.THREAD?
      && gcstate != InsideAtomic
      && if KeepInvariant(gcstate) then MarkPhase() else SweepPhase()
    }

    /** The marking, if one is under way, stays inside `S`. */
    ghost predicate Bound(S: set<Id>)
      reads this
    {
      && RootsIn(S)
      && (KeepInvariant(gcstate) ==> Bounded(heap, S))
      && (gcstate == Pause ==> Closed(heap, S))
    }

    /** What decreases while the collector stays in one phase. */
    ghost function Measure(): nat
      reads this
    {
      if gcstate == Propagate then Work(heap, gray)
      else if gcstate == SwpAllgc && sweepgc.InAllgc? && sweepgc.pos <= |allgc| then |allgc| - sweepgc.pos
      else 0
    }

    method EnterSweep()
      requires ListsAll(heap, allgc, mainthread) && LiveClosed(heap, currentwhite) && sweepgc == NoSweep
      modifies this`heap, this`allgc, this`gcstate, this`sweepgc
      ensures ListsAll(heap, allgc, mainthread) && gcstate == SwpAllgc && SweepPhase()
      ensures Swept(old(heap), heap, currentwhite)
    {
      hide ListsAll, LiveClosed, AllSwept, Swept;
      gcstate := SwpAllgc;
      NoneSwept(heap, currentwhite);
      sweepgc := SweepList(0, 1);
    }

    // ---------- the steps of the collector ----------

    lemma MarkPhaseFacts(S: set<Id>)
      requires MarkPhase() && RootsIn(Alive(heap, currentwhite))
      ensures HeapOk(heap) && OneWhite(heap, currentwhite) && LiveClosed(heap, currentwhite)
      ensures Alive(heap, currentwhite) == heap.Keys && RootsIn(heap.Keys)
    {
      MarkOkParts(heap, currentwhite, M(Others([], false), {}));
      MarkingAlive(heap, currentwhite);
      MarkingLive(heap, currentwhite);
    }

    /** The phase-independent part of the invariant survives marking. */
    lemma InvMark(h0: Heap)
      requires KeepInvariant(gcstate) && MarkPhase() && Advanced(h0, heap)
      requires ListsAll(h0, allgc, mainthread) && RootsIn(h0.Keys)
      requires mainthread in h0 && h0[mainthread].kind.THREAD? && running in h0 && h0[running].kind.THREAD?
      ensures Inv() && OneWhite(heap, currentwhite)
    {
      AdvancedLists(h0, heap, allgc, mainthread);
      AdvancedKind(h0, heap, mainthread);
      AdvancedKind(h0, heap, running);
      MarkPhaseKeys(h0, heap, currentwhite, M(Others([], false), {}));
    }

    lemma InvFacts()
      requires Inv()
      ensures ListsAll(heap, allgc, mainthread) && RootsIn(heap.Keys) && LiveClosed(heap, currentwhite)
      ensures mainthread in heap && heap[mainthread].kind.THREAD? && running in heap && heap[running].kind.THREAD?
      ensures KeepInvariant(gcstate) ==>
        MarkPhase() && HeapOk(heap) && OneWhite(heap, currentwhite) && Alive(heap, currentwhite) == heap.Keys
      ensures gcstate == Pause ==> HeapOk(heap) && AllWhite(heap, currentwhite)
    {
      if KeepInvariant(gcstate) {
        MarkPhaseFacts({});
      } else if gcstate == Pause {
        PauseFacts(heap, currentwhite);
      }
      AliveKeys(heap, currentwhite);
      RootsMore(Alive(heap, currentwhite), heap.Keys);
    }

    /** GCSpause: a new cycle starts. */
    method StepPause(ghost S: set<Id>)
      requires Inv() && Bound(S) && gcstate == Pause
      modifies this`heap, this`gray, this`grayagain, this`weak, this`allweak, this`ephemeron, this`gcstate
      ensures Inv() && Bound(S) && gcstate == Propagate && Advanced(old(heap), heap)
      ensures OneWhite(heap, currentwhite) && grayagain == [] && SlotsIn(globals, Marked(heap))
    {
      hide MarkOk, LiveClosed, AllWhite, ListsAll, Marked, Unmarked, Bounded, Advanced, Recolored, Alive, HeapOk,
           OneWhite, Closed;
      InvFacts();
      PauseSweep();
      hide Inv;
      RestartCollection(S);
      RecoloredAdvanced(old(heap), heap);
      gcstate := Propagate;
      InvMark(old(heap));
    }

    lemma PauseSweep()
      requires Inv() && gcstate == Pause
      ensures sweepgc == NoSweep
    {
    }

    method PropagateOne(ghost S: set<Id>)
      requires Marking(Others([], false), {}, S) && gray != [] && gcstate == Propagate
      modifies this`heap, this`gray, this`grayagain, this`weak, this`allweak, this`ephemeron
      ensures Marking(Others([], false), {}, S) && Advanced(old(heap), heap)
        && NoneBlack(heap, old(grayagain), grayagain)
      ensures Work(heap, gray) < Work(old(heap), old(gray))
      ensures weak == old(weak) && allweak == old(allweak) && ephemeron == old(ephemeron)
    {
      hide MarkOk, Bounded, Advanced, NoneBlack, Quiet, Marked;
      ghost var h, x := heap, gray[0];
      GrownSame(heap, grayagain);
      PropagateMark(Others([], false), S);
      NoneBlackMore(h, heap, old(grayagain), old(grayagain), grayagain, x);
    }

    /** GCSpropagate: one gray object is traversed. */
    method StepPropagate(ghost S: set<Id>)
      requires Inv() && Bound(S) && gcstate == Propagate
      modifies this`heap, this`gray, this`grayagain, this`weak, this`allweak, this`ephemeron, this`gcstate
      ensures Inv() && Bound(S) && NextPhase(Propagate, gcstate) && Advanced(old(heap), heap)
      ensures gcstate == Propagate ==> Measure() < old(Measure())
      ensures OneWhite(heap, currentwhite) && NoneBlack(heap, old(grayagain), grayagain)
        && (gcstate == Atomic ==> gray == [])
    {
      hide MarkOk, LiveClosed, AllWhite, ListsAll, Marked, Unmarked, Bounded, Advanced, Recolored, Alive, HeapOk,
           OneWhite, Closed, NoneBlack;
      InvFacts();
      hide Inv;
      PropagateOne(S);
      if gray == [] {
        gcstate := Atomic;
      }
      AdvancedCleaned(old(heap), heap);
      InvMark(old(heap));
    }

    /** The invariant while a sweep is under way. */
    lemma InvSweep(h0: Heap)
      requires !KeepInvariant(gcstate) && gcstate != InsideAtomic && SweepPhase() && Swept(h0, heap, currentwhite)
      requires ListsAll(heap, allgc, mainthread) && RootsIn(Alive(h0, currentwhite))
      requires mainthread in h0 && h0[mainthread].kind.THREAD? && running in h0 && h0[running].kind.THREAD?
      ensures Inv()
    {
      AliveKeys(heap, currentwhite);
      RootsMore(Alive(h0, currentwhite), Alive(heap, currentwhite));
    }

    /** The propagation at the beginning of the atomic step, up to the assertion that the
        lists `weak` and `ephemeron` are empty; returns whether they are. They are if all
        weak tables that may be visited are quiet, and only if all that the gray list leads
        to are settled; where none that is not quiet is settled, this decides it. */
    method LastPropagation(ghost S: set<Id>) returns (holds: bool)
      requires Marking(Others([], false), {}, S) && gcstate == Atomic && weak == [] && allweak == [] && ephemeron == []
      modifies this`heap, this`gray, this`grayagain, this`weak, this`allweak, this`ephemeron
      ensures Marking(Others([], true), {}, S) && Advanced(old(heap), heap) && gray == []
      ensures holds <==> weak == [] && ephemeron == []
      ensures Calm(old(heap), S, old(grayagain)) ==> holds
      ensures weak == [] ==> AllSettled(old(heap), old(gray), WeakValues, S)
      ensures ephemeron == [] ==> AllSettled(old(heap), old(gray), Ephemeron, S)
      ensures Separate(old(heap), S, old(gray), old(grayagain)) ==> (holds <==> Calm(old(heap), S, old(grayagain)))
    {
      hide MarkOk, Bounded, Advanced, Marked, Calm, AllSettled, Separate, StacksMarked, NoneBlack, Grown;
      ghost var h0, m0 := heap, M(Others([], false), {});
      AtomicFlag(heap, currentwhite, m0);
      PropagateAll(Others([], true), S);
      holds := weak == [] && ephemeron == [];
      BoundedMarked(heap, S);
      LedSettled(h0, currentwhite, m0, heap, M(Others([], true), {}), S);
      if holds {
        SeparateCalm(h0, S, m0.gray, m0.rest);
      }
    }

    /** GCSatomic: the rest of the marking in one step, and the start of the sweep. */
    method StepAtomic(ghost S: set<Id>)
      requires Inv() && Bound(S) && gcstate == Atomic
      modifies this`heap, this`gray, this`grayagain, this`weak, this`allweak, this`ephemeron, this`gcstate,
               this`currentwhite, this`allgc, this`sweepgc
      ensures Inv() && gcstate == SwpAllgc && currentwhite == !old(currentwhite)
      ensures Preserved(old(heap), old(Roots()), heap, currentwhite) && Alive(heap, currentwhite) <= S
    {
      hide MarkOk, LiveClosed, AllWhite, ListsAll, Marked, Unmarked, Bounded, Advanced, Alive, HeapOk, OneWhite, Closed,
           Kept, Reachable, HeapCleaned, MarkedClosed, Swept, Preserved, Calm, AllSettled, Separate;
      ghost var h0, roots := heap, Roots();
      InvFacts();
      assert sweepgc == NoSweep;
      hide Inv;
      var _ := LastPropagation(S);
      ghost var h1 := heap;
      AdvancedCleaned(h0, h1);
      AtomicPhase(S);
      ghost var h2 := heap;
      AtomicEnd(h0, h1, h2, !currentwhite, roots, allgc, mainthread);
      EnterSweep();
      AtomicKinds(h0, h1, h2, mainthread);
      AtomicKinds(h0, h1, h2, running);
      AtomicSwept(h0, h1, h2, heap, roots, currentwhite, S);
      InvSweep(h2);
    }

    /** Sweeps a part of the current list, or goes on to the next phase. */
    method SweepStep(nextstate: Phase, nextlist: Sweep)
      requires Inv() && match gcstate
        case SwpAllgc => nextstate == SwpFinobj && nextlist == InEmpty
        case SwpFinobj => nextstate == SwpTobefnz && nextlist == InEmpty
        case SwpTobefnz => nextstate == SwpEnd && nextlist == NoSweep
        case _ => false
      modifies this`heap, this`allgc, this`gcstate, this`sweepgc
      ensures Inv() && NextPhase(old(gcstate), gcstate) && Swept(old(heap), heap, currentwhite)
      ensures gcstate == old(gcstate) ==> Measure() < old(Measure())
    {
      hide LiveClosed, AllWhite, ListsAll, AllSwept, Swept, Alive;
      InvFacts();
      SweptSame(heap, currentwhite);
      if sweepgc.InAllgc? {
        sweepgc := SweepList(sweepgc.pos, GCSWEEPMAX);
        if sweepgc != NoSweep {
          InvSweep(old(heap));
          return;
        }
      }
      gcstate := nextstate;
      sweepgc := nextlist;
      InvSweep(old(heap));
    }

    /** GCSswpend: the main thread, which is on no list, becomes white. */
    method StepSwpEnd()
      requires Inv() && gcstate == SwpEnd
      modifies this`heap, this`gcstate
      ensures Inv() && gcstate == CallFin && Swept(old(heap), heap, currentwhite)
    {
      hide LiveClosed, AllWhite, ListsAll, AllSwept, Swept, Alive;
      InvFacts();
      AliveMember(heap, currentwhite, mainthread);
      StepWhiten(heap, allgc, mainthread, currentwhite, mainthread);
      AllSweptPaint(heap, allgc, currentwhite, mainthread);
      heap := Paint(heap, mainthread, White(currentwhite));
      SweepEnd(heap, allgc, mainthread, currentwhite);
      gcstate := CallFin;
      InvSweep(old(heap));
    }

    /** One step of the collector. */
    method SingleStep(ghost S: set<Id>)
      requires Inv() && Bound(S)
      modifies this`heap, this`gray, this`grayagain, this`weak, this`allweak, this`ephemeron, this`gcstate,
               this`currentwhite, this`allgc, this`sweepgc
      ensures Inv() && NextPhase(old(gcstate), gcstate)
      ensures Preserved(old(heap), old(Roots()), heap, currentwhite)
      ensures gcstate == old(gcstate) ==> Measure() < old(Measure())
      ensures currentwhite == if old(gcstate) == Atomic then !old(currentwhite) else old(currentwhite)
      ensures match old(gcstate)
        case Pause => Advanced(old(heap), heap) && Bound(S) && grayagain == [] && SlotsIn(globals, Marked(heap))
        case Propagate =>
          && Advanced(old(heap), heap) && Bound(S)
          && NoneBlack(heap, old(grayagain), grayagain) && (gcstate == Atomic ==> gray == [])
        case Atomic => Alive(heap, currentwhite) <= S
        case _ => Swept(old(heap), heap, currentwhite)
    {
      hide Inv, LiveClosed, Swept, Advanced, Preserved, Alive, Closed, Bounded, OneWhite, NoneBlack;
      ghost var roots := Roots();
      InvFacts();
      InvRoots();
      match gcstate {
        case Pause =>
          StepPause(S);
          AdvancedPreserved(old(heap), roots, heap, currentwhite);
        case Propagate =>
          StepPropagate(S);
          AdvancedPreserved(old(heap), roots, heap, currentwhite);
        case Atomic =>
          StepAtomic(S);
        case SwpAllgc =>
          SweepStep(SwpFinobj, InEmpty);
          SweptPreserved(old(heap), roots, heap, currentwhite);
        case SwpFinobj =>
          SweepStep(SwpTobefnz, InEmpty);
          SweptPreserved(old(heap), roots, heap, currentwhite);
        case SwpTobefnz =>
          SweepStep(SwpEnd, NoSweep);
          SweptPreserved(old(heap), roots, heap, currentwhite);
        case SwpEnd =>
          StepSwpEnd();
          SweptPreserved(old(heap), roots, heap, currentwhite);
        case CallFin =>
          SweptSame(heap, currentwhite);
          SweptPreserved(heap, roots, heap, currentwhite);
          FinishCycle();
      }
    }

    /** GCScallfin without finalizers: the cycle ends. */
    method FinishCycle()
      requires Inv() && gcstate == CallFin
      modifies this`gcstate
      ensures Inv() && gcstate == Pause
    {
      gcstate := Pause;
    }

    lemma InvRoots()
      requires Inv()
      ensures Roots() <= Alive(heap, currentwhite) && gcstate != InsideAtomic
    {
    }

    // ---------- a full collection ----------

    /** When objects may be marked, the sweep is entered. */
    method LeaveMarking()
      requires Inv()
      modifies this`heap, this`allgc, this`gcstate, this`sweepgc
      ensures Inv() && !KeepInvariant(gcstate) && Swept(old(heap), heap, currentwhite)
    {
      hide LiveClosed, Swept, Alive, OneWhite, MarkOk, ListsAll, Marked, HeapOk, AllSwept, AllWhite;
      InvFacts();
      InvRoots();
      SweptSame(heap, currentwhite);
      if KeepInvariant(gcstate) {
        EnterSweep();
        InvSweep(old(heap));
      }
    }

    /** Steps until the collector pauses. When objects may be marked, everything is swept
        first; as the white has not changed, nothing is collected by that. */
    method FinishPending()
      requires Inv()
      modifies this`heap, this`gray, this`grayagain, this`weak, this`allweak, this`ephemeron, this`gcstate,
               this`currentwhite, this`allgc, this`sweepgc
      ensures Inv() && gcstate == Pause && currentwhite == old(currentwhite) && Swept(old(heap), heap, currentwhite)
    {
      hide Inv, LiveClosed, Swept, Advanced, Preserved, Alive, Closed, Bounded, OneWhite, MarkOk, ListsAll, Marked,
           HeapOk, AllSwept, AllWhite, NoneBlack;
      ghost var h0 := heap;
      LeaveMarking();
      while gcstate != Pause
        invariant Inv() && !KeepInvariant(gcstate) && currentwhite == old(currentwhite) && Swept(h0, heap, currentwhite)
        decreases PhasesLeft(gcstate), Measure()
      {
        ghost var h := heap;
        InvFacts();
        InvRoots();
        SingleStep(heap.Keys);
        SweptTrans(h0, h, heap, currentwhite);
      }
    }

    /** Where a collection that started with heap `h` and reachable objects `R` stands. */
    ghost predicate Cycle(h: Heap, R: set<Id>)
      reads this
    {
      && Inv()
      && if KeepInvariant(gcstate) then Bound(R) && Advanced(h, heap) else
           && Alive(heap, currentwhite) == R
           && heap.Keys <= h.Keys
           && forall x :: x in heap ==> Cleaned(h[x], heap[x], R + Strings(h))
    }

    /** One step of the collection. */
    method CycleStep(ghost h: Heap, ghost R: set<Id>)
      requires Cycle(h, R) && gcstate != Pause && HeapOk(h) && R == Reachable(h, Roots())
      modifies this`heap, this`gray, this`grayagain, this`weak, this`allweak, this`ephemeron, this`gcstate,
               this`currentwhite, this`allgc, this`sweepgc
      ensures Cycle(h, R) && NextPhase(old(gcstate), gcstate)
      ensures gcstate == old(gcstate) ==> Measure() < old(Measure())
    {
      hide Inv, LiveClosed, Swept, Advanced, Preserved, Alive, Closed, Bounded, OneWhite, MarkOk, ListsAll, Cleaned,
           Reachable, Marked, NoneBlack, AllWhite, HeapOk;
      ghost var h0, roots, phase := heap, Roots(), gcstate;
      InvFacts();
      InvRoots();
      if !KeepInvariant(phase) {
        RootsMore(Alive(heap, currentwhite), R);
      }
      SingleStep(R);
      if phase == Propagate {
        AdvancedTrans(h, h0, heap);
      } else if phase == Atomic {
        CycleAtomic(h, h0, heap, roots, R, currentwhite);
      } else {
        CycleSwept(h, h0, heap, R, currentwhite);
      }
    }

    /** A cycle from one pause to the next. */
    method WholeCycle(ghost h: Heap, ghost R: set<Id>)
      requires Inv() && Bound(R) && gcstate == Pause && heap == h && HeapOk(h) && R == Reachable(h, Roots())
      modifies this`heap, this`gray, this`grayagain, this`weak, this`allweak, this`ephemeron, this`gcstate,
               this`currentwhite, this`allgc, this`sweepgc
      ensures Cycle(h, R) && gcstate == Pause
    {
      hide Inv, LiveClosed, Swept, Advanced, Preserved, Alive, Closed, Bounded, OneWhite, MarkOk, ListsAll, Cleaned,
           Reachable, Within, HeapOk;
      SingleStep(R);
      while gcstate != CallFin
        invariant Cycle(h, R) && gcstate != Pause
        decreases PhasesLeft(gcstate), Measure()
      {
        CycleStep(h, R);
      }
      while gcstate != Pause
        invariant Cycle(h, R) && !KeepInvariant(gcstate)
        decreases PhasesLeft(gcstate), Measure()
      {
        CycleStep(h, R);
      }
    }

    /** A full collection, from whatever phase the collector is in: what remains are
        exactly the objects that the roots reached, all of them white, and nothing was
        removed from them but weak references to what was collected. */
    method FullGC()
      requires Inv()
      modifies this`heap, this`gray, this`grayagain, this`weak, this`allweak, this`ephemeron, this`gcstate,
               this`currentwhite, this`allgc, this`sweepgc
      ensures Inv() && gcstate == Pause && AllWhite(heap, currentwhite)
      ensures heap.Keys == Reachable(old(heap), old(Roots()))
      ensures forall x :: x in heap ==>
        Cleaned(old(heap)[x], heap[x], heap.Keys + Strings(old(heap))) && Within(heap[x], heap.Keys)
    {
      hide Inv, LiveClosed, Swept, Advanced, Preserved, Alive, Closed, Bounded, OneWhite, MarkOk, ListsAll, Cleaned,
           Reachable, Within, HeapOk, AllWhite;
      ghost var h0, roots, w := heap, Roots(), currentwhite;
      InvFacts();
      InvRoots();
      FinishPending();
      ghost var h, R := heap, Reachable(heap, roots);
      SweptReachable(h0, h, roots, w);
      InvFacts();
      PauseBound(h, currentwhite, roots);
      assert RootsIn(R);
      WholeCycle(h, R);
      InvFacts();
      PauseFacts(heap, currentwhite);
      CollectedFacts(h0, h, heap, R, w);
    }

    // ---------- the steps of the program ----------

    /** Nothing the program can reach is dead or was freed. */
    lemma Safe()
      requires Inv()
      ensures Accessible(heap, Roots()) <= Alive(heap, currentwhite) <= heap.Keys
      ensures Roots() <= Accessible(heap, Roots()) && RefClosed(heap, Accessible(heap, Roots()))
    {
      InvFacts();
      InvRoots();
      AccessibleAlive(heap, currentwhite, Roots());
    }

    /** The invariant between a store of `v` into `o` and its barrier. */
    ghost predicate Stored(o: Id, v: Val)
      reads this
    {
      && ListsAll(heap, allgc, mainthread)
      && RootsIn(Alive(heap, currentwhite))
      && mainthread in heap && heap[mainthread].kind.THREAD? && running in heap && heap[running].kind.THREAD?
      && gcstate != InsideAtomic && o in Alive(heap, currentwhite) && In(v, Alive(heap, currentwhite))
      && if !KeepInvariant(gcstate) then SweepPhase() else
           && MarkOk(heap, currentwhite, M(Others([], false), if heap[o].color.Black? then {o} else {}))
           && (heap[o].color.Black? ==>
               !NeverBlack(heap[o].kind) && Within(heap[o], Marked(heap) + (if v.Ref? then {v.id} else {})))
           && weak == [] && allweak == [] && ephemeron == [] && mainthread in Marked(heap)
           && sweepgc == NoSweep && (gcstate == Propagate ==> gray != [])
    }

    /** The object `x` after a store, and nothing else changed. */
    ghost predicate Updated(h: Heap, x: Id, o: Obj)
      reads this
      requires x in h
    {
      SameContents(h[x := o], heap)
    }

    /** Writes an object; `v` is the only reference in it that it did not have. */
    method Write(x: Id, o: Obj, ghost v: Val)
      requires Inv() && x in heap && x in Alive(heap, currentwhite) && In(v, Alive(heap, currentwhite))
      requires o.kind == heap[x].kind && o.color == heap[x].color && Shape(o)
      requires forall S :: Within(heap[x], S) && In(v, S) ==> Within(o, S)
      modifies this`heap
      ensures heap == old(heap)[x := o] && Stored(x, v) && Alive(heap, currentwhite) == Alive(old(heap), currentwhite)
    {
      hide MarkOk, LiveClosed, ListsAll, AllSwept, AllWhite, Alive, Within, Shape, Marked, HeapOk, OneWhite, SweepOk;
      InvFacts();
      LiveRefs(heap, currentwhite, x);
      SweepRewrite(heap, allgc, mainthread, currentwhite, x, o);
      if KeepInvariant(gcstate) {
        ghost var m := M(Others([], false), {});
        StepRewrite(heap, currentwhite, m, x, o);
        if heap[x].color.Black? {
          BlackRefs(heap, currentwhite, m, x, if v.Ref? then {v.id} else {});
        }
      } else {
        SweepOkSame(heap, heap[x := o], allgc, currentwhite, gcstate, sweepgc);
      }
      heap := heap[x := o];
    }

    /** Marks the object that was stored into the black object `o`. */
    method ForwardMark(o: Id, v: Id)
      requires Stored(o, Ref(v)) && KeepInvariant(gcstate) && heap[o].color.Black? && v in heap && heap[v].color.White?
      modifies this`heap, this`gray
      ensures Inv() && SameContents(old(heap), heap) && heap.Keys == old(heap).Keys
      ensures OneWhite(heap, currentwhite) && OneWhite(old(heap), currentwhite)
      ensures Listed(old(heap)[v].kind) ==> gray == [v] + old(gray)
    {
      hide MarkOk, LiveClosed, ListsAll, AllSwept, AllWhite, Alive, Within, Bounded, Marked, Unmarked, Recolored,
           SameContents, OneWhite, HeapOk;
      ghost var h, m := heap, M(Others([], false), {o});
      MarkOkParts(heap, currentwhite, m);
      MarkingAlive(heap, currentwhite);
      AllBounded(heap);
      ReallyMark(v, Others([], false), {o}, heap.Keys);
      RecoloredMarked(h, heap);
      RecoloredKeys(h, heap, o);
      RecoloredContents(h, heap);
      RecoloredAdvanced(h, heap);
      WithinMarked(heap[o], Ref(v), Marked(h), Marked(heap));
      StepForward(heap, currentwhite, M(Others([], false), {o}), o);
      InvMark(h);
    }

    /** A store that needs no barrier leaves the invariant as it is. */
    lemma StoredDone(o: Id, v: Val)
      requires Stored(o, v) && !(heap[o].color.Black? && IsWhite(heap, v))
      ensures Inv()
    {
      if KeepInvariant(gcstate) && heap[o].color.Black? {
        AliveKeys(heap, currentwhite);
        WhiteMarked(heap, v);
        WithinMarked(heap[o], v, Marked(heap), Marked(heap));
        StepForward(heap, currentwhite, M(Others([], false), {o}), o);
      }
    }

    /** The barrier that moves the collector forward: the stored object is marked, or in a
        sweep the object it was stored into becomes white. */
    method Barrier(o: Id, v: Val)
      requires Stored(o, v)
      modifies this`heap, this`gray
      ensures Inv() && SameContents(old(heap), heap) && Alive(heap, currentwhite) == Alive(old(heap), currentwhite)
      ensures
        KeepInvariant(gcstate) && old(heap)[o].color.Black? && IsWhite(old(heap), v) &&
        Listed(old(heap)[v.id].kind) ==>
        gray == [v.id] + old(gray)
    {
      hide MarkOk, LiveClosed, ListsAll, AllSwept, AllWhite, Alive, Within, Bounded, Marked, SameContents;
      AliveMember(heap, currentwhite, o);
      PaintContents(heap, o, White(currentwhite));
      if heap[o].color.Black? && IsWhite(heap, v) {
        if KeepInvariant(gcstate) {
          ForwardMark(o, v.id);
          InvFacts();
          MarkingAliveSame(old(heap), heap, currentwhite);
        } else {
          SweepRecolor(heap, allgc, mainthread, currentwhite, o, White(currentwhite));
          assert gcstate != CallFin && gcstate != Pause;
          heap := Paint(heap, o, White(currentwhite));
        }
      } else {
        StoredDone(o, v);
      }
    }

    /** The black table `t` becomes gray and waits for the atomic phase. */
    method BackMark(t: Id, ghost v: Val)
      requires Stored(t, v) && KeepInvariant(gcstate) && t in heap && heap[t].kind.TABLE? && heap[t].color.Black?
      modifies this`heap, this`grayagain
      ensures Inv() && heap == Paint(old(heap), t, Gray)
      ensures OneWhite(heap, currentwhite) && OneWhite(old(heap), currentwhite)
    {
      hide MarkOk, LiveClosed, ListsAll, AllSwept, AllWhite, Alive, Within, Bounded, Marked, SameContents, Advanced,
           OneWhite, HeapOk;
      AliveMember(heap, currentwhite, t);
      AdvancedPaint(heap, t, Gray);
      MarkOkParts(heap, currentwhite, M(Others([], false), {t}));
      StepBack(heap, currentwhite, M(Others([], false), {t}), t);
      heap := Paint(heap, t, Gray);
      grayagain := [t] + grayagain;
      MarkingAlive(old(heap), currentwhite);
      InvMark(old(heap));
    }

    /** The barrier that moves the collector backward: the table is visited again. */
    method BarrierBack(t: Id, v: Val)
      requires Stored(t, v) && heap[t].kind.TABLE?
      modifies this`heap, this`grayagain
      ensures Inv() && SameContents(old(heap), heap) && Alive(heap, currentwhite) == Alive(old(heap), currentwhite)
    {
      hide MarkOk, LiveClosed, ListsAll, AllSwept, AllWhite, Alive, Within, Bounded, Marked, SameContents, Advanced;
      AliveMember(heap, currentwhite, t);
      PaintContents(heap, t, Gray);
      if heap[t].color.Black? && IsWhite(heap, v) {
        if KeepInvariant(gcstate) {
          BackMark(t, v);
          InvFacts();
          MarkingAliveSame(old(heap), heap, currentwhite);
        } else {
          SweepRecolor(heap, allgc, mainthread, currentwhite, t, Gray);
          heap := Paint(heap, t, Gray);
          grayagain := [t] + grayagain;
        }
      } else {
        StoredDone(t, v);
      }
    }

    predicate IsAlive(v: Val)
      reads this
    {
      v.Ref? ==> v.id in heap && heap[v.id].color != White(!currentwhite)
    }

    /** Creates an object, white and without references. */
    method NewObj(x: Id, kind: Kind, slots: nat, nodes: nat)
      requires Inv() && x !in heap
      requires (kind.USERDATA? ==> slots == 1) && (kind.STRING? ==> slots == 0) && (kind.TABLE? || nodes == 0)
      modifies this`heap, this`allgc, this`sweepgc
      ensures Inv() && allgc == [x] + old(allgc) && heap.Keys == old(heap).Keys + {x}
      ensures x in heap && heap[x].kind == kind && Fresh(heap[x]) && heap[x].color == White(currentwhite)
      ensures |heap[x].slots| == slots && |heap[x].node| == nodes && heap == old(heap)[x := heap[x]]
      ensures Alive(heap, currentwhite) == Alive(old(heap), currentwhite) + {x}
    {
      hide MarkOk, LiveClosed, ListsAll, AllSwept, AllWhite, Within, Marked, OneWhite, Alive, HeapOk, Shape, SweepOk;
      var o := Obj(kind, White(currentwhite), Nil, seq(slots, i => Nil), seq(nodes, i => Entry(Nil, Nil)));
      NewShape(kind, currentwhite, slots, nodes);
      InvFacts();
      NewLists(heap, allgc, mainthread, x, o);
      NewSweep(heap, currentwhite, x, o);
      if KeepInvariant(gcstate) {
        NewMark(heap, currentwhite, M(Others([], false), {}), x, o);
      } else {
        SweepOkNew(heap, heap[x := o], allgc, currentwhite, gcstate, sweepgc, x);
      }
      heap := heap[x := o];
      allgc := [x] + allgc;
      if sweepgc.InAllgc? && sweepgc.pos > 0 {
        sweepgc := InAllgc(sweepgc.pos + 1);
      }
      RootsMore(Alive(old(heap), currentwhite), Alive(heap, currentwhite));
    }

    /** Sets the metatable of a table or userdata. */
    method SetMeta(o: Id, v: Val)
      requires Inv() && IsAlive(Ref(o)) && IsAlive(v) && v != DeadKey && (heap[o].kind.TABLE? || heap[o].kind.USERDATA?)
      modifies this`heap, this`gray
      ensures Inv() && Updated(old(heap), o, old(heap)[o].(meta := v))
        && Alive(heap, currentwhite) == Alive(old(heap), currentwhite)
    {
      hide Inv, Stored, Alive, Within, SameContents;
      InvShape(o);
      IsAliveIn(o, v);
      MetaShape(heap[o], v);
      Write(o, heap[o].(meta := v), v);
      Barrier(o, v);
    }

    /** Sets the user value of a userdata, or an upvalue of a function. */
    method SetUpvalue(o: Id, i: nat, v: Val)
      requires Inv() && IsAlive(Ref(o)) && IsAlive(v) && v != DeadKey && i < |heap[o].slots|
      requires heap[o].kind.USERDATA? || heap[o].kind.CLOSURE?
      modifies this`heap, this`gray
      ensures Inv() && Updated(old(heap), o, old(heap)[o].(slots := old(heap)[o].slots[i := v]))
      ensures Alive(heap, currentwhite) == Alive(old(heap), currentwhite)
      ensures
        KeepInvariant(gcstate) && old(heap)[o].color.Black? && IsWhite(old(heap), v) &&
        Listed(old(heap)[v.id].kind) ==>
        gray == [v.id] + old(gray)
    {
      hide Inv, Stored, Alive, Within, SameContents;
      InvShape(o);
      IsAliveIn(o, v);
      SlotShape(heap[o], i, v);
      Write(o, heap[o].(slots := heap[o].slots[i := v]), v);
      Barrier(o, v);
    }

    /** Sets an element of the array part of a table. */
    method SetArray(t: Id, i: nat, v: Val)
      requires Inv() && IsAlive(Ref(t)) && IsAlive(v) && v != DeadKey && heap[t].kind.TABLE? && i < |heap[t].slots|
      modifies this`heap, this`grayagain
      ensures Inv() && Updated(old(heap), t, old(heap)[t].(slots := old(heap)[t].slots[i := v]))
      ensures Alive(heap, currentwhite) == Alive(old(heap), currentwhite)
    {
      hide Inv, Stored, Alive, Within, SameContents;
      InvShape(t);
      IsAliveIn(t, v);
      SlotShape(heap[t], i, v);
      Write(t, heap[t].(slots := heap[t].slots[i := v]), v);
      BarrierBack(t, v);
    }

    /** Puts a new key in a free node of a table. */
    method NewKey(t: Id, i: nat, k: Val)
      requires Inv() && IsAlive(Ref(t)) && IsAlive(k) && k != Nil && k != DeadKey
      requires heap[t].kind.TABLE? && i < |heap[t].node| && heap[t].node[i].val == Nil
      modifies this`heap, this`grayagain
      ensures Inv() && Updated(old(heap), t, old(heap)[t].(node := old(heap)[t].node[i := Entry(k, Nil)]))
      ensures Alive(heap, currentwhite) == Alive(old(heap), currentwhite)
    {
      hide Inv, Stored, Alive, Within, SameContents;
      InvShape(t);
      IsAliveIn(t, k);
      EntryShapeNew(heap[t], i, Entry(k, Nil), k);
      Write(t, heap[t].(node := heap[t].node[i := Entry(k, Nil)]), k);
      BarrierBack(t, k);
    }

    /** Sets the value of a node of a table. */
    method SetVal(t: Id, i: nat, v: Val)
      requires Inv() && IsAlive(Ref(t)) && IsAlive(v) && v != DeadKey
      requires heap[t].kind.TABLE? && i < |heap[t].node| && heap[t].node[i].key != Nil && heap[t].node[i].key != DeadKey
      modifies this`heap, this`grayagain
      ensures Inv()
        && Updated(old(heap), t, old(heap)[t].(node := old(heap)[t].node[i := Entry(old(heap)[t].node[i].key, v)]))
      ensures Alive(heap, currentwhite) == Alive(old(heap), currentwhite)
    {
      hide Inv, Stored, Alive, Within, SameContents;
      InvShape(t);
      IsAliveIn(t, v);
      EntryShapeNew(heap[t], i, Entry(heap[t].node[i].key, v), v);
      Write(t, heap[t].(node := heap[t].node[i := Entry(heap[t].node[i].key, v)]), v);
      BarrierBack(t, v);
    }

    /** Pushes a value on the stack of a thread; a thread is never black and needs no barrier. */
    method PushStack(th: Id, v: Val)
      requires Inv() && IsAlive(Ref(th)) && IsAlive(v) && v != DeadKey && heap[th].kind.THREAD?
      modifies this`heap
      ensures Inv() && heap == old(heap)[th := old(heap)[th].(slots := old(heap)[th].slots + [v])]
      ensures Alive(heap, currentwhite) == Alive(old(heap), currentwhite)
    {
      hide Inv, Stored, Alive, Within;
      InvShape(th);
      IsAliveIn(th, v);
      PushShape(heap[th], v);
      Write(th, heap[th].(slots := heap[th].slots + [v]), v);
      StoredThread(th, v);
    }

    /** Pops the top of a stack. */
    method PopStack(th: Id)
      requires Inv() && IsAlive(Ref(th)) && heap[th].kind.THREAD? && |heap[th].slots| > 0
      modifies this`heap
      ensures Inv()
        && heap == old(heap)[th := old(heap)[th].(slots := old(heap)[th].slots[..|old(heap)[th].slots| - 1])]
      ensures Alive(heap, currentwhite) == Alive(old(heap), currentwhite)
    {
      hide Inv, Stored, Alive, Within;
      InvShape(th);
      IsAliveIn(th, Nil);
      PopShape(heap[th]);
      Write(th, heap[th].(slots := heap[th].slots[..|heap[th].slots| - 1]), Nil);
      StoredThread(th, Nil);
    }

    /** Changes the registry or the metatable of a basic type, without a barrier. */
    method SetGlobal(i: nat, v: Val)
      requires Inv() && i < |globals| && IsAlive(v)
      modifies this`globals
      ensures Inv() && globals == old(globals)[i := v]
    {
      hide MarkOk, LiveClosed, ListsAll, AllSwept, AllWhite;
      globals := globals[i := v];
    }

    /** Switches to another thread. */
    method Resume(th: Id)
      requires Inv() && IsAlive(Ref(th)) && heap[th].kind.THREAD?
      modifies this`running
      ensures Inv() && running == th
    {
      hide MarkOk, LiveClosed, ListsAll, AllSwept, AllWhite;
      running := th;
    }

    /** Finds a string by its contents: one that is dead but not yet freed becomes live. */
    method Intern(x: Id)
      requires Inv() && x in heap && heap[x].kind.STRING?
      modifies this`heap
      ensures Inv() && IsAlive(Ref(x)) && SameContents(old(heap), heap)
      ensures Alive(heap, currentwhite) == Alive(old(heap), currentwhite) + {x}
    {
      hide MarkOk, LiveClosed, ListsAll, AllSwept, AllWhite, Alive, SameContents;
      InvFacts();
      PaintContents(heap, x, White(currentwhite));
      if heap[x].color == White(!currentwhite) {
        DeadPhase(x);
        Resurrect(heap, allgc, mainthread, currentwhite, x);
        heap := Paint(heap, x, White(currentwhite));
        RootsMore(Alive(old(heap), currentwhite), Alive(heap, currentwhite));
      } else {
        AliveIs(heap, currentwhite, x);
      }
    }

    /** A dead object exists only while the sweep has not come to it. */
    lemma DeadPhase(x: Id)
      requires Inv() && x in heap && heap[x].color == White(!currentwhite)
      ensures !KeepInvariant(gcstate) && gcstate != Pause && gcstate != CallFin
    {
      InvFacts();
    }

    lemma InvShape(x: Id)
      requires Inv() && IsAlive(Ref(x))
      ensures x in Alive(heap, currentwhite) && Shape(heap[x])
    {
      InvFacts();
      LiveRefs(heap, currentwhite, x);
    }

    lemma IsAliveIn(x: Id, v: Val)
      requires IsAlive(v)
      ensures In(v, Alive(heap, currentwhite))
    {
    }

    lemma StoredThread(th: Id, v: Val)
      requires Stored(th, v) && heap[th].kind.THREAD?
      ensures Inv()
    {
      if KeepInvariant(gcstate) && heap[th].color.Black? {
        assert NeverBlack(heap[th].kind);
      }
    }

    // ---------- all runs ----------

    ghost function Now(): State
      reads this
    {
      State(heap, globals, running, mainthread, gcstate, currentwhite)
    }

    lemma NowSound()
      requires Inv()
      ensures Sound(Now())
    {
      hide RootsOf;
      InvFacts();
      InvRoots();
      assert RootsOf(Now()) == Roots() by {
        NowRoots();
      }
    }

    lemma NowRoots()
      ensures RootsOf(Now()) == Roots()
    {
    }

    /** The new object is put on the stack of the running thread. */
    method NewOnStack(x: Id, kind: Kind, slots: nat, nodes: nat)
      requires Inv() && x !in heap
      requires (kind.USERDATA? ==> slots == 1) && (kind.STRING? ==> slots == 0) && (kind.TABLE? || nodes == 0)
      modifies this`heap, this`allgc, this`sweepgc
      ensures Inv() && running in old(heap)
      ensures x in heap && heap[x].kind == kind && Fresh(heap[x]) && heap[x].color == White(currentwhite)
      ensures |heap[x].slots| == slots && |heap[x].node| == nodes
      ensures heap == old(heap)[x := heap[x]]
                        [running := old(heap)[running].(slots := old(heap)[running].slots + [Ref(x)])]
      ensures Alive(heap, currentwhite) == Alive(old(heap), currentwhite) + {x}
    {
      InvRunning();
      hide Inv, Alive;
      ghost var th := heap[running];
      NewObj(x, kind, slots, nodes);
      assert heap[running] == th;
      AliveIsAlive(x);
      PushStack(running, Ref(x));
    }

    lemma InvRunning()
      requires Inv()
      ensures running in heap && heap[running].kind.THREAD? && IsAlive(Ref(running))
    {
    }

    lemma AliveIsAlive(x: Id)
      requires x in heap && heap[x].color == White(currentwhite)
      ensures IsAlive(Ref(x))
    {
    }

    /** Does what `a` says, if it can be done. */
    method Act(a: Action)
      requires Inv()
      modifies this
      ensures Inv() && Step(old(Now()), a, Now())
      ensures a.Collect? && gcstate == old(gcstate) ==> Measure() < old(Measure())
    {
      hide Inv, Step, Measure;
      match a
      case Collect => ActCollect(a);
      case Full => ActCollect(a);
      case New(_, _, _, _) => ActObject(a);
      case InternString(_) => ActObject(a);
      case PushValue(_, _) => ActStack(a);
      case PopValue(_) => ActStack(a);
      case Meta(_, _) => ActStore(a);
      case Upvalue(_, _, _) => ActStore(a);
      case ArraySlot(_, _, _) => ActTable(a);
      case Key(_, _, _) => ActTable(a);
      case Value(_, _, _) => ActTable(a);
      case Global(_, _) => ActRoot(a);
      case Switch(_) => ActRoot(a);
    }

    method ActCollect(a: Action)
      requires a.Collect? || a.Full?
      requires Inv()
      modifies this
      ensures Inv() && Step(old(Now()), a, Now())
      ensures a.Collect? && gcstate == old(gcstate) ==> Measure() < old(Measure())
    {
      hide Inv, Preserved, AllWhite, Cleaned, Within, Reachable, RootsOf, Roots, Advanced, Swept, Alive, Measure;
      NowRoots();
      InvBound();
      if a.Collect? {
        SingleStep(heap.Keys);
      } else {
        ghost var h0 := heap;
        FullGC();
        assert forall x :: x in heap ==> x in h0 by {
          ReachableKeys(h0, old(Roots()));
        }
      }
    }

    method ActObject(a: Action)
      requires a.New? || a.InternString?
      requires Inv()
      modifies this
      ensures Inv() && Step(old(Now()), a, Now())
    {
      hide Inv, Alive, Fresh;
      match a
      case New(x, kind, slots, nodes) =>
        if x !in heap && CanNew(kind, slots, nodes) {
          InvRunning();
          NewOnStack(x, kind, slots, nodes);
          FreshBlank(heap[x]);
        }
      case InternString(x) =>
        if x in heap && heap[x].kind.STRING? {
          Intern(x);
        }
    }

    method ActStack(a: Action)
      requires a.PushValue? || a.PopValue?
      requires Inv()
      modifies this
      ensures Inv() && Step(old(Now()), a, Now())
    {
      hide Inv, Alive;
      match a
      case PushValue(th, v) =>
        if IsAlive(Ref(th)) && IsAlive(v) && v != DeadKey && heap[th].kind.THREAD? {
          PushStack(th, v);
        }
      case PopValue(th) =>
        if IsAlive(Ref(th)) && heap[th].kind.THREAD? && |heap[th].slots| > 0 {
          PopStack(th);
        }
    }

    method ActStore(a: Action)
      requires a.Meta? || a.Upvalue?
      requires Inv()
      modifies this
      ensures Inv() && Step(old(Now()), a, Now())
    {
      hide Inv, Alive, SameContents;
      match a
      case Meta(o, v) =>
        if IsAlive(Ref(o)) && IsAlive(v) && v != DeadKey && (heap[o].kind.TABLE? || heap[o].kind.USERDATA?) {
          SetMeta(o, v);
        }
      case Upvalue(o, i, v) =>
        if IsAlive(Ref(o)) && IsAlive(v) && v != DeadKey && i < |heap[o].slots|
          && (heap[o].kind.USERDATA? || heap[o].kind.CLOSURE?) {
          SetUpvalue(o, i, v);
        }
    }

    method ActTable(a: Action)
      requires a.ArraySlot? || a.Key? || a.Value?
      requires Inv()
      modifies this
      ensures Inv() && Step(old(Now()), a, Now())
    {
      hide Inv, Alive, SameContents;
      match a
      case ArraySlot(t, i, v) =>
        if IsAlive(Ref(t)) && IsAlive(v) && v != DeadKey && heap[t].kind.TABLE? && i < |heap[t].slots| {
          SetArray(t, i, v);
        }
      case Key(t, i, v) =>
        if IsAlive(Ref(t)) && IsAlive(v) && v != Nil && v != DeadKey && heap[t].kind.TABLE? && i < |heap[t].node|
          && heap[t].node[i].val == Nil {
          NewKey(t, i, v);
        }
      case Value(t, i, v) =>
        if IsAlive(Ref(t)) && IsAlive(v) && v != DeadKey && heap[t].kind.TABLE? && i < |heap[t].node|
           && heap[t].node[i].key != Nil && heap[t].node[i].key != DeadKey {
          SetVal(t, i, v);
        }
    }

    method ActRoot(a: Action)
      requires a.Global? || a.Switch?
      requires Inv()
      modifies this
      ensures Inv() && Step(old(Now()), a, Now())
    {
      hide Inv, Alive;
      match a
      case Global(i, v) =>
        if i < |globals| && IsAlive(v) {
          SetGlobal(i, v);
        }
      case Switch(th) =>
        if IsAlive(Ref(th)) && heap[th].kind.THREAD? {
          Resume(th);
        }
    }

    lemma InvBound()
      requires Inv()
      ensures Bound(heap.Keys)
    {
      InvFacts();
      if KeepInvariant(gcstate) || gcstate == Pause {
        AllBounded(heap);
      }
      if KeepInvariant(gcstate) {
        AliveKeys(heap, currentwhite);
      }
    }

    /** Every interleaving of collector steps and program steps: nothing that any chain of
        references from the roots leads to was freed, or is dead and about to be. */
    method Run(actions: seq<Action>) returns (ghost trace: seq<State>)
      requires Inv()
      modifies this
      ensures Inv() && Trace(trace, actions) && trace[0] == old(Now()) && trace[|actions|] == Now()
      ensures Refines(Program(trace, actions, |actions|), Now())
      ensures Accessible(heap, Roots()) <= Alive(heap, currentwhite) <= heap.Keys
      ensures Roots() <= Accessible(heap, Roots()) && RefClosed(heap, Accessible(heap, Roots()))
    {
      hide Inv, Alive, Accessible, RefClosed, Step, Sound, Refines, Program, Roots;
      trace := [Now()];
      NowSound();
      for i := 0 to |actions|
        invariant Inv() && |trace| == i + 1 && trace[0] == old(Now()) && trace[i] == Now()
        invariant forall j :: 0 <= j < i ==> Step(trace[j], actions[j], trace[j + 1])
        invariant forall j :: 0 <= j <= i ==> Sound(trace[j])
      {
        Act(actions[i]);
        NowSound();
        trace := trace + [Now()];
      }
      RunRefines(trace, actions, |actions|);
      Safe();
    }

    lemma InvAtomic()
      requires Inv() && gcstate == Atomic
      ensures Marking(Others([], false), {}, heap.Keys) && weak == [] && allweak == [] && ephemeron == []
    {
      hide MarkOk, Bounded;
      InvFacts();
      AllBounded(heap);
    }

    /** A black function that waits for the atomic phase. */
    lemma BlackFunction(x: Id)
      requires Inv() && gcstate == Atomic && gray == [] && NoneBlack(heap, [], grayagain)
      requires x in Marked(heap) && heap[x].kind.CLOSURE?
      ensures heap[x].color.Black?
    {
      assert ObjOk(heap, x, M(Others([], false), {}));
    }

    /** Collects until only the atomic step is left; a function that a global refers to is
        then black. */
    method WaitForAtomic(x: Id)
      requires Inv() && gcstate == Pause && x in heap && heap[x].kind.CLOSURE? && Ref(x) in globals
      modifies this`heap, this`gray, this`grayagain, this`weak, this`allweak, this`ephemeron, this`gcstate,
               this`currentwhite, this`allgc, this`sweepgc
      ensures Inv() && gcstate == Atomic && gray == [] && heap.Keys == old(heap).Keys
      ensures x in heap && heap[x].kind.CLOSURE? && heap[x].color.Black? && |heap[x].slots| == |old(heap)[x].slots|
    {
      hide Inv, Advanced, Marked, NoneBlack, Alive, Bound, Preserved, Swept, OneWhite;
      ghost var n := |heap[x].slots|;
      FirstStep(x);
      while gcstate != Atomic
        invariant Inv() && KeepInvariant(gcstate) && heap.Keys == old(heap).Keys && heap[x].kind.CLOSURE?
          && |heap[x].slots| == n
        invariant x in Marked(heap) && NoneBlack(heap, [], grayagain) && (gcstate == Atomic ==> gray == [])
        decreases PhasesLeft(gcstate), Measure()
      {
        ghost var h, again := heap, grayagain;
        InvBound();
        SingleStep(heap.Keys);
        AdvancedObject(h, heap, x);
        NoneBlackTrans(h, heap, again, grayagain);
      }
      BlackFunction(x);
    }

    /** A new table with weak values and an array part is stored into a black function, and
        the atomic step begins. */
    method StoreTable(x: Id, t: Id) returns (holds: bool)
      requires Inv() && gcstate == Atomic && gray == [] && t !in heap
      requires x in heap && heap[x].kind.CLOSURE? && heap[x].color.Black? && |heap[x].slots| > 0
      modifies this
      ensures gcstate == Atomic && weak != [] && !holds
    {
      hide Inv, Alive, SameContents, Settled, Led, Quiet, Calm, Separate, Fresh, Advanced, MarkOk, Bounded;
      NewObj(t, TABLE(WeakValues), 1, 0);
      AliveIsAlive(t);
      ghost var h := heap;
      SetUpvalue(x, 0, Ref(t));
      assert gray == [t];
      TableLed(h, heap, x, h[x].(slots := h[x].slots[0 := Ref(t)]), t, heap.Keys);
      InvAtomic();
      holds := LastPropagation(heap.Keys);
    }

    /** The first step of a cycle marks what the globals refer to. */
    method FirstStep(x: Id)
      requires Inv() && gcstate == Pause && x in heap && Ref(x) in globals
      modifies this`heap, this`gray, this`grayagain, this`weak, this`allweak, this`ephemeron, this`gcstate,
               this`currentwhite, this`allgc, this`sweepgc
      ensures Inv() && gcstate == Propagate && heap.Keys == old(heap).Keys && NoneBlack(heap, [], grayagain)
      ensures x in heap && heap[x].kind == old(heap)[x].kind && x in Marked(heap)
        && |heap[x].slots| == |old(heap)[x].slots|
    {
      hide Inv, Advanced, Marked, NoneBlack, Alive, Bound, Preserved, Swept, OneWhite;
      InvBound();
      SingleStep(heap.Keys);
      AdvancedObject(old(heap), heap, x);
      GrownSame(heap, []);
      GlobalMarked(globals, x, heap);
    }
  }

  /** After a store into `o`, the gray list that begins with the table `x` leads to it. */
  lemma TableLed(h: Heap, h': Heap, o: Id, b: Obj, x: Id, S: set<Id>)
    requires o in h && x in h && x != o && h[x].kind == TABLE(WeakValues) && h[x].slots != []
      && SameContents(h[o := b], h')
    ensures Led(h', [x], x) && x in h' && h'[x].kind == TABLE(WeakValues) && !Settled(h', x, S)
  {
    assert Leads(h', [x], [x]);
  }

  /** A run in which the assertion at the beginning of the atomic phase fails: the collector
      has marked everything and waits for its atomic step; the program stores a new table
      with weak values and an array part into a function that is black. */
  method AssertionFails() returns (g: GlobalState, holds: bool)
    ensures g.gcstate == Atomic && g.weak != [] && !holds
  {
    hide GlobalState.Inv, Alive, Fresh;
    g := new GlobalState(0, 1);
    assert 1 !in g.heap;
    g.NewObj(1, CLOSURE, 1, 0);
    g.AliveIsAlive(1);
    g.SetGlobal(0, Ref(1));
    assert g.globals[0] == Ref(1);
    g.WaitForAtomic(1);
    assert 2 !in g.heap;
    holds := g.StoreTable(1, 2);
  }
}
