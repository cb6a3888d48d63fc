/** The steps of the running program: what a store does to the invariants of the
    collector before and after its barrier. */
module GcMutator {
  import opened ObjectHeap
  import opened GcInvariant
  import opened GcSweep

  /** The heaps differ in colors only. */
  ghost predicate SameContents(h: Heap, h': Heap) {
    h'.Keys == h.Keys && forall x :: x in h ==> h'[x] == h[x].(color := h'[x].color)
  }

  /** Every object that any reference leads to, weak or not. */
  ghost function Accessible(h: Heap, roots: set<Id>): set<Id> {
    set x | x in h && forall S :: roots <= S && RefClosed(h, S) ==> x in S
  }

  ghost predicate RefClosed(h: Heap, S: set<Id>) {
    forall x :: x in S && x in h ==> Within(h[x], S)
  }

  /** Nothing that the program can get hold of is dead, or was freed. */
  lemma AccessibleAlive(h: Heap, white: bool, roots: set<Id>)
    requires LiveClosed(h, white) && roots <= Alive(h, white)
    ensures Accessible(h, roots) <= Alive(h, white) <= h.Keys
    ensures roots <= Accessible(h, roots) && RefClosed(h, Accessible(h, roots))
  {
    var live := Alive(h, white);
    assert RefClosed(h, live);
    var A := Accessible(h, roots);
    forall x | x in A ensures Within(h[x], A) {
      forall S | roots <= S && RefClosed(h, S)
        ensures Within(h[x], S)
      {
      }
      assert Within(h[x], live);
      WithinMeet(h, x, roots, live);
    }
  }

  lemma WithinMeet(h: Heap, x: Id, roots: set<Id>, live: set<Id>)
    requires live <= h.Keys && x in h && Within(h[x], live)
    requires forall S :: roots <= S && RefClosed(h, S) ==> Within(h[x], S)
    ensures Within(h[x], Accessible(h, roots))
  {
    forall v: Val | In(v, live) && (forall S :: roots <= S && RefClosed(h, S) ==> In(v, S))
      ensures In(v, Accessible(h, roots))
    {
    }
  }

  // ---------- a store while marking ----------

  /** The object `x` is rewritten with references to existing objects. A black one is
      exempt from the invariant until its barrier. */
  lemma StepRewrite(h: Heap, white: bool, m: Marks, x: Id, o: Obj)
    requires MarkOk(h, white, m) && !m.atomic && m.busy == {} && x in h
    requires o.kind == h[x].kind && o.color == h[x].color && Shape(o) && Within(o, h.Keys)
    ensures MarkOk(h[x := o], white, m.(busy := if o.color.Black? then {x} else {})) && Marked(h[x := o]) == Marked(h)
  {
    var h', m' := h[x := o], m.(busy := if o.color.Black? then {x} else {});
    assert Marked(h') == Marked(h);
    RewriteHeap(h, x, o);
    RewriteLinks(h, m, x, o);
    assert OneWhite(h', white);
    RewriteObjs(h, m, x, o);
    hide HeapOk, LinkedOk, ObjsOk, OneWhite;
  }

  lemma RewriteHeap(h: Heap, x: Id, o: Obj)
    requires HeapOk(h) && x in h && Shape(o) && Within(o, h.Keys)
    ensures HeapOk(h[x := o])
  {
    assert h[x := o].Keys == h.Keys;
  }

  lemma RewriteLinks(h: Heap, m: Marks, x: Id, o: Obj)
    requires LinkedOk(h, m) && m.busy == {} && x in h && o.kind == h[x].kind && o.color == h[x].color
    ensures LinkedOk(h[x := o], m.(busy := if o.color.Black? then {x} else {}))
  {
    if o.color.Black? {
      Unlinked(h, m, x);
      LinkedBusy(h, m, x, o, {x});
    } else {
      LinkedSame(h, m, x, o);
    }
  }

  lemma RewriteObjs(h: Heap, m: Marks, x: Id, o: Obj)
    requires ObjsOk(h, m) && !m.atomic && m.busy == {} && x in h && o.kind == h[x].kind && o.color == h[x].color
    ensures ObjsOk(h[x := o], m.(busy := if o.color.Black? then {x} else {}))
  {
    var h', m' := h[x := o], m.(busy := if o.color.Black? then {x} else {});
    assert Marked(h') == Marked(h);
    hide Within, Marked;
    forall y | y in h' && y !in m'.busy ensures ObjOk(h', y, m') {
      assert ObjOk(h, y, m);
    }
  }

  /** The forward barrier: the stored object is marked. */
  lemma StepForward(h: Heap, white: bool, m: Marks, x: Id)
    requires MarkOk(h, white, m) && m.busy == {x} && x in h && h[x].color.Black? && !NeverBlack(h[x].kind)
      && Within(h[x], Marked(h))
    ensures MarkOk(h, white, m.(busy := {}))
  {
    StepTraversed(h, white, m, x);
    assert {x} - {x} == {};
  }

  /** The backward barrier: the table is gray again. */
  lemma StepBack(h: Heap, white: bool, m: Marks, x: Id)
    requires MarkOk(h, white, m) && m.busy == {x} && x in h && h[x].kind.TABLE?
    ensures MarkOk(Paint(h, x, Gray), white, m.(rest := [x] + m.rest, busy := {}))
  {
    StepPush(h, white, m, REST, x);
    assert {x} - {x} == {};
  }

  // ---------- a store while sweeping ----------

  /** The object `x`, which is not dead, is rewritten with references to live objects. */
  lemma SweepRewrite(h: Heap, allgc: seq<Id>, main: Id, white: bool, x: Id, o: Obj)
    requires ListsAll(h, allgc, main) && LiveClosed(h, white) && x in Alive(h, white)
    requires o.color == h[x].color && Shape(o) && Within(o, Alive(h, white))
    ensures ListsAll(h[x := o], allgc, main) && LiveClosed(h[x := o], white)
      && Alive(h[x := o], white) == Alive(h, white)
    ensures forall s :: AllSwept(h, s, white) ==> AllSwept(h[x := o], s, white)
    ensures AllWhite(h, white) ==> AllWhite(h[x := o], white)
  {
    assert Alive(h[x := o], white) == Alive(h, white);
    assert h[x := o].Keys == h.Keys;
  }

  /** A live object that was not swept yet may change its color. */
  lemma SweepRecolor(h: Heap, allgc: seq<Id>, main: Id, white: bool, x: Id, c: Color)
    requires ListsAll(h, allgc, main) && LiveClosed(h, white) && x in h && h[x].color.Black? && c != White(!white)
    ensures
      var h' := Paint(h, x, c);
      ListsAll(h', allgc, main) && LiveClosed(h', white) && Alive(h', white) == Alive(h, white)
    ensures forall s :: AllSwept(h, s, white) ==> AllSwept(Paint(h, x, c), s, white)
    ensures !AllWhite(h, white)
  {
    assert Alive(Paint(h, x, c), white) == Alive(h, white);
    assert Paint(h, x, c).Keys == h.Keys;
  }

  /** A dead string becomes live again. */
  lemma Resurrect(h: Heap, allgc: seq<Id>, main: Id, white: bool, x: Id)
    requires ListsAll(h, allgc, main) && LiveClosed(h, white) && x in h && h[x].kind.STRING?
      && h[x].color == White(!white)
    ensures
      var h' := Paint(h, x, White(white));
      ListsAll(h', allgc, main) && LiveClosed(h', white) && Alive(h', white) == Alive(h, white) + {x}
    ensures forall s :: AllSwept(h, s, white) ==> AllSwept(Paint(h, x, White(white)), s, white)
    ensures !AllWhite(h, white)
  {
    var h' := Paint(h, x, White(white));
    assert h'.Keys == h.Keys;
    assert Alive(h', white) == Alive(h, white) + {x};
    forall y | y in Alive(h', white) ensures Within(h'[y], Alive(h', white)) {
      if y != x {
        WithinMore(h[y], Alive(h, white), Alive(h', white));
      }
    }
  }

  // ---------- a new object ----------

  /** An object with no references yet. */
  predicate Fresh(o: Obj) {
    o.meta == Nil && (forall v :: v in o.slots ==> v == Nil) && (forall e :: e in o.node ==> e == Entry(Nil, Nil))
  }

  lemma FreshWithin(o: Obj, S: set<Id>)
    requires Fresh(o)
    ensures Within(o, S)
  {
    forall i | 0 <= i < |o.slots| ensures In(o.slots[i], S) {
      assert o.slots[i] in o.slots;
    }
    forall i | 0 <= i < |o.node| ensures EntryIn(o.node[i], S) {
      assert o.node[i] in o.node;
    }
  }

  lemma NewLists(h: Heap, allgc: seq<Id>, main: Id, x: Id, o: Obj)
    requires ListsAll(h, allgc, main) && x !in h
    ensures ListsAll(h[x := o], [x] + allgc, main)
  {
    assert x !in allgc by {
      assert x in allgc ==> x in Ids(allgc);
    }
    assert Ids([x] + allgc) == Ids(allgc) + {x};
  }

  lemma NewSweep(h: Heap, white: bool, x: Id, o: Obj)
    requires LiveClosed(h, white) && x !in h && Shape(o) && Fresh(o) && o.color == White(white)
    ensures LiveClosed(h[x := o], white) && Alive(h[x := o], white) == Alive(h, white) + {x}
    ensures forall s :: AllSwept(h, s, white) ==> AllSwept(h[x := o], s, white) && AllSwept(h[x := o], [x] + s, white)
    ensures AllWhite(h, white) ==> AllWhite(h[x := o], white)
  {
    var h' := h[x := o];
    assert Alive(h', white) == Alive(h, white) + {x};
    FreshWithin(o, Alive(h', white));
    forall y | y in Alive(h', white) ensures Within(h'[y], Alive(h', white)) {
      if y != x {
        WithinMore(h[y], Alive(h, white), Alive(h', white));
      }
    }
    forall s | AllSwept(h, s, white) ensures AllSwept(h', [x] + s, white) {
      assert forall y :: y in [x] + s ==> y == x || y in s;
    }
  }

  lemma NewMark(h: Heap, white: bool, m: Marks, x: Id, o: Obj)
    requires MarkOk(h, white, m) && !m.atomic && m.busy == {} && x !in h && Shape(o) && Fresh(o)
      && o.color == White(white)
    ensures MarkOk(h[x := o], white, m) && Marked(h[x := o]) == Marked(h)
  {
    var h' := h[x := o];
    assert Marked(h') == Marked(h);
    FreshWithin(o, h'.Keys);
    forall y | y in h' ensures Shape(h'[y]) && Within(h'[y], h'.Keys) {
      if y != x {
        WithinMore(h[y], h.Keys, h'.Keys);
      }
    }
    NewLinks(h, m, x, o);
    hide Within, Marked, LinkedOk;
    forall y | y in h' ensures ObjOk(h', y, m) {
      if y != x {
        assert ObjOk(h, y, m);
      }
    }
  }

  lemma NewLinks(h: Heap, m: Marks, x: Id, o: Obj)
    requires LinkedOk(h, m) && x !in h
    ensures LinkedOk(h[x := o], m)
  {
    hide Distinct, AllApart;
  }

  // ---------- facts for the steps of the program ----------

  lemma LiveRefs(h: Heap, white: bool, x: Id)
    requires LiveClosed(h, white) && x in Alive(h, white)
    ensures Shape(h[x]) && Within(h[x], Alive(h, white)) && Alive(h, white) <= h.Keys
  {
    AliveKeys(h, white);
  }

  lemma BlackRefs(h: Heap, white: bool, m: Marks, x: Id, S: set<Id>)
    requires MarkOk(h, white, m) && m.busy == {} && x in h && h[x].color.Black?
    ensures !NeverBlack(h[x].kind) && Within(h[x], Marked(h) + S)
  {
    assert ObjOk(h, x, m);
    WithinMore(h[x], Marked(h), Marked(h) + S);
  }

  /** Every set of all objects is closed. */
  lemma AllBounded(h: Heap)
    requires HeapOk(h)
    ensures Bounded(h, h.Keys)
  {
    forall x | x in h ensures Keeps(h, h[x], h.Keys) {
      assert Within(h[x], h.Keys);
    }
  }

  lemma WithinMarked(o: Obj, v: Val, S: set<Id>, T: set<Id>)
    requires Within(o, S + (if v.Ref? then {v.id} else {})) && S <= T && In(v, T)
    ensures Within(o, T)
  {
    WithinMore(o, S + (if v.Ref? then {v.id} else {}), T);
  }

  lemma RecoloredContents(h: Heap, h': Heap)
    requires Recolored(h, h')
    ensures SameContents(h, h')
  {
  }

  lemma PaintContents(h: Heap, x: Id, c: Color)
    requires x in h
    ensures SameContents(h, Paint(h, x, c)) && SameContents(h, h)
  {
  }

  lemma MarkingAliveSame(h: Heap, h': Heap, white: bool)
    requires OneWhite(h, white) && OneWhite(h', white) && h'.Keys == h.Keys
    ensures Alive(h', white) == Alive(h, white)
  {
    MarkingAlive(h, white);
    MarkingAlive(h', white);
  }

  lemma NewShape(kind: Kind, white: bool, slots: nat, nodes: nat)
    requires (kind.USERDATA? ==> slots == 1) && (kind.STRING? ==> slots == 0) && (kind.TABLE? || nodes == 0)
    ensures
      var o := Obj(kind, White(white), Nil, seq(slots, i => Nil), seq(nodes, i => Entry(Nil, Nil)));
      Shape(o) && Fresh(o)
  {
  }

  lemma MetaShape(o: Obj, v: Val)
    requires Shape(o) && (o.kind.TABLE? || o.kind.USERDATA?) && v != DeadKey
    ensures Shape(o.(meta := v))
    ensures forall S :: Within(o, S) && In(v, S) ==> Within(o.(meta := v), S)
  {
  }

  lemma SlotShape(o: Obj, i: nat, v: Val)
    requires Shape(o) && i < |o.slots| && v != DeadKey
    ensures Shape(o.(slots := o.slots[i := v]))
    ensures forall S :: Within(o, S) && In(v, S) ==> Within(o.(slots := o.slots[i := v]), S)
  {
    assert forall w :: w in o.slots[i := v] ==> w == v || w in o.slots;
  }

  lemma EntryShapeNew(o: Obj, i: nat, e: Entry, v: Val)
    requires Shape(o) && o.kind.TABLE? && i < |o.node| && EntryShape(e)
    requires forall S :: EntryIn(o.node[i], S) && In(v, S) ==> EntryIn(e, S)
    ensures Shape(o.(node := o.node[i := e]))
    ensures forall S :: Within(o, S) && In(v, S) ==> Within(o.(node := o.node[i := e]), S)
  {
    assert forall w :: w in o.node[i := e] ==> w == e || w in o.node;
  }

  lemma PushShape(o: Obj, v: Val)
    requires Shape(o) && o.kind.THREAD? && v != DeadKey
    ensures Shape(o.(slots := o.slots + [v]))
    ensures forall S :: Within(o, S) && In(v, S) ==> Within(o.(slots := o.slots + [v]), S)
  {
  }

  lemma PopShape(o: Obj)
    requires Shape(o) && o.kind.THREAD? && |o.slots| > 0
    ensures Shape(o.(slots := o.slots[..|o.slots| - 1]))
    ensures forall S :: Within(o, S) ==> Within(o.(slots := o.slots[..|o.slots| - 1]), S)
  {
    assert forall w :: w in o.slots[..|o.slots| - 1] ==> w in o.slots;
  }

  lemma AliveIs(h: Heap, white: bool, x: Id)
    requires x in h && h[x].color != White(!white)
    ensures Alive(h, white) + {x} == Alive(h, white)
  {
  }
}
