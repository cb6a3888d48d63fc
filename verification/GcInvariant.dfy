/** The invariants of the collector, and how they survive one change of the heap. */
module GcInvariant {
  import opened ObjectHeap

  /** The gray lists as the invariant sees them: `rest` is the part of the gray objects
      that waits outside the list `gray`, and `busy` holds the objects that are being
      traversed at the moment. */
  datatype Marks = Marks(gray: seq<Id>, rest: seq<Id>, weak: seq<Id>, allweak: seq<Id>, ephemeron: seq<Id>,
                         atomic: bool, busy: set<Id>)

  ghost predicate HeapOk(h: Heap) {
    forall x :: x in h ==> Shape(h[x]) && Within(h[x], h.Keys)
  }

  ghost predicate Distinct(s: seq<Id>) {
    forall i, j :: 0 <= i < j < |s| ==> s[i] != s[j]
  }

  ghost predicate Apart(s: seq<Id>, t: seq<Id>) {
    forall x :: x in s ==> x !in t
  }

  /** A list holds gray objects, each of them once. */
  ghost predicate ListOk(h: Heap, s: seq<Id>, busy: set<Id>) {
    Distinct(s) && forall x :: x in s ==> x in h && h[x].color.Gray? && Listed(h[x].kind) && x !in busy
  }

  ghost predicate TablesOk(h: Heap, s: seq<Id>, mode: Mode) {
    forall x :: x in s ==> x in h && h[x].kind == TABLE(mode)
  }

  /** An object has a single link field: it is on one list at most. */
  ghost predicate AllApart(m: Marks) {
    && Apart(m.gray, m.rest) && Apart(m.gray, m.weak) && Apart(m.gray, m.allweak) && Apart(m.gray, m.ephemeron)
    && Apart(m.rest, m.weak) && Apart(m.rest, m.allweak) && Apart(m.rest, m.ephemeron)
    && Apart(m.weak, m.allweak) && Apart(m.weak, m.ephemeron) && Apart(m.allweak, m.ephemeron)
  }

  predicate Linked(m: Marks, x: Id) {
    x in m.gray || x in m.rest || x in m.weak || x in m.allweak || x in m.ephemeron
  }

  ghost predicate LinkedOk(h: Heap, m: Marks) {
    && ListOk(h, m.gray, m.busy) && ListOk(h, m.rest, m.busy)
    && ListOk(h, m.weak, m.busy) && ListOk(h, m.allweak, m.busy) && ListOk(h, m.ephemeron, m.busy)
    && TablesOk(h, m.weak, WeakValues) && TablesOk(h, m.allweak, Ephemeron) && TablesOk(h, m.ephemeron, Ephemeron)
    && AllApart(m)
  }

  /** A gray object the atomic phase is done with, except for the weak references that
      its list says are still to be cleared. */
  ghost predicate Visited(h: Heap, x: Id, m: Marks)
    requires x in h
  {
    var o, S := h[x], Marked(h);
    match o.kind
    case THREAD => Within(o, S)
    case TABLE(WeakValues) =>
      && In(o.meta, S)
      && (forall i :: 0 <= i < |o.node| ==> In(o.node[i].key, S))
      && (x in m.weak || (o.slots == [] && Within(o, S)))
    case TABLE(Ephemeron) =>
      && In(o.meta, S) && SlotsIn(o.slots, S)
      && (forall i :: 0 <= i < |o.node| && (o.node[i].val == Nil || IsString(h, o.node[i].key)) ==>
          In(o.node[i].key, S))
      && (x in m.ephemeron || forall i :: 0 <= i < |o.node| ==> In(o.node[i].val, S))
      && (x in m.ephemeron || x in m.allweak || forall i :: 0 <= i < |o.node| ==> In(o.node[i].key, S))
    case _ => false
  }

  /** A black object refers to no white object; a gray object waits on a list. */
  ghost predicate ObjOk(h: Heap, x: Id, m: Marks)
    requires x in h
  {
    match h[x].color
    case White(_) => true
    case Black => !NeverBlack(h[x].kind) && Within(h[x], Marked(h))
    case Gray => x in m.gray || x in m.rest || (m.atomic && Visited(h, x, m))
  }

  /** Objects of one white only. */
  ghost predicate OneWhite(h: Heap, white: bool) {
    forall x :: x in h && h[x].color.White? ==> h[x].color.w == white
  }

  ghost predicate ObjsOk(h: Heap, m: Marks) {
    forall x :: x in h && x !in m.busy ==> ObjOk(h, x, m)
  }

  ghost predicate MarkOk(h: Heap, white: bool, m: Marks) {
    HeapOk(h) && OneWhite(h, white) && LinkedOk(h, m) && m.busy <= Marked(h) && ObjsOk(h, m)
  }

  // ---------- changes of an object ----------

  /** An entry of a table was kept, or cleared as far as `S` allows. */
  predicate EntryCleaned(kind: Kind, e: Entry, e': Entry, S: set<Id>) {
    e' == e || (
    && e'.val == Nil && (e'.key == e.key || e'.key == DeadKey)
    && (e.val == Nil || (kind == TABLE(WeakValues) && !In(e.val, S)) || (kind == TABLE(Ephemeron) && !In(e.key, S))))
  }

  /** Only weak references to objects outside `S`, and the keys of empty entries, were
      removed from the object. */
  predicate Cleaned(o: Obj, o': Obj, S: set<Id>) {
    && o'.kind == o.kind && o'.meta == o.meta && |o'.slots| == |o.slots| && |o'.node| == |o.node|
    && (forall i :: 0 <= i < |o.slots| ==>
        o'.slots[i] == o.slots[i] || (o'.slots[i] == Nil && o.kind == TABLE(WeakValues) && !In(o.slots[i], S)))
    && (forall i :: 0 <= i < |o.node| ==> EntryCleaned(o.kind, o.node[i], o'.node[i], S))
  }

  ghost predicate HeapCleaned(h: Heap, h': Heap, S: set<Id>) {
    h'.Keys == h.Keys && forall x :: x in h ==> Cleaned(h[x], h'[x], S)
  }

  /** The collector marked objects and removed nothing but keys of empty entries. */
  ghost predicate Advanced(h: Heap, h': Heap) {
    HeapCleaned(h, h', h.Keys) && Marked(h) <= Marked(h')
  }

  /** Marking stays inside `S`. */
  ghost predicate Bounded(h: Heap, S: set<Id>) {
    Marked(h) <= S && Closed(h, S)
  }

  /** Some white objects were marked and nothing else changed. */
  ghost predicate Recolored(h: Heap, h': Heap) {
    h'.Keys == h.Keys && forall x :: x in h ==>
      h'[x] == h[x] || (h[x].color.White? && !h'[x].color.White? && h'[x] == h[x].(color := h'[x].color))
  }

  lemma CleanedTrans(a: Obj, b: Obj, c: Obj, S: set<Id>)
    requires Cleaned(a, b, S) && Cleaned(b, c, S)
    ensures Cleaned(a, c, S)
  {
    forall i | 0 <= i < |a.node| ensures EntryCleaned(a.kind, a.node[i], c.node[i], S) {
      assert EntryCleaned(a.kind, a.node[i], b.node[i], S) && EntryCleaned(b.kind, b.node[i], c.node[i], S);
    }
  }

  lemma CleanedLess(a: Obj, b: Obj, S: set<Id>, T: set<Id>)
    requires Cleaned(a, b, S) && T <= S
    ensures Cleaned(a, b, T)
  {
  }

  lemma AdvancedTrans(h0: Heap, h1: Heap, h2: Heap)
    requires Advanced(h0, h1) && Advanced(h1, h2)
    ensures Advanced(h0, h2)
  {
    hide Cleaned, Marked;
    forall x | x in h0 ensures Cleaned(h0[x], h2[x], h0.Keys) {
      CleanedTrans(h0[x], h1[x], h2[x], h0.Keys);
    }
  }

  lemma RecoloredAdvanced(h0: Heap, h1: Heap)
    requires Recolored(h0, h1)
    ensures Advanced(h0, h1)
  {
  }

  lemma RecoloredTrans(h0: Heap, h1: Heap, h2: Heap)
    requires Recolored(h0, h1) && Recolored(h1, h2)
    ensures Recolored(h0, h2)
  {
  }

  lemma CleanedShape(o: Obj, o': Obj, S: set<Id>, T: set<Id>)
    requires Cleaned(o, o', S) && Shape(o) && Within(o, T)
    ensures Shape(o') && Within(o', T)
  {
    forall i | 0 <= i < |o'.node| ensures EntryShape(o'.node[i]) && EntryIn(o'.node[i], T) {
      assert o.node[i] in o.node;
      assert EntryCleaned(o.kind, o.node[i], o'.node[i], S);
    }
    forall v | v in o'.slots ensures v != DeadKey {
      var i :| 0 <= i < |o'.slots| && o'.slots[i] == v;
      assert o.slots[i] in o.slots;
    }
  }

  lemma CleanedKeeps(h: Heap, h': Heap, x: Id, S: set<Id>, T: set<Id>)
    requires x in h && HeapCleaned(h, h', S) && Keeps(h, h[x], T)
    ensures Keeps(h', h'[x], T)
  {
    var o, o' := h[x], h'[x];
    assert Cleaned(o, o', S);
    forall v: Val ensures IsString(h', v) == IsString(h, v) {
      if v.Ref? && v.id in h {
        assert Cleaned(h[v.id], h'[v.id], S);
      }
    }
    forall i | 0 <= i < |o.node| ensures EntryCleaned(o.kind, o.node[i], o'.node[i], S) {
    }
  }

  lemma CleanedClosed(h: Heap, h': Heap, S: set<Id>, T: set<Id>)
    requires HeapCleaned(h, h', S) && Closed(h, T)
    ensures Closed(h', T)
  {
    hide Cleaned, Keeps;
    forall x | x in T && x in h' ensures Keeps(h', h'[x], T) {
      CleanedKeeps(h, h', x, S, T);
    }
  }

  // ---------- the invariant after a change of one object ----------

  lemma MarkOne(h: Heap, x: Id, o: Obj)
    requires x in h && !o.color.White? && o.kind == h[x].kind
    ensures Marked(h[x := o]) == Marked(h) + {x} && Unmarked(h[x := o]) == Unmarked(h) - {x}
    ensures x in Unmarked(h) ==> |Unmarked(h[x := o])| == |Unmarked(h)| - 1
    ensures forall v: Val :: IsString(h[x := o], v) == IsString(h, v)
  {
  }

  lemma ObjOkMore(h: Heap, h': Heap, y: Id, m: Marks, m': Marks)
    requires y in h && y in h' && h'[y] == h[y] && ObjOk(h, y, m)
    requires Marked(h) <= Marked(h') && forall v: Val :: IsString(h', v) == IsString(h, v)
    requires y in m.gray || y in m.rest ==> y in m'.gray || y in m'.rest
    requires (y in m.weak ==> y in m'.weak) && (y in m.allweak ==> y in m'.allweak)
      && (y in m.ephemeron ==> y in m'.ephemeron)
    requires m'.atomic == m.atomic
    ensures ObjOk(h', y, m')
  {
    hide Marked, IsString;
    if h[y].color.Black? {
      WithinMore(h[y], Marked(h), Marked(h'));
    } else if m.atomic && Visited(h, y, m) {
      VisitedMore(h, h', y, m, m');
    }
  }

  lemma VisitedMore(h: Heap, h': Heap, y: Id, m: Marks, m': Marks)
    requires y in h && y in h' && h'[y] == h[y] && Visited(h, y, m)
    requires Marked(h) <= Marked(h') && forall v: Val :: IsString(h', v) == IsString(h, v)
    requires (y in m.weak ==> y in m'.weak) && (y in m.allweak ==> y in m'.allweak)
      && (y in m.ephemeron ==> y in m'.ephemeron)
    ensures Visited(h', y, m')
  {
    hide Marked, IsString;
  }

  /** Every object but `x` keeps its place on the lists. */
  ghost predicate ListsKept(x: Id, m: Marks, m': Marks) {
    && m'.atomic == m.atomic && m.busy - {x} <= m'.busy
    && (forall y :: y != x && (y in m.gray || y in m.rest) ==> y in m'.gray || y in m'.rest)
    && (forall y :: y != x && y in m.weak ==> y in m'.weak)
    && (forall y :: y != x && y in m.allweak ==> y in m'.allweak)
    && (forall y :: y != x && y in m.ephemeron ==> y in m'.ephemeron)
  }

  lemma TouchHeap(h: Heap, x: Id, o: Obj, S: set<Id>)
    requires HeapOk(h) && x in h && Cleaned(h[x], o, S)
    ensures HeapOk(h[x := o]) && HeapCleaned(h, h[x := o], S)
  {
    var h' := h[x := o];
    CleanedShape(h[x], o, S, h.Keys);
    hide Cleaned, Within, Shape;
    assert h'.Keys == h.Keys;
    forall y | y in h ensures Cleaned(h[y], h'[y], S) {
      CleanedSame(h[y], S);
    }
  }

  lemma TouchOthers(h: Heap, m: Marks, x: Id, o: Obj, m': Marks, S: set<Id>)
    requires x in h && !o.color.White? && Cleaned(h[x], o, S) && ListsKept(x, m, m')
    requires ObjsOk(h, m) && (x in m'.busy || ObjOk(h[x := o], x, m'))
    ensures ObjsOk(h[x := o], m')
  {
    MarkOne(h, x, o);
    hide ObjOk, Marked, Unmarked, IsString;
    forall y | y in h[x := o] && y !in m'.busy && y != x ensures ObjOk(h[x := o], y, m') {
      ObjOkMore(h, h[x := o], y, m, m');
    }
  }

  lemma TouchColors(h: Heap, white: bool, x: Id, o: Obj, m: Marks, m': Marks)
    requires OneWhite(h, white) && x in h && !o.color.White? && m.busy <= Marked(h) && m'.busy <= m.busy + {x}
    ensures OneWhite(h[x := o], white) && Marked(h) <= Marked(h[x := o]) && m'.busy <= Marked(h[x := o])
  {
  }

  /** One object `x` was recolored, cleaned or linked. */
  lemma Touch(h: Heap, white: bool, m: Marks, x: Id, o: Obj, m': Marks, S: set<Id>)
    requires MarkOk(h, white, m) && x in h && !o.color.White? && Cleaned(h[x], o, S)
    requires ListsKept(x, m, m') && LinkedOk(h[x := o], m') && m'.busy <= m.busy + {x}
    requires x in m'.busy || ObjOk(h[x := o], x, m')
    ensures MarkOk(h[x := o], white, m')
    ensures HeapCleaned(h, h[x := o], S) && Marked(h) <= Marked(h[x := o])
  {
    hide HeapOk, OneWhite, LinkedOk, ObjsOk, ObjOk, Marked, ListsKept, HeapCleaned, Cleaned;
    TouchHeap(h, x, o, S);
    TouchOthers(h, m, x, o, m', S);
    TouchColors(h, white, x, o, m, m');
  }

  lemma CleanedSame(o: Obj, S: set<Id>)
    ensures Cleaned(o, o, S)
  {
  }

  // ---------- the single steps of marking ----------

  function Paint(h: Heap, x: Id, c: Color): Heap
    requires x in h
  {
    h[x := h[x].(color := c)]
  }

  lemma PaintFacts(h: Heap, x: Id, c: Color)
    requires x in h && !c.White?
    ensures Cleaned(h[x], h[x].(color := c), h.Keys) && Marked(Paint(h, x, c)) == Marked(h) + {x}
    ensures |Unmarked(Paint(h, x, c))| == if h[x].color.White? then |Unmarked(h)| - 1 else |Unmarked(h)|
    ensures h[x].color.White? ==> Recolored(h, Paint(h, x, c))
    ensures !h[x].color.White? ==> Unmarked(Paint(h, x, c)) == Unmarked(h)
  {
    MarkOne(h, x, h[x].(color := c));
    CleanedSame(h[x], h.Keys);
    if !h[x].color.White? {
      assert Unmarked(Paint(h, x, c)) == Unmarked(h);
    }
  }

  lemma BoundedPaint(h: Heap, x: Id, c: Color, S: set<Id>)
    requires x in h && !c.White? && Bounded(h, S) && x in S
    ensures Bounded(Paint(h, x, c), S)
  {
    PaintFacts(h, x, c);
    var h' := Paint(h, x, c);
    forall y | y in h ensures Cleaned(h[y], h'[y], h.Keys) {
      CleanedSame(h[y], h.Keys);
    }
    hide Cleaned, Keeps, Marked;
    CleanedClosed(h, h', h.Keys, S);
  }

  lemma ListOther(h: Heap, s: seq<Id>, busy: set<Id>, x: Id, o: Obj, busy': set<Id>)
    requires ListOk(h, s, busy) && x in h && x !in s && busy' <= busy + {x}
    ensures ListOk(h[x := o], s, busy')
  {
  }

  lemma TablesOther(h: Heap, s: seq<Id>, mode: Mode, x: Id, o: Obj)
    requires TablesOk(h, s, mode) && x in h && o.kind == h[x].kind
    ensures TablesOk(h[x := o], s, mode)
  {
  }

  /** An unlinked object may change and become busy or not. */
  lemma LinkedBusy(h: Heap, m: Marks, x: Id, o: Obj, busy': set<Id>)
    requires LinkedOk(h, m) && x in h && !Linked(m, x) && o.kind == h[x].kind && busy' <= m.busy + {x}
    ensures LinkedOk(h[x := o], m.(busy := busy'))
  {
    hide ListOk, TablesOk, Apart;
    ListOther(h, m.gray, m.busy, x, o, busy');
    ListOther(h, m.rest, m.busy, x, o, busy');
    ListOther(h, m.weak, m.busy, x, o, busy');
    ListOther(h, m.allweak, m.busy, x, o, busy');
    ListOther(h, m.ephemeron, m.busy, x, o, busy');
    TablesOther(h, m.weak, WeakValues, x, o);
    TablesOther(h, m.allweak, Ephemeron, x, o);
    TablesOther(h, m.ephemeron, Ephemeron, x, o);
  }

  /** Only gray objects that are not being traversed are linked. */
  lemma LinkedGray(h: Heap, m: Marks, x: Id)
    requires LinkedOk(h, m) && Linked(m, x)
    ensures x in h && h[x].color.Gray? && Listed(h[x].kind) && x !in m.busy
  {
    hide TablesOk, AllApart, Distinct;
  }

  lemma Unlinked(h: Heap, m: Marks, x: Id)
    requires LinkedOk(h, m) && (x in m.busy || (x in h && !h[x].color.Gray?))
    ensures !Linked(m, x)
  {
    hide LinkedOk;
    if Linked(m, x) {
      LinkedGray(h, m, x);
    }
  }

  /** A white object starts to be marked. */
  lemma StepWhite(h: Heap, white: bool, m: Marks, x: Id, c: Color)
    requires MarkOk(h, white, m) && x in h && h[x].color.White? && !c.White?
    ensures MarkOk(Paint(h, x, c), white, m.(busy := m.busy + {x}))
  {
    var o := h[x].(color := c);
    hide LinkedOk, Cleaned, ObjOk, Marked, Unmarked, Linked, OneWhite, HeapOk, ObjsOk;
    Unlinked(h, m, x);
    LinkedBusy(h, m, x, o, m.busy + {x});
    PaintFacts(h, x, c);
    KeptBusy(x, m, m.busy + {x});
    Touch(h, white, m, x, o, m.(busy := m.busy + {x}), h.Keys);
  }

  lemma KeptBusy(x: Id, m: Marks, busy: set<Id>)
    requires m.busy - {x} <= busy
    ensures ListsKept(x, m, m.(busy := busy))
  {
  }

  /** The color of an object that is being traversed does not matter. */
  lemma StepBusy(h: Heap, white: bool, m: Marks, x: Id, o: Obj, S: set<Id>)
    requires MarkOk(h, white, m) && x in m.busy && x in h && !o.color.White? && Cleaned(h[x], o, S)
    ensures MarkOk(h[x := o], white, m) && HeapCleaned(h, h[x := o], S) && Marked(h) <= Marked(h[x := o])
  {
    assert o.kind == h[x].kind;
    hide LinkedOk, Cleaned, ObjOk, Marked, Unmarked, Linked, OneWhite, HeapOk, ObjsOk, HeapCleaned;
    Unlinked(h, m, x);
    LinkedBusy(h, m, x, o, m.busy);
    KeptBusy(x, m, m.busy);
    Touch(h, white, m, x, o, m, S);
  }

  /** The traversal of an object ends: it is black, or visited in the atomic phase. */
  lemma StepDone(h: Heap, white: bool, m: Marks, x: Id, c: Color)
    requires MarkOk(h, white, m) && x in m.busy && x in h && !c.White?
    requires ObjOk(Paint(h, x, c), x, m.(busy := m.busy - {x}))
    ensures MarkOk(Paint(h, x, c), white, m.(busy := m.busy - {x}))
  {
    var o := h[x].(color := c);
    hide LinkedOk, Cleaned, ObjOk, Marked, Unmarked, Linked, OneWhite, HeapOk, ObjsOk;
    Unlinked(h, m, x);
    LinkedBusy(h, m, x, o, m.busy - {x});
    PaintFacts(h, x, c);
    KeptBusy(x, m, m.busy - {x});
    Touch(h, white, m, x, o, m.(busy := m.busy - {x}), h.Keys);
  }

  /** The gray lists. */
  datatype Which = GRAY | REST | WEAK | ALLWEAK | EPHEMERON

  /** `x` is put in front of a list. */
  function Push(m: Marks, l: Which, x: Id): Marks {
    var m := m.(busy := m.busy - {x});
    match l
    case GRAY => m.(gray := [x] + m.gray)
    case REST => m.(rest := [x] + m.rest)
    case WEAK => m.(weak := [x] + m.weak)
    case ALLWEAK => m.(allweak := [x] + m.allweak)
    case EPHEMERON => m.(ephemeron := [x] + m.ephemeron)
  }

  predicate Fits(k: Kind, l: Which) {
    match l
    case WEAK => k == TABLE(WeakValues)
    case ALLWEAK => k == TABLE(Ephemeron)
    case EPHEMERON => k == TABLE(Ephemeron)
    case _ => Listed(k)
  }

  lemma ListPush(h: Heap, s: seq<Id>, x: Id, busy: set<Id>)
    requires ListOk(h, s, busy) && x !in s && x in h && h[x].color.Gray? && Listed(h[x].kind) && x !in busy
    ensures ListOk(h, [x] + s, busy)
  {
    var t := [x] + s;
    assert forall y :: y in t ==> y == x || y in s;
  }

  lemma ApartPush(s: seq<Id>, t: seq<Id>, x: Id)
    requires Apart(s, t)
    ensures x !in t ==> Apart([x] + s, t)
    ensures x !in s ==> Apart(s, [x] + t)
  {
    assert forall y :: y in [x] + s ==> y == x || y in s;
    assert forall y :: y in [x] + t ==> y == x || y in t;
  }

  lemma TablesPush(h: Heap, s: seq<Id>, x: Id, mode: Mode)
    requires TablesOk(h, s, mode) && x in h && h[x].kind == TABLE(mode)
    ensures TablesOk(h, [x] + s, mode)
  {
    assert forall y :: y in [x] + s ==> y == x || y in s;
  }

  lemma ApartPushed(m: Marks, l: Which, x: Id)
    requires AllApart(m) && !Linked(m, x)
    ensures AllApart(Push(m, l, x))
  {
    hide Apart;
    ApartPush(m.gray, m.rest, x); ApartPush(m.gray, m.weak, x); ApartPush(m.gray, m.allweak, x);
    ApartPush(m.gray, m.ephemeron, x);
    ApartPush(m.rest, m.weak, x); ApartPush(m.rest, m.allweak, x); ApartPush(m.rest, m.ephemeron, x);
    ApartPush(m.weak, m.allweak, x); ApartPush(m.weak, m.ephemeron, x); ApartPush(m.allweak, m.ephemeron, x);
  }

  lemma LinkedPush(h: Heap, m: Marks, l: Which, x: Id)
    requires LinkedOk(h, m) && x in m.busy && x in h && Fits(h[x].kind, l)
    ensures LinkedOk(Paint(h, x, Gray), Push(m, l, x))
  {
    Unlinked(h, m, x);
    var h' := Paint(h, x, Gray);
    var busy := m.busy - {x};
    LinkedBusy(h, m, x, h[x].(color := Gray), busy);
    ApartPushed(m, l, x);
    hide ListOk, TablesOk, AllApart;
    var k := m.(busy := busy);
    match l
    case GRAY => ListPush(h', k.gray, x, busy);
    case REST => ListPush(h', k.rest, x, busy);
    case WEAK => ListPush(h', k.weak, x, busy); TablesPush(h', k.weak, x, WeakValues);
    case ALLWEAK => ListPush(h', k.allweak, x, busy); TablesPush(h', k.allweak, x, Ephemeron);
    case EPHEMERON => ListPush(h', k.ephemeron, x, busy); TablesPush(h', k.ephemeron, x, Ephemeron);
  }

  /** The traversal of an object ends with it on a list. */
  lemma StepPush(h: Heap, white: bool, m: Marks, l: Which, x: Id)
    requires MarkOk(h, white, m) && x in m.busy && x in h && Fits(h[x].kind, l)
    requires l.GRAY? || l.REST? || (m.atomic && Visited(Paint(h, x, Gray), x, Push(m, l, x)))
    ensures MarkOk(Paint(h, x, Gray), white, Push(m, l, x))
  {
    var m' := Push(m, l, x);
    KeptPush(m, l, x);
    PaintFacts(h, x, Gray);
    assert ObjOk(Paint(h, x, Gray), x, m');
    hide LinkedOk, Cleaned, ObjOk, Marked, Unmarked, Visited, Linked, OneWhite, HeapOk, ObjsOk, ListsKept;
    LinkedPush(h, m, l, x);
    Touch(h, white, m, x, h[x].(color := Gray), m', h.Keys);
  }

  lemma KeptPush(m: Marks, l: Which, x: Id)
    ensures ListsKept(x, m, Push(m, l, x)) && Push(m, l, x).busy <= m.busy + {x} && Push(m, l, x).atomic == m.atomic
    ensures x in if l.GRAY? then Push(m, l, x).gray else if l.REST? then Push(m, l, x).rest else [x]
  {
  }

  function Pop(m: Marks): Marks
    requires m.gray != []
  {
    m.(gray := m.gray[1..], busy := m.busy + {m.gray[0]})
  }

  lemma ListPop(h: Heap, s: seq<Id>, busy: set<Id>)
    requires ListOk(h, s, busy) && s != []
    ensures s[0] in h && h[s[0]].color.Gray? && Listed(h[s[0]].kind) && s[0] !in busy && s[0] !in s[1..]
    ensures ListOk(h, s[1..], busy)
    ensures forall x :: x in s <==> x == s[0] || x in s[1..]
  {
    assert s == [s[0]] + s[1..];
  }

  lemma LinkedPop(h: Heap, m: Marks, o: Obj)
    requires LinkedOk(h, m) && m.gray != [] && m.gray[0] in h && o.kind == h[m.gray[0]].kind
    ensures LinkedOk(h[m.gray[0] := o], Pop(m))
  {
    var x := m.gray[0];
    ListPop(h, m.gray, m.busy);
    assert Apart(m.gray[1..], m.rest) && Apart(m.gray[1..], m.weak) && Apart(m.gray[1..], m.allweak)
      && Apart(m.gray[1..], m.ephemeron);
    var k := m.(gray := m.gray[1..]);
    assert !Linked(k, x);
    hide ListOk, Apart, TablesOk, Linked;
    LinkedBusy(h, k, x, o, m.busy + {x});
  }

  /** The first gray object is taken from its list. */
  lemma StepPop(h: Heap, white: bool, m: Marks, c: Color)
    requires MarkOk(h, white, m) && m.gray != [] && !c.White?
    ensures m.gray[0] in h && h[m.gray[0]].color.Gray? && Listed(h[m.gray[0]].kind) && m.gray[0] !in m.busy
    ensures MarkOk(Paint(h, m.gray[0], c), white, Pop(m))
  {
    var x := m.gray[0];
    ListPop(h, m.gray, m.busy);
    assert ListsKept(x, m, Pop(m));
    PaintFacts(h, x, c);
    hide LinkedOk, Cleaned, ObjOk, Marked, Unmarked, Visited, Linked, OneWhite, HeapOk, ObjsOk, ListsKept;
    LinkedPop(h, m, h[x].(color := c));
    Touch(h, white, m, x, h[x].(color := c), Pop(m), h.Keys);
  }

  /** What is left to mark: it bounds the propagation. */
  ghost function Work(h: Heap, gray: seq<Id>): nat {
    |gray| + |Unmarked(h)|
  }

  /** Marking an object that refers to nothing unmarked ends at once. */
  lemma StepBlack(h: Heap, white: bool, m: Marks, x: Id)
    requires MarkOk(h, white, m) && x in m.busy && x in h && !NeverBlack(h[x].kind) && Within(h[x], Marked(h))
    ensures MarkOk(Paint(h, x, Black), white, m.(busy := m.busy - {x}))
  {
    PaintFacts(h, x, Black);
    WithinMore(h[x], Marked(h), Marked(Paint(h, x, Black)));
    assert ObjOk(Paint(h, x, Black), x, m.(busy := m.busy - {x}));
    hide MarkOk, ObjOk, Marked, Within;
    StepDone(h, white, m, x, Black);
  }

  lemma PaintSwap(h: Heap, x: Id, c: Color, y: Id, d: Color)
    requires x in h && y in h && x != y
    ensures y in Paint(h, x, c) && x in Paint(h, y, d)
    ensures Paint(Paint(h, x, c), y, d) == Paint(Paint(h, y, d), x, c)
  {
  }

  lemma UserValueRefs(h: Heap, white: bool, m: Marks, x: Id, v: Id)
    requires MarkOk(h, white, m) && x in m.busy && x in h && h[x].kind.USERDATA? && In(h[x].meta, Marked(h))
    requires h[x].slots == [Ref(v)] && v in h && h[v].color.White?
    ensures x != v && Within(h[x], Marked(Paint(h, v, Gray)))
  {
    assert x in Marked(h);
    HeapRefs(h, x);
    hide MarkOk;
    PaintFacts(h, v, Gray);
  }

  /** A marked userdata sends the marking on to its white user value. */
  lemma StepUserValue(h: Heap, white: bool, m: Marks, x: Id, v: Id)
    requires MarkOk(h, white, m) && x in m.busy && x in h && h[x].kind.USERDATA? && In(h[x].meta, Marked(h))
    requires h[x].slots == [Ref(v)] && v in h && h[v].color.White?
    ensures v != x && v in Paint(h, x, Black)
    ensures MarkOk(Paint(Paint(h, x, Black), v, Gray), white, m.(busy := m.busy - {x} + {v}))
  {
    hide MarkOk, ObjOk, Marked, Unmarked, Cleaned, Recolored, Within, Shape;
    var h1, m1 := Paint(h, v, Gray), m.(busy := m.busy + {v});
    UserValueRefs(h, white, m, x, v);
    StepWhite(h, white, m, v, Gray);
    StepBlack(h1, white, m1, x);
    PaintSwap(h, x, Black, v, Gray);
    assert m1.busy - {x} == m.busy - {x} + {v};
  }

  lemma RecoloredPaint(h0: Heap, h: Heap, x: Id, c: Color)
    requires Recolored(h0, h) && x in h && !c.White? && (h[x].color.White? || h0[x].color.White?)
    ensures Recolored(h0, Paint(h, x, c))
  {
  }

  lemma KeptRefs(h: Heap, x: Id, S: set<Id>)
    requires Bounded(h, S) && x in h && x in S
    ensures Keeps(h, h[x], S) && In(h[x].meta, S)
  {
  }

  lemma HeapRefs(h: Heap, x: Id)
    requires HeapOk(h) && x in h
    ensures Shape(h[x]) && Within(h[x], h.Keys)
  {
  }

  /** Facts about a white object of a bounded heap. */
  lemma MarkBegin(h: Heap, white: bool, m: Marks, x: Id, S: set<Id>)
    requires MarkOk(h, white, m) && Bounded(h, S) && x in h && h[x].color.White? && x in S
    ensures x !in m.busy && MarkOk(Paint(h, x, Gray), white, m.(busy := m.busy + {x})) && Bounded(Paint(h, x, Gray), S)
    ensures Recolored(h, Paint(h, x, Gray)) && x in Marked(Paint(h, x, Gray))
    ensures |Unmarked(Paint(h, x, Gray))| == |Unmarked(h)| - 1
  {
    assert x !in m.busy by {
      assert x !in Marked(h);
    }
    hide MarkOk, Bounded, Marked, Unmarked, Cleaned, Recolored;
    StepWhite(h, white, m, x, Gray);
    BoundedPaint(h, x, Gray, S);
    PaintFacts(h, x, Gray);
  }

  /** A string or userdata turns black; `g` is a state between. */
  lemma MarkEnd(h0: Heap, h: Heap, white: bool, m: Marks, x: Id, c: Color, S: set<Id>)
    requires Bounded(h, S) && Recolored(h0, h) && x in h && h[x].color.Gray? && x in S && !c.White? && x in h0
      && h0[x].color.White?
    ensures Bounded(Paint(h, x, c), S) && Recolored(h0, Paint(h, x, c)) && Unmarked(Paint(h, x, c)) == Unmarked(h)
    ensures Marked(Paint(h, x, c)) == Marked(h)
  {
    assert x in Marked(h);
    hide Bounded, Marked, Unmarked, Cleaned, Recolored;
    BoundedPaint(h, x, c, S);
    PaintFacts(h, x, c);
    RecoloredPaint(h0, h, x, c);
    assert Marked(h) + {x} == Marked(h);
  }

  lemma RecoloredKeys(h0: Heap, h: Heap, x: Id)
    requires Recolored(h0, h) && x in h
    ensures x in h0 && h[x].kind == h0[x].kind && h[x].meta == h0[x].meta && h[x].slots == h0[x].slots
      && h[x].node == h0[x].node
    ensures !h0[x].color.White? ==> h[x] == h0[x]
    ensures Marked(h0) <= Marked(h)
  {
  }

  lemma WhiteMarked(h: Heap, v: Val)
    ensures In(v, h.Keys) && !IsWhite(h, v) ==> In(v, Marked(h))
    ensures v.Ref? && v.id in h && h[v.id].color.White? ==> v.id !in Marked(h)
  {
  }

  /** A string or a userdata whose metatable is marked: either nothing is left to mark,
      or the user value. */
  lemma LeafDone(h: Heap, white: bool, m: Marks, x: Id, S: set<Id>)
    requires MarkOk(h, white, m) && Bounded(h, S) && x in m.busy && x in S && x in h
      && (h[x].kind.STRING? || h[x].kind.USERDATA?)
    requires h[x].kind.USERDATA? ==> In(h[x].meta, Marked(h))
    ensures h[x].kind.USERDATA? ==> |h[x].slots| == 1
    ensures
      if h[x].kind.USERDATA? && IsWhite(h, h[x].slots[0]) then
        var v := h[x].slots[0].id;
        && v != x && v in S && v in Paint(h, x, Black) && h[v].color.White? && Paint(h, x, Black)[v] == h[v]
        && v !in m.busy
        && MarkOk(Paint(Paint(h, x, Black), v, Gray), white, m.(busy := m.busy - {x} + {v}))
      else
        MarkOk(Paint(h, x, Black), white, m.(busy := m.busy - {x}))
  {
    HeapRefs(h, x);
    KeptRefs(h, x, S);
    if h[x].kind.USERDATA? {
      WhiteMarked(h, h[x].slots[0]);
      if IsWhite(h, h[x].slots[0]) {
        var v := h[x].slots[0].id;
        assert v !in m.busy;
        assert h[x].slots == [Ref(v)];
        hide MarkOk, Marked;
        StepUserValue(h, white, m, x, v);
        return;
      }
    }
    hide MarkOk, Marked;
    StepBlack(h, white, m, x);
  }

  /** The marking goes on with the white user value `v` of the black userdata `x`. */
  lemma MarkNext(h0: Heap, h: Heap, v: Id, S: set<Id>)
    requires Bounded(h, S) && Recolored(h0, h) && v in S && v in h && h[v].color.White?
    ensures Bounded(Paint(h, v, Gray), S) && Recolored(h0, Paint(h, v, Gray)) && v in h0 && h0[v].color.White?
    ensures Marked(Paint(h, v, Gray)) == Marked(h) + {v} && |Unmarked(Paint(h, v, Gray))| == |Unmarked(h)| - 1
  {
    BoundedPaint(h, v, Gray, S);
    PaintFacts(h, v, Gray);
    RecoloredPaint(h0, h, v, Gray);
  }

  /** The marking of a string or userdata ends, or goes on with the user value. */
  lemma LeafStep(h0: Heap, h: Heap, white: bool, m: Marks, x: Id, S: set<Id>)
    requires MarkOk(h, white, m) && Bounded(h, S) && Recolored(h0, h) && x in m.busy && x in S && x in h
      && h[x].color.Gray?
    requires x in h0 && h0[x].color.White? && (h[x].kind.STRING? || (h[x].kind.USERDATA? && In(h[x].meta, Marked(h))))
    ensures h[x].kind.USERDATA? ==> |h[x].slots| == 1
    ensures
      var h1 := Paint(h, x, Black);
      && Marked(h1) == Marked(h) && Unmarked(h1) == Unmarked(h)
      && if h[x].kind.USERDATA? && IsWhite(h1, h[x].slots[0]) then
           var v := h[x].slots[0].id;
           var h2 := Paint(h1, v, Gray);
           && v in S && v !in m.busy && v in h0 && h0[v].color.White? && h1[v].color.White?
           && MarkOk(h2, white, m.(busy := m.busy - {x} + {v})) && Bounded(h2, S) && Recolored(h0, h2)
           && Marked(h2) == Marked(h) + {v} && |Unmarked(h2)| == |Unmarked(h)| - 1
         else MarkOk(h1, white, m.(busy := m.busy - {x})) && Bounded(h1, S) && Recolored(h0, h1)
  {
    hide MarkOk, Bounded, Recolored, Marked, Unmarked;
    LeafDone(h, white, m, x, S);
    MarkEnd(h0, h, white, m, x, Black, S);
    if h[x].kind.USERDATA? && IsWhite(h, h[x].slots[0]) {
      MarkNext(h0, Paint(h, x, Black), h[x].slots[0].id, S);
    }
  }

  lemma MetaRefs(h: Heap, white: bool, m: Marks, x: Id, S: set<Id>)
    requires MarkOk(h, white, m) && Bounded(h, S) && x in h && x in S
    ensures In(h[x].meta, S) && In(h[x].meta, h.Keys)
  {
    HeapRefs(h, x);
    KeptRefs(h, x, S);
  }

  lemma MarkedNotWhite(h: Heap, x: Id)
    requires x in Marked(h)
    ensures x in h && !h[x].color.White?
  {
  }

  lemma RecoloredKept(h0: Heap, h1: Heap, h2: Heap, x: Id)
    requires Recolored(h0, h1) && Recolored(h1, h2) && x in h1 && h1[x].color.Gray?
    ensures Recolored(h0, h2) && Marked(h1) <= Marked(h2) && x in h2 && h2[x] == h1[x]
  {
  }

  // ---------- traversing an object ----------

  /** The traversal of `x` changes at most the entries of `x`, besides colors. */
  predicate SameHead(o: Obj, o': Obj) {
    o' == o.(node := o'.node) && |o'.node| == |o.node|
  }

  /** The table `o` with the key of an empty entry removed. */
  function WithoutKey(o: Obj, i: nat): Obj
    requires i < |o.node|
  {
    o.(node := o.node[i := Entry(DeadKey, Nil)])
  }

  lemma StepRemoveKey(h: Heap, white: bool, m: Marks, x: Id, i: nat, S: set<Id>)
    requires MarkOk(h, white, m) && Bounded(h, S) && x in m.busy && x in h && i < |h[x].node| && h[x].node[i].val == Nil
    ensures
      var h' := h[x := WithoutKey(h[x], i)];
      && MarkOk(h', white, m) && Bounded(h', S) && Advanced(h, h')
      && Unmarked(h') == Unmarked(h) && Marked(h') == Marked(h)
  {
    var o := WithoutKey(h[x], i);
    var h' := h[x := o];
    assert x in Marked(h) && !o.color.White?;
    assert Cleaned(h[x], o, h.Keys);
    MarkOne(h, x, o);
    assert Marked(h) + {x} == Marked(h) && Unmarked(h) - {x} == Unmarked(h);
    hide MarkOk, Cleaned, Marked, Unmarked, Closed;
    StepBusy(h, white, m, x, o, h.Keys);
    CleanedClosed(h, h', h.Keys, S);
  }

  lemma NodeRefs(h: Heap, white: bool, m: Marks, x: Id, i: nat, S: set<Id>)
    requires MarkOk(h, white, m) && Bounded(h, S) && x in h && x in S && i < |h[x].node|
    ensures EntryIn(h[x].node[i], h.Keys) && EntryShape(h[x].node[i])
    ensures h[x].kind == TABLE(Strong) && h[x].node[i].val != Nil ==> EntryIn(h[x].node[i], S)
    ensures h[x].kind == TABLE(WeakValues) && h[x].node[i].val != Nil ==>
      In(h[x].node[i].key, S) && (IsString(h, h[x].node[i].val) ==> In(h[x].node[i].val, S))
    ensures
      h[x].kind == TABLE(Ephemeron) && h[x].node[i].val != Nil &&
      (In(h[x].node[i].key, S) || IsString(h, h[x].node[i].key)) ==>
      EntryIn(h[x].node[i], S)
  {
    HeapRefs(h, x);
    KeptRefs(h, x, S);
    assert h[x].node[i] in h[x].node;
  }

  lemma SlotRefs(h: Heap, white: bool, m: Marks, x: Id, S: set<Id>)
    requires MarkOk(h, white, m) && Bounded(h, S) && x in h && x in S
    ensures SlotsIn(h[x].slots, h.Keys) && (h[x].kind != TABLE(WeakValues) ==> SlotsIn(h[x].slots, S))
  {
    HeapRefs(h, x);
    KeptRefs(h, x, S);
  }

  lemma SlotsMore(slots: seq<Val>, S: set<Id>, T: set<Id>)
    requires SlotsIn(slots, S) && S <= T
    ensures SlotsIn(slots, T)
  {
  }

  lemma SlotsNext(slots: seq<Val>, i: nat, S: set<Id>)
    requires i < |slots| && SlotsIn(slots[..i], S) && In(slots[i], S)
    ensures SlotsIn(slots[..i + 1], S)
  {
    assert slots[..i + 1] == slots[..i] + [slots[i]];
  }

  lemma AdvancedKept(h0: Heap, h1: Heap, h2: Heap, x: Id)
    requires Advanced(h0, h1) && Recolored(h1, h2) && x in h1 && !h1[x].color.White?
    ensures Advanced(h0, h2) && Marked(h1) <= Marked(h2) && x in h2 && h2[x] == h1[x]
  {
    RecoloredAdvanced(h1, h2);
    AdvancedTrans(h0, h1, h2);
  }

  lemma AdvancedSame(h: Heap)
    ensures Advanced(h, h) && Recolored(h, h)
  {
  }

  lemma AdvancedKeys(h: Heap, h': Heap, x: Id)
    requires Advanced(h, h') && x in h
    ensures h'.Keys == h.Keys && x in h' && h'[x].kind == h[x].kind && (!h[x].color.White? ==> !h'[x].color.White?)
    ensures Marked(h) <= Marked(h')
  {
    assert Cleaned(h[x], h'[x], h.Keys);
    assert x in Marked(h) ==> x in Marked(h');
  }

  lemma WithinMake(o: Obj, S: set<Id>)
    requires In(o.meta, S) && SlotsIn(o.slots, S) && forall i :: 0 <= i < |o.node| ==> EntryIn(o.node[i], S)
    ensures Within(o, S)
  {
  }

  lemma PaintSame(h: Heap, x: Id)
    requires x in h
    ensures Paint(h, x, h[x].color) == h
  {
  }

  lemma KeyRef(h: Heap, white: bool, m: Marks, x: Id, i: nat)
    requires MarkOk(h, white, m) && x in h && i < |h[x].node|
    ensures EntryIn(h[x].node[i], h.Keys)
  {
    HeapRefs(h, x);
  }

  /** The entries before `i` have been scanned, the others are as they were. */
  predicate Scanned(o0: Obj, o: Obj, i: int) {
    SameHead(o0, o) && forall j :: i <= j < |o.node| && 0 <= j ==> o.node[j] == o0.node[j]
  }

  predicate NodeDone(node: seq<Entry>, i: int, S: set<Id>) {
    forall j :: 0 <= j < i && j < |node| ==> EntryIn(node[j], S)
  }

  predicate KeysDone(node: seq<Entry>, i: int, S: set<Id>) {
    forall j :: 0 <= j < i && j < |node| ==> In(node[j].key, S)
  }

  predicate ValsDone(node: seq<Entry>, i: int, S: set<Id>) {
    forall j :: 0 <= j < i && j < |node| ==> In(node[j].val, S)
  }

  lemma NodeMore(node: seq<Entry>, i: int, S: set<Id>, T: set<Id>)
    requires S <= T
    ensures NodeDone(node, i, S) ==> NodeDone(node, i, T)
    ensures KeysDone(node, i, S) ==> KeysDone(node, i, T)
    ensures ValsDone(node, i, S) ==> ValsDone(node, i, T)
  {
  }

  /** One more entry: emptied, or with both parts in `S`. */
  lemma ScannedNext(o0: Obj, o: Obj, o': Obj, i: nat, S: set<Id>)
    requires Scanned(o0, o, i) && i < |o.node| && (o' == o || o' == WithoutKey(o, i))
    ensures Scanned(o0, o', i + 1)
    ensures NodeDone(o.node, i, S) && EntryIn(o'.node[i], S) ==> NodeDone(o'.node, i + 1, S)
    ensures KeysDone(o.node, i, S) && In(o'.node[i].key, S) ==> KeysDone(o'.node, i + 1, S)
    ensures ValsDone(o.node, i, S) && In(o'.node[i].val, S) ==> ValsDone(o'.node, i + 1, S)
  {
  }

  // ---------- weak tables ----------

  predicate Clearable(h: Heap, v: Val) {
    IsWhite(h, v) && !IsString(h, v)
  }

  /** Nothing but strings was marked. */
  ghost predicate OnlyStrings(h: Heap, h': Heap) {
    h'.Keys == h.Keys && forall x :: x in h && h[x].color.White? && !h'[x].color.White? ==> h[x].kind.STRING?
  }

  /** A weak-valued table at the end of its traversal. */
  lemma VisitedWeakValues(h: Heap, m: Marks, x: Id, hasclears: bool)
    requires x in h && h[x].kind == TABLE(WeakValues) && In(h[x].meta, Marked(h))
      && KeysDone(h[x].node, |h[x].node|, Marked(h))
    requires hasclears ==> x in m.weak
    requires !hasclears ==> h[x].slots == [] && ValsDone(h[x].node, |h[x].node|, Marked(h))
    ensures Visited(h, x, m)
  {
  }

  /** The first `i` entries of an ephemeron table after their traversal. */
  ghost predicate EphemeronDone(h: Heap, node: seq<Entry>, i: int, hasclears: bool, hasww: bool) {
    && (forall j :: 0 <= j < i && j < |node| && (node[j].val == Nil || IsString(h, node[j].key)) ==>
        In(node[j].key, Marked(h)))
    && (!hasclears ==> KeysDone(node, i, Marked(h)))
    && (!hasww ==> ValsDone(node, i, Marked(h)))
  }

  ghost predicate NodeConverged(h: Heap, node: seq<Entry>, i: int) {
    forall j :: 0 <= j < i && j < |node| && node[j].val != Nil ==>
      Clearable(h, node[j].key) || In(node[j].val, Marked(h))
  }

  lemma StringsKept(h: Heap, h': Heap)
    requires Advanced(h, h')
    ensures forall v: Val :: IsString(h', v) == IsString(h, v)
  {
    forall v: Val ensures IsString(h', v) == IsString(h, v) {
      if v.Ref? && v.id in h {
        assert Cleaned(h[v.id], h'[v.id], h.Keys);
      }
    }
  }

  lemma EphemeronMore(h: Heap, h': Heap, node: seq<Entry>, i: int, hasclears: bool, hasww: bool)
    requires EphemeronDone(h, node, i, hasclears, hasww) && Advanced(h, h')
    ensures EphemeronDone(h', node, i, hasclears, hasww)
  {
    StringsKept(h, h');
    NodeMore(node, i, Marked(h), Marked(h'));
    hide IsString, Marked, Cleaned, KeysDone, ValsDone;
  }

  lemma ConvergedMore(h: Heap, h': Heap, node: seq<Entry>, i: int)
    requires NodeConverged(h, node, i) && OnlyStrings(h, h') && Marked(h) <= Marked(h')
    requires forall v: Val :: IsString(h', v) == IsString(h, v)
    ensures NodeConverged(h', node, i)
  {
    forall j | 0 <= j < i && j < |node| && node[j].val != Nil
      ensures Clearable(h', node[j].key) || In(node[j].val, Marked(h'))
    {
      assert Clearable(h, node[j].key) || In(node[j].val, Marked(h));
    }
  }

  lemma EphemeronNext(h: Heap, node: seq<Entry>, node': seq<Entry>, i: nat, hasclears: bool, hasww: bool)
    requires EphemeronDone(h, node, i, hasclears, hasww) && i < |node|
      && (node' == node || node' == node[i := Entry(DeadKey, Nil)])
    requires node'[i].val == Nil || IsString(h, node'[i].key) ==> In(node'[i].key, Marked(h))
    requires !hasclears ==> In(node'[i].key, Marked(h))
    requires !hasww ==> In(node'[i].val, Marked(h))
    ensures EphemeronDone(h, node', i + 1, hasclears, hasww)
  {
    hide IsString, Marked;
  }

  lemma ConvergedNext(h: Heap, node: seq<Entry>, node': seq<Entry>, i: nat)
    requires NodeConverged(h, node, i) && i < |node| && (node' == node || node' == node[i := Entry(DeadKey, Nil)])
    requires node'[i].val == Nil || Clearable(h, node'[i].key) || In(node'[i].val, Marked(h))
    ensures NodeConverged(h, node', i + 1)
  {
    hide Clearable, Marked;
  }

  // ---------- the lists of weak tables before the atomic phase ----------

  /** `t` is `s` with more elements in front. */
  ghost predicate Grown(s: seq<Id>, t: seq<Id>) {
    |s| <= |t| && t[|t| - |s|..] == s
  }

  lemma GrownMore(s: seq<Id>, t: seq<Id>, u: seq<Id>, x: Id)
    requires Grown(s, t) && (u == t || u == [x] + t)
    ensures Grown(s, u)
  {
  }

  /** Objects that are never black were put in front of `s`. */
  ghost predicate NoneBlack(h: Heap, s: seq<Id>, t: seq<Id>) {
    forall x :: x in t ==> x in s || (x in h && NeverBlack(h[x].kind))
  }

  /** Threads with marked stacks were put in front of `s`. */
  ghost predicate StacksMarked(h: Heap, s: seq<Id>, t: seq<Id>) {
    forall x :: x in t ==> x in s || (x in h && h[x].kind.THREAD? && SlotsIn(h[x].slots, Marked(h)))
  }

  lemma GrownSame(h: Heap, s: seq<Id>)
    ensures Grown(s, s) && NoneBlack(h, s, s) && StacksMarked(h, s, s)
  {
  }

  lemma NoneBlackMore(h: Heap, h': Heap, s: seq<Id>, t: seq<Id>, t': seq<Id>, x: Id)
    requires NoneBlack(h, s, t) && Advanced(h, h') && x in h
    requires t' == t || (t' == [x] + t && NeverBlack(h[x].kind))
    ensures NoneBlack(h', s, t')
  {
    forall y | y in t' && y !in s ensures y in h' && NeverBlack(h'[y].kind) {
      assert y in t || y == x;
      assert Cleaned(h[y], h'[y], h.Keys);
    }
  }

  lemma StacksMore(h: Heap, h': Heap, s: seq<Id>, t: seq<Id>, t': seq<Id>, x: Id)
    requires StacksMarked(h, s, t) && Advanced(h, h')
    requires t' == t || (t' == [x] + t && x in h' && h'[x].kind.THREAD? && SlotsIn(h'[x].slots, Marked(h')))
    ensures StacksMarked(h', s, t')
  {
    forall y | y in t' && y !in s ensures y in h' && h'[y].kind.THREAD? && SlotsIn(h'[y].slots, Marked(h')) {
      assert y in t || y == x;
      if y in t {
        assert Cleaned(h[y], h'[y], h.Keys) && h'[y].slots == h[y].slots;
        SlotsMore(h[y].slots, Marked(h), Marked(h'));
      }
    }
  }

  /** Whether the traversal of a weak table outside the propagation phase leaves it off the
      lists: it has no array part and no value to clear, or no entry from a white key to a
      white value. */
  ghost predicate Quiet(h: Heap, x: Id)
    requires x in h
  {
    var o := h[x];
    match o.kind
    case TABLE(WeakValues) =>
      o.slots == [] && forall i :: 0 <= i < |o.node| && o.node[i].val != Nil ==> !Clearable(h, o.node[i].val)
    case TABLE(Ephemeron) =>
      forall i :: 0 <= i < |o.node| && IsWhite(h, o.node[i].val) ==> !Clearable(h, o.node[i].key)
    case _ => true
  }

  lemma StillWhite(h: Heap, h': Heap, v: Val)
    requires Advanced(h, h')
    ensures IsWhite(h', v) ==> IsWhite(h, v)
    ensures Clearable(h', v) ==> Clearable(h, v)
  {
    WhiteKept(h, h', v);
    StringsKept(h, h');
  }

  lemma QuietMore(h: Heap, h': Heap, x: Id)
    requires Advanced(h, h') && x in h && Quiet(h, x)
    ensures Quiet(h', x)
  {
    var o, o' := h[x], h'[x];
    assert Cleaned(o, o', h.Keys);
    forall i | 0 <= i < |o'.node| && o'.node[i].val != Nil
      ensures o.node[i] == o'.node[i]
      ensures IsWhite(h', o.node[i].val) ==> IsWhite(h, o.node[i].val)
      ensures Clearable(h', o.node[i].val) ==> Clearable(h, o.node[i].val)
      ensures Clearable(h', o.node[i].key) ==> Clearable(h, o.node[i].key)
    {
      assert EntryCleaned(o.kind, o.node[i], o'.node[i], h.Keys);
      StillWhite(h, h', o.node[i].val);
      StillWhite(h, h', o.node[i].key);
    }
  }

  /** All weak tables in `S` that do not wait for the atomic phase are quiet. */
  ghost predicate Calm(h: Heap, S: set<Id>, again: seq<Id>) {
    forall x :: x in S && x in h && x !in again ==> Quiet(h, x)
  }

  lemma CalmNext(h0: Heap, h: Heap, white: bool, m: Marks, S: set<Id>, again: seq<Id>)
    requires Calm(h0, S, again) && Advanced(h0, h) && Grown(again, m.rest)
    requires MarkOk(h, white, m) && Bounded(h, S) && m.gray != []
    ensures m.gray[0] in h && Quiet(h, m.gray[0])
  {
    var x := m.gray[0];
    assert x in m.gray && x !in m.rest && x in Marked(h);
    GrownIn(again, m.rest, x);
    QuietMore(h0, h, x);
  }

  lemma GrownIn(s: seq<Id>, t: seq<Id>, x: Id)
    requires Grown(s, t)
    ensures x in s ==> x in t
  {
    if x in s {
      GrownAt(s, t, x);
    }
  }

  lemma GrownAt(s: seq<Id>, t: seq<Id>, x: Id)
    requires Grown(s, t) && x in s
    ensures x in t
  {
    var i :| 0 <= i < |s| && s[i] == x;
    assert t[|t| - |s|..][i] == t[|t| - |s| + i];
  }

  lemma QuietKept(h: Heap, h': Heap, x: Id)
    requires Advanced(h, h') && x in h && x in h'
    ensures Quiet(h, x) ==> Quiet(h', x)
  {
    if Quiet(h, x) {
      QuietMore(h, h', x);
    }
  }

  lemma QuietSlots(h: Heap, x: Id)
    requires x in h && h[x].kind == TABLE(WeakValues)
    ensures Quiet(h, x) ==> h[x].slots == []
  {
  }

  lemma AdvancedMarked(h: Heap, h': Heap)
    requires Advanced(h, h')
    ensures Marked(h) <= Marked(h')
  {
  }

  /** A value of a quiet table is not cleared later. */
  lemma QuietValue(h: Heap, h': Heap, x: Id, i: nat)
    requires Advanced(h, h') && x in h && h[x].kind == TABLE(WeakValues) && i < |h[x].node| && h[x].node[i].val != Nil
    ensures Quiet(h, x) ==> !Clearable(h', h[x].node[i].val)
  {
    StillWhite(h, h', h[x].node[i].val);
  }

  lemma QuietPair(h: Heap, h': Heap, x: Id, i: nat)
    requires Advanced(h, h') && x in h && h[x].kind == TABLE(Ephemeron) && i < |h[x].node|
    ensures Quiet(h, x) && IsWhite(h', h[x].node[i].val) ==> !Clearable(h', h[x].node[i].key)
  {
    StillWhite(h, h', h[x].node[i].val);
    StillWhite(h, h', h[x].node[i].key);
  }

  /** A reference that is followed whatever else is marked. */
  predicate Holds(o: Obj, y: Id) {
    o.meta == Ref(y) ||
    match o.kind
    case TABLE(WeakValues) => exists i :: 0 <= i < |o.node| && o.node[i].val != Nil && o.node[i].key == Ref(y)
    case TABLE(Ephemeron) => Ref(y) in o.slots
    case _ => Ref(y) in o.slots || exists i ::
      0 <= i < |o.node| && o.node[i].val != Nil && (o.node[i].key == Ref(y) || o.node[i].val == Ref(y))
  }

  /** `p` leads from the gray list along white objects. */
  ghost predicate Leads(h: Heap, gray: seq<Id>, p: seq<Id>)
    decreases |p|
  {
    |p| > 0 &&
    var y, before := p[|p| - 1], p[..|p| - 1];
    if |p| == 1 then y in gray
    else Leads(h, gray, before) && before[|p| - 2] in h && y in h && h[y].color.White? && Holds(h[before[|p| - 2]], y)
  }

  /** The gray list leads to `x`. */
  ghost predicate Led(h: Heap, gray: seq<Id>, x: Id) {
    exists p :: Leads(h, gray, p) && p[|p| - 1] == x
  }

  /** A weak table without array part, all of whose values are in `S`. */
  ghost predicate Settled(h: Heap, x: Id, S: set<Id>)
    requires x in h
  {
    match h[x].kind
    case TABLE(WeakValues) => h[x].slots == [] && forall i :: 0 <= i < |h[x].node| ==> In(h[x].node[i].val, S)
    case TABLE(Ephemeron) => forall i :: 0 <= i < |h[x].node| ==> In(h[x].node[i].val, S)
    case _ => true
  }

  /** The propagation from heap `h0` with the lists `m0` has ended with heap `h`. */
  ghost predicate Ended(h0: Heap, white: bool, m0: Marks, h: Heap, m: Marks) {
    && MarkOk(h0, white, m0) && !m0.atomic && m0.busy == {} && MarkOk(h, white, m) && m.atomic && m.busy == {}
    && Advanced(h0, h)
    && m.gray == [] && StacksMarked(h, m0.rest, m.rest)
  }

  lemma EndedApart(h0: Heap, white: bool, m0: Marks, h: Heap, m: Marks, x: Id)
    requires Ended(h0, white, m0, h, m)
    ensures x in m0.gray ==> x in Marked(h) && x !in m0.rest
    ensures x in h0 && h0[x].color.White? ==> x !in m0.rest
  {
    assert x in m0.gray ==> x in Marked(h0);
  }

  /** A marked object that did not wait for the atomic phase was traversed. */
  lemma EndedObject(h0: Heap, white: bool, m0: Marks, h: Heap, m: Marks, x: Id)
    requires Ended(h0, white, m0, h, m) && x in Marked(h) && x !in m0.rest
    ensures x in h && x in h0 && Cleaned(h0[x], h[x], h0.Keys) && Shape(h[x]) && Within(h0[x], h0.Keys)
    ensures Visited(h, x, m) || (!NeverBlack(h[x].kind) && Within(h[x], Marked(h)))
  {
    assert ObjOk(h, x, m);
    if x in m.rest {
      SlotsOnly(h, x, Marked(h));
    }
  }

  /** The references that are followed are to marked objects. */
  lemma EndedRefs(h0: Heap, white: bool, m0: Marks, h: Heap, m: Marks, x: Id)
    requires Ended(h0, white, m0, h, m) && x in Marked(h) && x !in m0.rest
    ensures x in h
    ensures In(h[x].meta, Marked(h)) && (h[x].kind != TABLE(WeakValues) ==> SlotsIn(h[x].slots, Marked(h)))
    ensures h[x].kind == TABLE(WeakValues) ==> forall i :: 0 <= i < |h[x].node| ==> In(h[x].node[i].key, Marked(h))
    ensures h[x].kind != TABLE(WeakValues) && h[x].kind != TABLE(Ephemeron) ==> NodeIn(h[x].node, Marked(h))
  {
    hide Ended, Marked, Cleaned;
    EndedObject(h0, white, m0, h, m, x);
  }

  lemma EndedHolds(h0: Heap, white: bool, m0: Marks, h: Heap, m: Marks, x: Id, y: Id)
    requires Ended(h0, white, m0, h, m) && x in Marked(h) && x !in m0.rest && x in h0 && Holds(h0[x], y)
    ensures y in Marked(h)
  {
    hide Ended, Marked, Visited;
    EndedObject(h0, white, m0, h, m, x);
    EndedRefs(h0, white, m0, h, m, x);
    var o, o' := h0[x], h[x];
    if Ref(y) in o.slots && o.kind != TABLE(WeakValues) {
      var i :| 0 <= i < |o.slots| && o.slots[i] == Ref(y);
      assert o'.slots[i] == Ref(y);
    }
    forall i | 0 <= i < |o.node| && o.node[i].val != Nil
      && (o.node[i].key == Ref(y) || (o.kind == TABLE(Strong) && o.node[i].val == Ref(y)))
      ensures o.kind.TABLE? && o.kind.mode != Ephemeron ==> y in Marked(h)
    {
      assert EntryCleaned(o.kind, o.node[i], o'.node[i], h0.Keys);
    }
  }

  lemma EndedSettled(h0: Heap, white: bool, m0: Marks, h: Heap, m: Marks, x: Id)
    requires Ended(h0, white, m0, h, m) && x in Marked(h) && x !in m0.rest
    ensures x in h0 && (h0[x].kind == TABLE(WeakValues) && m.weak == [] ==> Settled(h0, x, Marked(h)))
    ensures h0[x].kind == TABLE(Ephemeron) && m.ephemeron == [] ==> Settled(h0, x, Marked(h))
  {
    hide Ended, Marked;
    EndedObject(h0, white, m0, h, m, x);
  }

  lemma {:induction false} LedMarked(h0: Heap, white: bool, m0: Marks, h: Heap, m: Marks, p: seq<Id>)
    requires Ended(h0, white, m0, h, m) && Leads(h0, m0.gray, p)
    ensures p[|p| - 1] in Marked(h) && p[|p| - 1] !in m0.rest
    decreases |p|
  {
    hide Ended, Marked, Holds;
    var x := p[|p| - 1];
    EndedApart(h0, white, m0, h, m, x);
    if |p| > 1 {
      LedMarked(h0, white, m0, h, m, p[..|p| - 1]);
      EndedHolds(h0, white, m0, h, m, p[|p| - 2], x);
    }
  }

  /** All weak tables of a mode that the gray list leads to are settled. */
  ghost predicate AllSettled(h: Heap, gray: seq<Id>, mode: Mode, S: set<Id>) {
    forall x :: Led(h, gray, x) && x in h && h[x].kind == TABLE(mode) ==> Settled(h, x, S)
  }

  /** Where no table waits with values to clear, the weak tables that the gray list leads to
      are settled. */
  lemma LedSettled(h0: Heap, white: bool, m0: Marks, h: Heap, m: Marks, S: set<Id>)
    requires Ended(h0, white, m0, h, m) && Marked(h) <= S
    ensures m.weak == [] ==> AllSettled(h0, m0.gray, WeakValues, S)
    ensures m.ephemeron == [] ==> AllSettled(h0, m0.gray, Ephemeron, S)
  {
    hide Ended, Marked;
    forall x | Led(h0, m0.gray, x) && x in h0
      ensures h0[x].kind == TABLE(WeakValues) && m.weak == [] ==> Settled(h0, x, S)
      ensures h0[x].kind == TABLE(Ephemeron) && m.ephemeron == [] ==> Settled(h0, x, S)
    {
      var p :| Leads(h0, m0.gray, p) && p[|p| - 1] == x;
      LedMarked(h0, white, m0, h, m, p);
      EndedSettled(h0, white, m0, h, m, x);
    }
  }

  /** The gray list leads to each table of `S` that is not quiet, and none of them is settled:
      what only weak tables lead to is not in `S`. */
  ghost predicate Separate(h: Heap, S: set<Id>, gray: seq<Id>, again: seq<Id>) {
    forall x :: x in S && x in h && x !in again && !Quiet(h, x) ==> Led(h, gray, x) && !Settled(h, x, S)
  }

  lemma SeparateCalm(h: Heap, S: set<Id>, gray: seq<Id>, again: seq<Id>)
    requires AllSettled(h, gray, WeakValues, S) && AllSettled(h, gray, Ephemeron, S)
    ensures Separate(h, S, gray, again) ==> Calm(h, S, again)
  {
    hide Led;
  }

  lemma BoundedMarked(h: Heap, S: set<Id>)
    requires Bounded(h, S)
    ensures Marked(h) <= S
  {
  }

  lemma NoneBlackTrans(h: Heap, h': Heap, s: seq<Id>, t: seq<Id>)
    requires NoneBlack(h, [], s) && NoneBlack(h', s, t) && Advanced(h, h')
    ensures NoneBlack(h', [], t)
  {
    forall x | x in t ensures x in h' && NeverBlack(h'[x].kind) {
      if x in s {
        assert Cleaned(h[x], h'[x], h.Keys);
      }
    }
  }

  lemma AdvancedObject(h: Heap, h': Heap, x: Id)
    requires Advanced(h, h') && x in h
    ensures h'.Keys == h.Keys && h'[x].kind == h[x].kind && |h'[x].slots| == |h[x].slots|
      && (x in Marked(h) ==> x in Marked(h'))
  {
    assert Cleaned(h[x], h'[x], h.Keys);
  }

  lemma GlobalMarked(globals: seq<Val>, x: Id, h: Heap)
    requires SlotsIn(globals, Marked(h))
    ensures Ref(x) in globals ==> x in Marked(h)
  {
  }

  /** An ephemeron table at the end of its traversal. */
  lemma VisitedEphemeron(h: Heap, m: Marks, x: Id, hasclears: bool, hasww: bool)
    requires x in h && h[x].kind == TABLE(Ephemeron) && In(h[x].meta, Marked(h)) && SlotsIn(h[x].slots, Marked(h))
    requires EphemeronDone(h, h[x].node, |h[x].node|, hasclears, hasww)
    requires (hasww ==> x in m.ephemeron) && (hasclears ==> x in m.ephemeron || x in m.allweak)
    ensures Visited(h, x, m)
  {
  }

  lemma StringsTrans(h0: Heap, h1: Heap, h2: Heap)
    requires OnlyStrings(h0, h1) && OnlyStrings(h1, h2) && Advanced(h0, h1) && Advanced(h1, h2)
    ensures OnlyStrings(h0, h2)
  {
    forall x | x in h0 && h0[x].color.White? && !h2[x].color.White? ensures h0[x].kind.STRING? {
      assert Cleaned(h0[x], h1[x], h0.Keys);
    }
  }

  lemma OnlyStringsSame(h: Heap, h': Heap)
    requires Advanced(h, h') && Marked(h') == Marked(h)
    ensures OnlyStrings(h, h')
  {
    forall x | x in h && !h'[x].color.White? ensures !h[x].color.White? {
      assert x in Marked(h');
    }
  }

  lemma InBound(v: Val, h: Heap, S: set<Id>)
    requires Bounded(h, S) && In(v, Marked(h))
    ensures In(v, S)
  {
  }

  lemma EphemeronStart(h: Heap, node: seq<Entry>)
    ensures EphemeronDone(h, node, 0, false, false) && NodeConverged(h, node, 0)
  {
  }

  lemma EphemeronFlags(h: Heap, node: seq<Entry>, i: int, hasclears: bool, hasww: bool, clears: bool, ww: bool)
    requires EphemeronDone(h, node, i, hasclears, hasww) && (hasclears ==> clears) && (hasww ==> ww)
    ensures EphemeronDone(h, node, i, clears, ww)
  {
  }

  /** The facts about the object taken from the gray list. */
  lemma PopFacts(h: Heap, white: bool, m: Marks, c: Color, S: set<Id>)
    requires MarkOk(h, white, m) && Bounded(h, S) && m.gray != [] && !c.White?
    ensures m.gray[0] in h && h[m.gray[0]].color.Gray? && Listed(h[m.gray[0]].kind) && m.gray[0] in S
      && m.gray[0] !in m.busy
    ensures MarkOk(Paint(h, m.gray[0], c), white, Pop(m)) && Bounded(Paint(h, m.gray[0], c), S)
      && Advanced(h, Paint(h, m.gray[0], c))
    ensures Unmarked(Paint(h, m.gray[0], c)) == Unmarked(h) && Marked(Paint(h, m.gray[0], c)) == Marked(h)
  {
    StepPop(h, white, m, c);
    var x := m.gray[0];
    assert x in Marked(h);
    AdvancedPaint(h, x, c);
    hide MarkOk, Bounded, Advanced, Marked, Unmarked;
    InMarked(h, x, S);
    BoundedPaint(h, x, c, S);
  }

  lemma InMarked(h: Heap, x: Id, S: set<Id>)
    requires Bounded(h, S) && x in Marked(h)
    ensures x in S
  {
  }

  lemma AdvancedPaint(h: Heap, x: Id, c: Color)
    requires x in h && !h[x].color.White? && !c.White?
    ensures Advanced(h, Paint(h, x, c)) && Unmarked(Paint(h, x, c)) == Unmarked(h)
      && Marked(Paint(h, x, c)) == Marked(h)
  {
    PaintFacts(h, x, c);
    var h' := Paint(h, x, c);
    forall y | y in h ensures Cleaned(h[y], h'[y], h.Keys) {
      CleanedSame(h[y], h.Keys);
    }
    assert Marked(h) + {x} == Marked(h);
  }

  /** A strong table, a function: everything it refers to is marked. */
  lemma StepTraversed(h: Heap, white: bool, m: Marks, x: Id)
    requires MarkOk(h, white, m) && x in m.busy && x in h && h[x].color.Black? && !NeverBlack(h[x].kind)
      && Within(h[x], Marked(h))
    ensures MarkOk(h, white, m.(busy := m.busy - {x}))
  {
    PaintSame(h, x);
    hide MarkOk, Marked, Within;
    StepBlack(h, white, m, x);
  }

  lemma SlotsOnly(h: Heap, x: Id, S: set<Id>)
    requires HeapOk(h) && x in h && (h[x].kind.CLOSURE? || h[x].kind.THREAD?) && SlotsIn(h[x].slots, S)
    ensures Within(h[x], S)
  {
  }

  /** A thread after its final traversal. */
  lemma StepThread(h: Heap, white: bool, m: Marks, x: Id)
    requires MarkOk(h, white, m) && x in m.busy && x in h && h[x].kind.THREAD? && h[x].color.Gray?
      && SlotsIn(h[x].slots, Marked(h)) && m.atomic
    ensures MarkOk(h, white, m.(busy := m.busy - {x}))
  {
    SlotsOnly(h, x, Marked(h));
    PaintSame(h, x);
    var m' := m.(busy := m.busy - {x});
    assert Visited(h, x, m');
    assert ObjOk(h, x, m');
    hide MarkOk, Marked, Within, ObjOk, Visited;
    StepDone(h, white, m, x, Gray);
  }

  lemma PaintCleaned(h: Heap, x: Id, c: Color)
    requires x in h
    ensures Cleaned(h[x], h[x].(color := c), h.Keys)
  {
    CleanedSame(h[x], h.Keys);
  }

  lemma MarkOkHeap(h: Heap, white: bool, m: Marks)
    requires MarkOk(h, white, m)
    ensures HeapOk(h)
  {
  }

  // ---------- convergence ----------

  /** No entry with a marked key still has an unmarked value. */
  ghost predicate Converged(h: Heap, x: Id)
    requires x in h
  {
    NodeConverged(h, h[x].node, |h[x].node|)
  }

  ghost predicate AllConverged(h: Heap, s: seq<Id>) {
    forall x :: x in s ==> x in h && Converged(h, x)
  }

  ghost predicate MetasMarked(h: Heap, s: seq<Id>) {
    forall x :: x in s ==>
      x in h && In(h[x].meta, Marked(h)) && SlotsIn(h[x].slots, Marked(h)) && h[x].kind == TABLE(Ephemeron)
  }

  lemma AllConvergedMore(h: Heap, h': Heap, K: set<Id>, s: seq<Id>)
    requires AllConverged(h, s) && OnlyStrings(h, h') && HeapCleaned(h, h', K) && Marked(h) <= Marked(h')
    ensures AllConverged(h', s)
  {
    forall x | x in s ensures x in h' && Converged(h', x) {
      assert Converged(h, x);
      assert Cleaned(h[x], h'[x], K);
      CleanedStrings(h, h', K);
      ConvergedMore(h, h', h[x].node, |h[x].node|);
      forall i | 0 <= i < |h'[x].node| && h'[x].node[i].val != Nil
        ensures Clearable(h', h'[x].node[i].key) || In(h'[x].node[i].val, Marked(h'))
      {
        assert EntryCleaned(h[x].kind, h[x].node[i], h'[x].node[i], K);
      }
    }
  }

  lemma CleanedStrings(h: Heap, h': Heap, K: set<Id>)
    requires HeapCleaned(h, h', K)
    ensures forall v: Val :: IsString(h', v) == IsString(h, v)
  {
    forall v: Val ensures IsString(h', v) == IsString(h, v) {
      if v.Ref? && v.id in h {
        assert Cleaned(h[v.id], h'[v.id], K);
      }
    }
  }

  lemma MetasMore(h: Heap, h': Heap, s: seq<Id>)
    requires MetasMarked(h, s) && Advanced(h, h')
    ensures MetasMarked(h', s)
  {
    forall x | x in s
      ensures x in h' && In(h'[x].meta, Marked(h')) && SlotsIn(h'[x].slots, Marked(h'))
        && h'[x].kind == TABLE(Ephemeron)
    {
      assert Cleaned(h[x], h'[x], h.Keys);
    }
  }

  /** The list of ephemeron tables is taken away to be traversed again. */
  lemma StepTakeEphemerons(h: Heap, white: bool, m: Marks)
    requires MarkOk(h, white, m) && m.rest == [] && m.atomic && m.busy == {}
    ensures MarkOk(h, white, m.(rest := m.ephemeron, ephemeron := []))
    ensures MetasMarked(h, m.ephemeron)
  {
    var m' := m.(rest := m.ephemeron, ephemeron := []);
    hide Visited, ListOk, Marked;
    assert LinkedOk(h, m') by {
      assert ListOk(h, [], m.busy) by { EmptyListOk(h, m.busy); }
    }
    forall x | x in h ensures ObjOk(h, x, m') {
      assert ObjOk(h, x, m);
      if h[x].color.Gray? && x !in m.gray && x !in m.ephemeron {
        VisitedElse(h, x, m, m');
      }
    }
    forall x | x in m.ephemeron ensures x in h && In(h[x].meta, Marked(h)) && SlotsIn(h[x].slots, Marked(h)) {
      EphemeronMeta(h, white, m, x);
    }
  }

  lemma EmptyListOk(h: Heap, busy: set<Id>)
    ensures ListOk(h, [], busy)
  {
  }

  lemma VisitedElse(h: Heap, x: Id, m: Marks, m': Marks)
    requires x in h && Visited(h, x, m) && x !in m.ephemeron && m'.weak == m.weak && m'.allweak == m.allweak
    ensures Visited(h, x, m')
  {
  }

  lemma EphemeronMeta(h: Heap, white: bool, m: Marks, x: Id)
    requires MarkOk(h, white, m) && m.atomic && x in m.ephemeron && m.busy == {}
    ensures x in h && In(h[x].meta, Marked(h)) && SlotsIn(h[x].slots, Marked(h)) && h[x].kind == TABLE(Ephemeron)
  {
    assert Linked(m, x);
    LinkedGray(h, m, x);
    assert ObjOk(h, x, m);
  }

  /** The first table of the waiting list is taken from it. */
  lemma StepPopRest(h: Heap, white: bool, m: Marks, S: set<Id>)
    requires MarkOk(h, white, m) && Bounded(h, S) && m.rest != []
    ensures m.rest[0] in h && h[m.rest[0]].color.Gray? && m.rest[0] in S
    ensures MarkOk(h, white, m.(rest := m.rest[1..], busy := m.busy + {m.rest[0]}))
  {
    var x := m.rest[0];
    var m' := m.(rest := m.rest[1..], busy := m.busy + {x});
    ListPop(h, m.rest, m.busy);
    assert Linked(m, x);
    assert ListsKept(x, m, m');
    assert x in Marked(h);
    InMarked(h, x, S);
    CleanedSame(h[x], h.Keys);
    LinkedPopRest(h, m);
    assert h[x := h[x]] == h;
    hide LinkedOk, Cleaned, ObjOk, Marked, Unmarked, Visited, Linked, OneWhite, HeapOk, ObjsOk, ListsKept;
    Touch(h, white, m, x, h[x], m', h.Keys);
  }

  lemma LinkedPopRest(h: Heap, m: Marks)
    requires LinkedOk(h, m) && m.rest != []
    ensures LinkedOk(h, m.(rest := m.rest[1..], busy := m.busy + {m.rest[0]}))
  {
    var x := m.rest[0];
    ListPop(h, m.rest, m.busy);
    assert Apart(m.gray, m.rest[1..]) && Apart(m.rest[1..], m.weak) && Apart(m.rest[1..], m.allweak)
      && Apart(m.rest[1..], m.ephemeron);
    var k := m.(rest := m.rest[1..]);
    assert !Linked(k, x);
    hide ListOk, Apart, TablesOk, Linked;
    LinkedBusy(h, k, x, h[x], m.busy + {x});
    assert h[x := h[x]] == h;
  }

  lemma AllConvergedNone(h: Heap)
    ensures AllConverged(h, [])
  {
  }

  lemma AllConvergedAdd(h: Heap, s: seq<Id>, x: Id)
    requires AllConverged(h, s) && x in h && NodeConverged(h, h[x].node, |h[x].node|)
    ensures AllConverged(h, [x] + s)
  {
    assert forall y :: y in [x] + s ==> y == x || y in s;
  }

  lemma AdvancedUnmarked(h: Heap, h': Heap)
    requires Advanced(h, h')
    ensures |Unmarked(h')| <= |Unmarked(h)|
  {
    forall x | x in Unmarked(h') ensures x in Unmarked(h) {
      assert x !in Marked(h');
    }
    SubsetSize(Unmarked(h'), Unmarked(h));
  }

  lemma SubsetSize<T>(a: set<T>, b: set<T>)
    requires a <= b
    ensures |a| <= |b|
  {
    assert b == a + (b - a);
  }

  // ---------- clearing weak tables ----------

  ghost function Kept(h: Heap): set<Id> {
    Marked(h) + Strings(h)
  }

  /** Clearing: only strings were marked, and only weak references to unmarked objects
      that are not strings were removed. */
  ghost predicate Faded(h: Heap, h': Heap) {
    HeapCleaned(h, h', Kept(h)) && Marked(h) <= Marked(h') && OnlyStrings(h, h')
  }

  lemma FadedKept(h: Heap, h': Heap)
    requires Faded(h, h')
    ensures Kept(h') == Kept(h) && Strings(h') == Strings(h)
    ensures forall v: Val :: IsString(h', v) == IsString(h, v)
  {
    forall x | x in h ensures h'[x].kind == h[x].kind {
      assert Cleaned(h[x], h'[x], Kept(h));
    }
    assert forall x :: x in h' ==> x in h;
    forall x | x in Kept(h') ensures x in Kept(h) {
    }
  }

  lemma FadedTrans(h0: Heap, h1: Heap, h2: Heap)
    requires Faded(h0, h1) && Faded(h1, h2)
    ensures Faded(h0, h2)
  {
    FadedKept(h0, h1);
    hide Cleaned, Kept, Marked;
    forall x | x in h0 ensures Cleaned(h0[x], h2[x], Kept(h0)) {
      CleanedTrans(h0[x], h1[x], h2[x], Kept(h0));
    }
    StringsTrans2(h0, h1, h2);
  }

  lemma StringsTrans2(h0: Heap, h1: Heap, h2: Heap)
    requires Faded(h0, h1) && Faded(h1, h2)
    ensures OnlyStrings(h0, h2)
  {
    forall x | x in h0 && h0[x].color.White? && !h2[x].color.White? ensures h0[x].kind.STRING? {
      assert Cleaned(h0[x], h1[x], Kept(h0));
    }
  }

  lemma AdvancedFaded(h: Heap, h': Heap)
    requires Advanced(h, h') && OnlyStrings(h, h')
    ensures Faded(h, h')
  {
    forall x | x in h ensures Cleaned(h[x], h'[x], Kept(h)) {
      CleanedLess(h[x], h'[x], h.Keys, Kept(h));
    }
  }

  lemma LinkedSame(h: Heap, m: Marks, x: Id, o: Obj)
    requires LinkedOk(h, m) && x in h && o.kind == h[x].kind && o.color == h[x].color
    ensures LinkedOk(h[x := o], m)
  {
    hide AllApart, Distinct;
  }

  /** A table that is being cleared. */
  lemma CleanedKind(o: Obj, o': Obj, S: set<Id>)
    requires Cleaned(o, o', S)
    ensures o'.kind == o.kind
  {
  }

  lemma ClearFacts(h: Heap, m: Marks, x: Id, o: Obj)
    requires LinkedOk(h, m) && x in h && h[x].color.Gray? && o.color == Gray && o.kind == h[x].kind
    ensures LinkedOk(h[x := o], m) && Marked(h[x := o]) == Marked(h) && ListsKept(x, m, m) && OnlyStrings(h, h[x := o])
  {
    LinkedSame(h, m, x, o);
    MarkOne(h, x, o);
    assert x in Marked(h);
    assert Marked(h) + {x} == Marked(h);
  }

  lemma StepClear(h: Heap, white: bool, m: Marks, x: Id, o: Obj, S: set<Id>)
    requires MarkOk(h, white, m) && Bounded(h, S) && x in h && h[x].color.Gray? && o.color == Gray
      && Cleaned(h[x], o, Kept(h))
    requires x !in m.busy && ObjOk(h[x := o], x, m)
    ensures MarkOk(h[x := o], white, m) && Bounded(h[x := o], S) && Faded(h, h[x := o])
    ensures Marked(h[x := o]) == Marked(h)
  {
    hide LinkedOk, Cleaned, ObjOk, Marked, Unmarked, Visited, Linked, OneWhite, HeapOk, ObjsOk, ListsKept, Closed, Kept,
         HeapCleaned, OnlyStrings;
    var h' := h[x := o];
    CleanedKind(h[x], o, Kept(h));
    ClearFacts(h, m, x, o);
    Touch(h, white, m, x, o, m, Kept(h));
    CleanedClosed(h, h', Kept(h), S);
  }

  /** Values of a weak-valued table may be removed while its keys are marked. */
  lemma ClearedValue(h: Heap, x: Id, m: Marks, o: Obj)
    requires x in h && h[x].kind == TABLE(WeakValues) && Visited(h, x, m) && o.color == h[x].color && !o.color.White?
    requires Cleaned(h[x], o, Kept(h)) && !h[x].color.White?
    ensures Visited(h[x := o], x, m)
  {
    MarkOne(h, x, o);
    assert Marked(h) + {x} == Marked(h);
    forall i | 0 <= i < |o.node|
      ensures In(o.node[i].key, Marked(h)) && (In(h[x].node[i].val, Marked(h)) ==> In(o.node[i].val, Marked(h)))
    {
      assert EntryCleaned(h[x].kind, h[x].node[i], o.node[i], Kept(h));
    }
  }

  /** The entry `i` of an ephemeron table is cleared together with its key. */
  lemma ClearedKey(h: Heap, x: Id, m: Marks, i: nat)
    requires x in h && h[x].kind == TABLE(Ephemeron) && h[x].color.Gray? && Visited(h, x, m) && i < |h[x].node|
    ensures Visited(h[x := WithoutKey(h[x], i)], x, m)
  {
    MarkOne(h, x, WithoutKey(h[x], i));
    assert Marked(h) + {x} == Marked(h);
  }

  /** Every value of a table refers to an object of `S`. */
  predicate ValuesIn(o: Obj, S: set<Id>) {
    SlotsIn(o.slots, S) && ValsDone(o.node, |o.node|, S)
  }

  predicate KeysIn(o: Obj, S: set<Id>) {
    KeysDone(o.node, |o.node|, S)
  }

  /** What is known of a table on a list of weak tables. */
  lemma WeakRefs(h: Heap, white: bool, m: Marks, x: Id, S: set<Id>)
    requires MarkOk(h, white, m) && Bounded(h, S) && (x in m.weak || x in m.allweak || x in m.ephemeron) && m.atomic
      && m.gray == [] && m.rest == []
    ensures x in h && h[x].color.Gray? && x in S && x !in m.busy && Visited(h, x, m) && Shape(h[x])
      && Within(h[x], h.Keys)
    ensures h[x].kind == TABLE(if x in m.weak then WeakValues else Ephemeron)
    ensures x in m.allweak ==> ValuesIn(h[x], Marked(h))
  {
    assert Apart(m.allweak, m.ephemeron);
    assert Linked(m, x);
    LinkedGray(h, m, x);
    assert ObjOk(h, x, m);
    HeapRefs(h, x);
    assert x in Marked(h);
  }

  lemma SlotString(h: Heap, x: Id, i: nat, S: set<Id>)
    requires Bounded(h, S) && x in h && x in S && h[x].kind.TABLE? && i < |h[x].slots| && Within(h[x], h.Keys)
    ensures In(h[x].slots[i], h.Keys) && (IsString(h, h[x].slots[i]) ==> In(h[x].slots[i], S))
  {
    KeptRefs(h, x, S);
  }

  lemma ValString(h: Heap, x: Id, i: nat, S: set<Id>)
    requires Bounded(h, S) && x in h && x in S && h[x].kind == TABLE(WeakValues) && i < |h[x].node|
      && Within(h[x], h.Keys)
    requires h[x].node[i].val != Nil
    ensures EntryIn(h[x].node[i], h.Keys) && (IsString(h, h[x].node[i].val) ==> In(h[x].node[i].val, S))
  {
    KeptRefs(h, x, S);
  }

  function WithoutSlot(o: Obj, i: nat): Obj
    requires i < |o.slots|
  {
    o.(slots := o.slots[i := Nil])
  }

  function WithoutVal(o: Obj, i: nat, key: Val): Obj
    requires i < |o.node|
  {
    o.(node := o.node[i := Entry(key, Nil)])
  }

  /** A slot of a weak-valued table is cleared. */
  lemma StepClearSlot(h: Heap, white: bool, m: Marks, x: Id, i: nat, S: set<Id>)
    requires MarkOk(h, white, m) && Bounded(h, S) && x in h && h[x].color.Gray? && h[x].kind == TABLE(WeakValues)
      && x !in m.busy
    requires Visited(h, x, m) && m.atomic && i < |h[x].slots| && Clearable(h, h[x].slots[i])
    ensures
      var h' := h[x := WithoutSlot(h[x], i)];
      MarkOk(h', white, m) && Bounded(h', S) && Faded(h, h') && Visited(h', x, m) && Marked(h') == Marked(h)
  {
    var o := WithoutSlot(h[x], i);
    assert Cleaned(h[x], o, Kept(h));
    ClearedValue(h, x, m, o);
    assert ObjOk(h[x := o], x, m);
    hide MarkOk, Bounded, Cleaned, ObjOk, Visited, Faded;
    StepClear(h, white, m, x, o, S);
  }

  lemma StepClearVal(h: Heap, white: bool, m: Marks, x: Id, i: nat, key: Val, S: set<Id>)
    requires MarkOk(h, white, m) && Bounded(h, S) && x in h && h[x].color.Gray? && h[x].kind == TABLE(WeakValues)
      && x !in m.busy
    requires Visited(h, x, m) && m.atomic && i < |h[x].node| && Clearable(h, h[x].node[i].val)
      && (key == h[x].node[i].key || key == DeadKey)
    ensures
      var h' := h[x := WithoutVal(h[x], i, key)];
      MarkOk(h', white, m) && Bounded(h', S) && Faded(h, h') && Visited(h', x, m) && Marked(h') == Marked(h)
  {
    var o := WithoutVal(h[x], i, key);
    assert Cleaned(h[x], o, Kept(h));
    ClearedValue(h, x, m, o);
    assert ObjOk(h[x := o], x, m);
    hide MarkOk, Bounded, Cleaned, ObjOk, Visited, Faded;
    StepClear(h, white, m, x, o, S);
  }

  lemma StepClearKey(h: Heap, white: bool, m: Marks, x: Id, i: nat, S: set<Id>)
    requires MarkOk(h, white, m) && Bounded(h, S) && x in h && h[x].color.Gray? && h[x].kind == TABLE(Ephemeron)
      && x !in m.busy
    requires Visited(h, x, m) && m.atomic && i < |h[x].node| && Clearable(h, h[x].node[i].key)
    ensures
      var h' := h[x := WithoutKey(h[x], i)];
      MarkOk(h', white, m) && Bounded(h', S) && Faded(h, h') && Visited(h', x, m) && Marked(h') == Marked(h)
  {
    var o := WithoutKey(h[x], i);
    assert Cleaned(h[x], o, Kept(h));
    ClearedKey(h, x, m, i);
    assert ObjOk(h[x := o], x, m);
    hide MarkOk, Bounded, Cleaned, ObjOk, Visited, Faded;
    StepClear(h, white, m, x, o, S);
  }

  lemma FadedSame(h: Heap)
    ensures Faded(h, h)
  {
  }

  /** Marking a string keeps every table as it is. */
  lemma FadedMore(h0: Heap, h: Heap, h': Heap, x: Id)
    requires Faded(h0, h) && Recolored(h, h') && OnlyStrings(h, h') && x in h && h[x].color.Gray?
    ensures Faded(h0, h') && x in h' && h'[x] == h[x] && Marked(h) <= Marked(h')
  {
    RecoloredAdvanced(h, h');
    AdvancedFaded(h, h');
    FadedTrans(h0, h, h');
  }

  lemma VisitedString(h: Heap, h': Heap, x: Id, m: Marks)
    requires x in h && Visited(h, x, m) && Recolored(h, h') && h[x].color.Gray?
    ensures x in h' && Visited(h', x, m)
  {
    RecoloredAdvanced(h, h');
    StringsKept(h, h');
    VisitedMore(h, h', x, m, m);
  }

  lemma ClearableKind(h: Heap, x: Id, v: Val)
    requires Clearable(h, v)
    ensures !In(v, Marked(h))
  {
  }

  lemma KeyString(h: Heap, x: Id, m: Marks, i: nat, S: set<Id>)
    requires Bounded(h, S) && x in h && x in S && h[x].kind == TABLE(Ephemeron) && i < |h[x].node|
      && Within(h[x], h.Keys)
    requires h[x].node[i].val != Nil
    ensures EntryIn(h[x].node[i], h.Keys) && (IsString(h, h[x].node[i].key) ==> In(h[x].node[i].key, S))
  {
    KeptRefs(h, x, S);
  }

  lemma EmptyKey(h: Heap, x: Id, m: Marks, i: nat)
    requires x in h && Visited(h, x, m) && (h[x].kind == TABLE(WeakValues) || h[x].kind == TABLE(Ephemeron))
      && i < |h[x].node|
    ensures h[x].kind == TABLE(WeakValues) || h[x].node[i].val == Nil ==> In(h[x].node[i].key, Marked(h))
  {
  }

  ghost predicate AllValuesIn(h: Heap, s: seq<Id>) {
    forall x :: x in s ==> x in h && ValuesIn(h[x], Marked(h))
  }

  ghost predicate AllKeysIn(h: Heap, s: seq<Id>) {
    forall x :: x in s ==> x in h && KeysIn(h[x], Marked(h))
  }

  lemma ValuesMore(o: Obj, o': Obj, S: set<Id>, T: set<Id>, K: set<Id>)
    requires Cleaned(o, o', K) && S <= T
    ensures ValuesIn(o, S) ==> ValuesIn(o', T)
    ensures KeysIn(o, S) ==> KeysIn(o', T)
  {
    forall i | 0 <= i < |o.node|
      ensures In(o.node[i].val, S) ==> In(o'.node[i].val, T)
      ensures In(o.node[i].key, S) ==> In(o'.node[i].key, T)
    {
      assert EntryCleaned(o.kind, o.node[i], o'.node[i], K);
    }
  }

  lemma AllValuesMore(h: Heap, h': Heap, s: seq<Id>)
    requires Faded(h, h')
    ensures AllValuesIn(h, s) ==> AllValuesIn(h', s)
    ensures AllKeysIn(h, s) ==> AllKeysIn(h', s)
  {
    forall x | x in s && x in h
      ensures ValuesIn(h[x], Marked(h)) ==> ValuesIn(h'[x], Marked(h'))
      ensures KeysIn(h[x], Marked(h)) ==> KeysIn(h'[x], Marked(h'))
    {
      ValuesMore(h[x], h'[x], Marked(h), Marked(h'), Kept(h));
    }
  }

  lemma WeakKind(h: Heap, white: bool, m: Marks, x: Id, S: set<Id>)
    requires MarkOk(h, white, m) && Bounded(h, S) && (x in m.allweak || x in m.ephemeron) && m.atomic
      && m.gray == [] && m.rest == []
    ensures x in h && h[x].color.Gray? && x in S && x !in m.busy && Visited(h, x, m) && Within(h[x], h.Keys)
    ensures h[x].kind == TABLE(Ephemeron)
  {
    WeakRefs(h, white, m, x, S);
  }

  lemma AllValuesNone(h: Heap)
    ensures AllValuesIn(h, []) && AllKeysIn(h, [])
  {
  }

  lemma AllValuesAdd(h: Heap, l: seq<Id>, i: nat)
    requires i < |l| && AllValuesIn(h, l[..i]) && l[i] in h && ValuesIn(h[l[i]], Marked(h))
    ensures AllValuesIn(h, l[..i + 1])
  {
    assert l[..i + 1] == l[..i] + [l[i]];
  }

  lemma AllKeysAdd(h: Heap, l: seq<Id>, i: nat)
    requires i < |l| && AllKeysIn(h, l[..i]) && l[i] in h && KeysIn(h[l[i]], Marked(h))
    ensures AllKeysIn(h, l[..i + 1])
  {
    assert l[..i + 1] == l[..i] + [l[i]];
  }

  lemma FadedSlots(h: Heap, h': Heap, x: Id)
    requires Faded(h, h') && x in h && SlotsIn(h[x].slots, Marked(h)) && x in h'
      && ValsDone(h'[x].node, |h'[x].node|, Marked(h'))
    ensures ValuesIn(h'[x], Marked(h'))
  {
    assert Cleaned(h[x], h'[x], Kept(h));
  }

  lemma ConvergedEntry(h: Heap, node: seq<Entry>, i: nat)
    requires NodeConverged(h, node, |node|) && i < |node| && node[i].val != Nil
    ensures Clearable(h, node[i].key) || In(node[i].val, Marked(h))
  {
  }

  lemma AllConvergedPop(h: Heap, s: seq<Id>)
    requires AllConverged(h, s) && s != []
    ensures s[0] in h && NodeConverged(h, h[s[0]].node, |h[s[0]].node|) && AllConverged(h, s[1..])
  {
    assert s[0] in s && Converged(h, s[0]);
    assert forall x :: x in s[1..] ==> x in s;
  }

  lemma AdvancedCleaned(h: Heap, h': Heap)
    requires Advanced(h, h')
    ensures HeapCleaned(h, h', h.Keys) && Marked(h) <= Marked(h')
  {
  }

  lemma WhiteKept(h: Heap, h': Heap, v: Val)
    requires Advanced(h, h')
    ensures In(v, Marked(h)) ==> !IsWhite(h', v)
  {
    if In(v, Marked(h)) && v.Ref? {
      assert v.id in Marked(h');
    }
  }

  // ---------- the end of the atomic phase ----------

  /** Every reference of a marked object is to a marked object. */
  ghost predicate MarkedClosed(h: Heap) {
    forall x :: x in Marked(h) ==> Within(h[x], Marked(h))
  }

  /** After the weak tables are cleared no reference to an unmarked object is left. */
  lemma ClearedWithin(h: Heap, white: bool, m: Marks)
    requires MarkOk(h, white, m) && m.gray == [] && m.rest == [] && m.busy == {}
    requires AllValuesIn(h, m.weak) && AllConverged(h, m.ephemeron) && AllKeysIn(h, m.ephemeron)
      && AllKeysIn(h, m.allweak)
    ensures MarkedClosed(h)
  {
    forall x | x in Marked(h) ensures Within(h[x], Marked(h)) {
      assert ObjOk(h, x, m);
      HeapRefs(h, x);
      if h[x].color.Gray? {
        GrayWithin(h, m, x);
      }
    }
  }

  lemma GrayWithin(h: Heap, m: Marks, x: Id)
    requires x in h && Visited(h, x, m) && Shape(h[x])
    requires AllValuesIn(h, m.weak) && AllConverged(h, m.ephemeron) && AllKeysIn(h, m.ephemeron)
      && AllKeysIn(h, m.allweak)
    ensures Within(h[x], Marked(h))
  {
    if h[x].kind == TABLE(WeakValues) && x in m.weak {
      assert ValuesIn(h[x], Marked(h));
    } else if h[x].kind == TABLE(Ephemeron) {
      assert x in m.ephemeron || x in m.allweak ==> KeysIn(h[x], Marked(h));
      if x in m.ephemeron {
        assert Converged(h, x);
        forall i | 0 <= i < |h[x].node| ensures In(h[x].node[i].val, Marked(h)) {
          assert h[x].node[i].val != Nil ==> Clearable(h, h[x].node[i].key) || In(h[x].node[i].val, Marked(h));
        }
      }
    }
  }

  /** What convergence has marked, with the strings that clearing marks, is closed. */
  lemma ConvergedClosed(h: Heap, white: bool, m: Marks, h': Heap)
    requires MarkOk(h, white, m) && m.gray == [] && m.rest == [] && m.busy == {}
    requires AllConverged(h, m.ephemeron) && Faded(h, h') && AllValuesIn(h', m.weak)
    ensures Closed(h, Marked(h'))
  {
    forall x | x in Marked(h') && x in h ensures Keeps(h, h[x], Marked(h')) {
      HeapRefs(h, x);
      if x in Marked(h) {
        assert ObjOk(h, x, m);
        if h[x].color.Black? {
          WithinMore(h[x], Marked(h), Marked(h'));
        } else {
          VisitedKeeps(h, m, x, h');
        }
      } else {
        assert Cleaned(h[x], h'[x], Kept(h));
        assert h[x].kind.STRING?;
      }
    }
  }

  lemma VisitedKeeps(h: Heap, m: Marks, x: Id, h': Heap)
    requires x in h && Visited(h, x, m) && Shape(h[x]) && Within(h[x], h.Keys)
    requires AllConverged(h, m.ephemeron) && Faded(h, h') && AllValuesIn(h', m.weak)
    ensures Keeps(h, h[x], Marked(h'))
  {
    assert Cleaned(h[x], h'[x], Kept(h));
    match h[x].kind
    case TABLE(Strong) =>
    case TABLE(WeakValues) => VisitedKeepsValues(h, m, x, h');
    case TABLE(Ephemeron) => VisitedKeepsKeys(h, m, x, h');
    case STRING =>
    case USERDATA =>
    case CLOSURE =>
    case THREAD => WithinMore(h[x], Marked(h), Marked(h'));
  }

  lemma VisitedKeepsValues(h: Heap, m: Marks, x: Id, h': Heap)
    requires x in h && h[x].kind == TABLE(WeakValues) && Visited(h, x, m) && Faded(h, h') && AllValuesIn(h', m.weak)
    ensures Keeps(h, h[x], Marked(h'))
  {
    var o, o' := h[x], h'[x];
    assert Cleaned(o, o', Kept(h));
    if x in m.weak {
      assert ValuesIn(o', Marked(h'));
      forall i | 0 <= i < |o.slots| && IsString(h, o.slots[i]) ensures In(o.slots[i], Marked(h')) {
        assert o'.slots[i] == o.slots[i];
      }
      forall i | 0 <= i < |o.node| && o.node[i].val != Nil && IsString(h, o.node[i].val)
        ensures In(o.node[i].val, Marked(h'))
      {
        assert EntryCleaned(o.kind, o.node[i], o'.node[i], Kept(h));
        assert o'.node[i] == o.node[i];
      }
    }
  }

  lemma VisitedKeepsKeys(h: Heap, m: Marks, x: Id, h': Heap)
    requires x in h && h[x].kind == TABLE(Ephemeron) && Visited(h, x, m) && Faded(h, h') && AllConverged(h, m.ephemeron)
    requires Within(h[x], h.Keys)
    ensures Keeps(h, h[x], Marked(h'))
  {
    var o := h[x];
    forall i | 0 <= i < |o.node| && o.node[i].val != Nil
      && (In(o.node[i].key, Marked(h')) || IsString(h, o.node[i].key))
      ensures EntryIn(o.node[i], Marked(h'))
    {
      var k := o.node[i].key;
      if Clearable(h, k) {
        StaysWhite(h, h', k);
      } else {
        assert In(k, Marked(h));
        if x in m.ephemeron {
          assert Converged(h, x);
        }
      }
    }
  }

  lemma NothingCleared(h: Heap, v: Val)
    requires In(v, h.Keys)
    ensures OnlyStrings(h, h) && Recolored(h, h) && (!Clearable(h, v) && !IsString(h, v) ==> In(v, Marked(h)))
    ensures v.Ref? && h[v.id].kind.STRING? <==> IsString(h, v)
    ensures Clearable(h, v) <==> v.Ref? && h[v.id].color.White? && !IsString(h, v)
  {
  }

  lemma StringMarked(h: Heap, h': Heap, v: Val)
    requires v.Ref? && v.id in h && h[v.id].kind.STRING? && (h' == h || h' == Paint(h, v.id, Black))
    ensures OnlyStrings(h, h') && !Clearable(h, v) && !Clearable(h', v)
  {
  }

  lemma StaysWhite(h: Heap, h': Heap, k: Val)
    requires Faded(h, h') && In(k, h.Keys) && Clearable(h, k)
    ensures !In(k, Marked(h'))
  {
  }

  lemma ClosedBack(h0: Heap, h: Heap, S: set<Id>)
    requires HeapOk(h0) && Advanced(h0, h) && Closed(h, S)
    ensures Closed(h0, S)
  {
    forall x | x in S && x in h0 ensures Keeps(h0, h0[x], S) {
      KeepsBack(h0, h, x, S);
    }
  }

  lemma KeepsBack(h0: Heap, h: Heap, x: Id, S: set<Id>)
    requires x in h0 && HeapOk(h0) && Advanced(h0, h) && Keeps(h, h[x], S)
    ensures Keeps(h0, h0[x], S)
  {
    CleanedStrings(h0, h, h0.Keys);
    HeapRefs(h0, x);
    var o, o' := h0[x], h[x];
    assert Cleaned(o, o', h0.Keys);
    assert o'.slots == o.slots;
    forall i | 0 <= i < |o.node| ensures o.node[i].val != Nil ==> o'.node[i] == o.node[i] {
      assert EntryCleaned(o.kind, o.node[i], o'.node[i], h0.Keys);
      assert EntryIn(o.node[i], h0.Keys);
    }
    hide Marked, IsString;
  }

  lemma RecoloredMarked(h: Heap, h': Heap)
    requires Recolored(h, h')
    ensures Marked(h) <= Marked(h') && h'.Keys == h.Keys
  {
  }

  ghost predicate AllWhite(h: Heap, white: bool) {
    forall x :: x in h ==> h[x].color == White(white)
  }

  /** At the start of a cycle everything is white and nothing is linked. */
  lemma IsAllWhite(h: Heap, white: bool, x: Id)
    requires AllWhite(h, white) && x in h
    ensures h[x].color.White?
  {
  }

  lemma StartCycle(h: Heap, white: bool, m: Marks, S: set<Id>)
    requires HeapOk(h) && AllWhite(h, white) && Closed(h, S)
    requires m == Marks([], [], [], [], [], m.atomic, {})
    ensures MarkOk(h, white, m) && Bounded(h, S)
  {
  }

  lemma ThreadGray(h0: Heap, h: Heap, white: bool, m: Marks, x: Id)
    requires MarkOk(h, white, m) && x in Marked(h) && x in h0 && Recolored(h0, h) && h0[x].kind.THREAD? && !m.atomic
      && x !in m.busy
    ensures x in m.gray || x in m.rest
  {
    assert ObjOk(h, x, m);
  }

  /** The waiting objects become the gray list. */
  lemma StepSwapLists(h: Heap, white: bool, m: Marks)
    requires MarkOk(h, white, m) && m.gray == []
    ensures MarkOk(h, white, m.(gray := m.rest, rest := []))
  {
    var m' := m.(gray := m.rest, rest := []);
    hide Visited, ListOk, Marked;
    assert LinkedOk(h, m') by {
      EmptyListOk(h, m.busy);
    }
    forall x | x in h && x !in m'.busy ensures ObjOk(h, x, m') {
      assert ObjOk(h, x, m);
      if h[x].color.Gray? && x !in m.rest {
        VisitedLists(h, x, m, m');
      }
    }
  }

  lemma VisitedLists(h: Heap, x: Id, m: Marks, m': Marks)
    requires x in h && Visited(h, x, m) && m'.weak == m.weak && m'.allweak == m.allweak && m'.ephemeron == m.ephemeron
    ensures Visited(h, x, m')
  {
  }

  lemma FadedConverged(h: Heap, h': Heap, s: seq<Id>)
    requires AllConverged(h, s) && Faded(h, h')
    ensures AllConverged(h', s)
  {
    AllConvergedMore(h, h', Kept(h), s);
  }

  lemma FinalFacts(h0: Heap, h1: Heap, h: Heap, white: bool, m: Marks, S: set<Id>)
    requires HeapOk(h0) && Advanced(h0, h1) && Faded(h1, h) && Closed(h1, Marked(h)) && MarkOk(h, white, m)
      && Bounded(h, S)
    ensures HeapOk(h) && OneWhite(h, white) && Marked(h) <= S && Marked(h1) <= Marked(h)
    ensures HeapCleaned(h0, h, Kept(h)) && Closed(h0, Marked(h))
  {
    FadedKept(h1, h);
    ClosedBack(h0, h1, Marked(h));
    KeptKeys(h);
    hide Cleaned, Kept, Marked, Closed, MarkOk;
    forall x | x in h0 ensures Cleaned(h0[x], h[x], Kept(h)) {
      CleanedLess(h0[x], h1[x], h0.Keys, Kept(h));
      CleanedTrans(h0[x], h1[x], h[x], Kept(h));
    }
    MarkOkParts(h, white, m);
  }

  lemma KeptKeys(h: Heap)
    ensures Kept(h) <= h.Keys
  {
  }

  lemma MarkOkParts(h: Heap, white: bool, m: Marks)
    requires MarkOk(h, white, m)
    ensures HeapOk(h) && OneWhite(h, white)
  {
  }
}
