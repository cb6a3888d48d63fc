/** The collectable objects of Lua: what an object refers to, what keeps an object
    alive, and what the collector may remove from a table. */
module ObjectHeap {
  type Id = nat

  /** A dead key is left in a table after its object was collected. */
  datatype Val = Nil | Scalar(i: int) | Ref(id: Id) | DeadKey

  datatype Mode = Strong | WeakValues | Ephemeron

  /** Lua closures, C closures and prototypes are traversed alike. */
  datatype Kind = STRING | USERDATA | CLOSURE | TABLE(mode: Mode) | THREAD

  datatype Color = White(w: bool) | Gray | Black

  datatype Entry = Entry(key: Val, val: Val)

  /** `slots` is the array part of a table, the stack of a thread, the upvalues and
      constants of a function, or the single user value of a userdata. */
  datatype Obj = Obj(kind: Kind, color: Color, meta: Val, slots: seq<Val>, node: seq<Entry>)

  type Heap = map<Id, Obj>

  predicate EntryShape(e: Entry) {
    e.val != DeadKey && (e.key == Nil || e.key == DeadKey ==> e.val == Nil)
  }

  predicate Shape(o: Obj) {
    && o.meta != DeadKey && DeadKey !in o.slots
    && (forall e :: e in o.node ==> EntryShape(e))
    && match o.kind
       case STRING => o.meta == Nil && o.slots == [] && o.node == []
       case USERDATA => |o.slots| == 1 && o.node == []
       case TABLE(_) => true
       case _ => o.meta == Nil && o.node == []
  }

  predicate In(v: Val, S: set<Id>) {
    v.Ref? ==> v.id in S
  }

  predicate EntryIn(e: Entry, S: set<Id>) {
    In(e.key, S) && In(e.val, S)
  }

  predicate SlotsIn(slots: seq<Val>, S: set<Id>) {
    forall i :: 0 <= i < |slots| ==> In(slots[i], S)
  }

  predicate NodeIn(node: seq<Entry>, S: set<Id>) {
    forall i :: 0 <= i < |node| ==> EntryIn(node[i], S)
  }

  /** Every reference in `o` is to an object in `S`. */
  predicate Within(o: Obj, S: set<Id>) {
    In(o.meta, S) && SlotsIn(o.slots, S) && NodeIn(o.node, S)
  }

  lemma WithinMore(o: Obj, S: set<Id>, T: set<Id>)
    requires Within(o, S) && S <= T
    ensures Within(o, T)
  {
  }

  /** Objects that are kept on a gray list while gray. */
  predicate Listed(k: Kind) {
    k.CLOSURE? || k.TABLE? || k.THREAD?
  }

  predicate NeverBlack(k: Kind) {
    k.THREAD? || k == TABLE(WeakValues) || k == TABLE(Ephemeron)
  }

  function Marked(h: Heap): set<Id> {
    set x | x in h && !h[x].color.White?
  }

  function Unmarked(h: Heap): set<Id> {
    set x | x in h && h[x].color.White?
  }

  /** Objects that a sweep keeps when the current white is `white`. */
  function Alive(h: Heap, white: bool): set<Id> {
    set x | x in h && h[x].color != White(!white)
  }

  predicate IsWhite(h: Heap, v: Val) {
    v.Ref? && v.id in h && h[v.id].color.White?
  }

  predicate IsString(h: Heap, v: Val) {
    v.Ref? && v.id in h && h[v.id].kind.STRING?
  }

  function Strings(h: Heap): set<Id> {
    set x | x in h && h[x].kind.STRING?
  }

  // ---------- reachability ----------

  /** What the references of `o` require to be kept with it. Strings count as values,
      so a weak table keeps them; an ephemeron keeps the value of a kept key. */
  predicate Keeps(h: Heap, o: Obj, S: set<Id>) {
    && In(o.meta, S)
    && match o.kind
       case TABLE(Strong) => SlotsIn(o.slots, S)
         && forall i :: 0 <= i < |o.node| && o.node[i].val != Nil ==> EntryIn(o.node[i], S)
       case TABLE(WeakValues) =>
         && (forall i :: 0 <= i < |o.slots| && IsString(h, o.slots[i]) ==> In(o.slots[i], S))
         && (forall i :: 0 <= i < |o.node| && o.node[i].val != Nil ==>
             In(o.node[i].key, S) && (IsString(h, o.node[i].val) ==> In(o.node[i].val, S)))
       case TABLE(Ephemeron) =>
         && SlotsIn(o.slots, S)
         && (forall i ::
             0 <= i < |o.node| && o.node[i].val != Nil && (In(o.node[i].key, S) || IsString(h, o.node[i].key)) ==>
             EntryIn(o.node[i], S))
       case _ => SlotsIn(o.slots, S)
  }

  ghost predicate Closed(h: Heap, S: set<Id>) {
    forall x :: x in S && x in h ==> Keeps(h, h[x], S)
  }

  /** The objects in every closed set that contains the roots. */
  ghost function Reachable(h: Heap, roots: set<Id>): set<Id> {
    set x | x in h && forall S :: roots <= S && Closed(h, S) ==> x in S
  }

  lemma ReachableKeys(h: Heap, roots: set<Id>)
    ensures Reachable(h, roots) <= h.Keys
  {
  }

  lemma InReachable(h: Heap, roots: set<Id>, S: set<Id>)
    requires roots <= S && Closed(h, S)
    ensures Reachable(h, roots) <= S
  {
  }

  /** When no kept reference dangles, reachability is itself closed. */
  lemma ReachableClosed(h: Heap, roots: set<Id>, live: set<Id>)
    requires roots <= live <= h.Keys
    requires forall x :: x in live ==> Within(h[x], live)
    ensures roots <= Reachable(h, roots) <= live && Closed(h, Reachable(h, roots))
  {
    var R := Reachable(h, roots);
    forall x | x in live ensures Keeps(h, h[x], live) {
      assert Within(h[x], live);
    }
    assert Closed(h, live);
    InReachable(h, roots, live);
    forall x | x in R ensures Keeps(h, h[x], R) {
      KeepsMeet(h, x, roots, live);
    }
  }

  lemma KeepsMeet(h: Heap, x: Id, roots: set<Id>, live: set<Id>)
    requires x in Reachable(h, roots) && live <= h.Keys && Within(h[x], live)
    ensures Keeps(h, h[x], Reachable(h, roots))
  {
    var R := Reachable(h, roots);
    var o := h[x];
    forall S | roots <= S && Closed(h, S)
      ensures Keeps(h, o, S)
    {
    }
    assert forall v: Val :: In(v, live) && (forall S :: roots <= S && Closed(h, S) ==> In(v, S)) ==> In(v, R);
  }
}
