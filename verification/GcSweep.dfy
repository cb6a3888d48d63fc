/** Sweeping: what the list of all objects, the live objects and the colors satisfy
    while a sweep is under way, and what a whole collection keeps. */
module GcSweep {
  import opened ObjectHeap
  import opened GcInvariant

  ghost function Ids(s: seq<Id>): set<Id> {
    set x | x in s
  }

  /** The heap holds the main thread and the objects on the list of all objects. */
  ghost predicate ListsAll(h: Heap, allgc: seq<Id>, main: Id) {
    Distinct(allgc) && main !in allgc && h.Keys == Ids(allgc) + {main}
  }

  /** No reference of an object that is not dead is to a dead or freed object. */
  ghost predicate LiveClosed(h: Heap, white: bool) {
    && (forall x :: x in h ==> Shape(h[x]))
    && (forall x :: x in Alive(h, white) ==> Within(h[x], Alive(h, white)))
  }

  /** The objects of `s` have been swept. */
  ghost predicate AllSwept(h: Heap, s: seq<Id>, white: bool) {
    forall x :: x in s ==> x in h && h[x].color == White(white)
  }

  /** A sweep frees dead objects and whitens others. */
  ghost predicate Swept(h0: Heap, h: Heap, white: bool) {
    && h.Keys <= h0.Keys && Alive(h, white) == Alive(h0, white)
    && forall x :: x in h ==> h[x] == h0[x] || (x in Alive(h0, white) && h[x] == h0[x].(color := White(white)))
  }

  lemma SweptSame(h: Heap, white: bool)
    ensures Swept(h, h, white)
  {
  }

  lemma SweptTrans(h0: Heap, h1: Heap, h2: Heap, white: bool)
    requires Swept(h0, h1, white) && Swept(h1, h2, white)
    ensures Swept(h0, h2, white)
  {
    hide Alive;
  }

  lemma RemoveAt(s: seq<Id>, p: nat)
    requires Distinct(s) && p < |s|
    ensures Distinct(s[..p] + s[p + 1..]) && Ids(s[..p] + s[p + 1..]) == Ids(s) - {s[p]}
  {
    var t := s[..p] + s[p + 1..];
    assert forall i :: 0 <= i < |t| ==> t[i] == if i < p then s[i] else s[i + 1];
    forall y | y in Ids(s) - {s[p]} ensures y in t {
      var i :| 0 <= i < |s| && s[i] == y;
      assert t[if i < p then i else i - 1] == y;
    }
  }

  lemma FreeLive(h: Heap, white: bool, x: Id)
    requires LiveClosed(h, white) && x in h && h[x].color == White(!white)
    ensures LiveClosed(h - {x}, white) && Swept(h, h - {x}, white)
  {
    assert Alive(h - {x}, white) == Alive(h, white);
    hide Shape, Within;
  }

  /** A dead object is removed from the list and freed. */
  lemma StepFree(h: Heap, allgc: seq<Id>, main: Id, white: bool, p: nat)
    requires ListsAll(h, allgc, main) && LiveClosed(h, white) && p < |allgc|
    requires allgc[p] in h && h[allgc[p]].color == White(!white)
    ensures
      var h', l := h - {allgc[p]}, allgc[..p] + allgc[p + 1..];
      ListsAll(h', l, main) && LiveClosed(h', white) && Swept(h, h', white)
  {
    RemoveAt(allgc, p);
    FreeLive(h, white, allgc[p]);
    var h', l := h - {allgc[p]}, allgc[..p] + allgc[p + 1..];
    hide LiveClosed, Swept, Distinct;
    assert allgc[p] in allgc && allgc[p] != main;
    assert h'.Keys == h.Keys - {allgc[p]};
    assert main !in l by {
      assert main !in Ids(l);
    }
  }

  lemma StepWhiten(h: Heap, allgc: seq<Id>, main: Id, white: bool, x: Id)
    requires ListsAll(h, allgc, main) && LiveClosed(h, white) && x in h && h[x].color != White(!white)
    ensures
      var h' := Paint(h, x, White(white));
      ListsAll(h', allgc, main) && LiveClosed(h', white) && Swept(h, h', white)
  {
    var h' := Paint(h, x, White(white));
    assert Alive(h', white) == Alive(h, white);
    assert h'.Keys == h.Keys;
    hide Shape, Within;
  }

  lemma AllSweptPaint(h: Heap, s: seq<Id>, white: bool, x: Id)
    requires AllSwept(h, s, white) && x in h
    ensures AllSwept(Paint(h, x, White(white)), s, white)
  {
  }

  lemma AllSweptFree(h: Heap, s: seq<Id>, white: bool, x: Id)
    requires AllSwept(h, s, white) && x in h && h[x].color == White(!white)
    ensures AllSwept(h - {x}, s, white)
  {
  }

  lemma AllSweptNext(h: Heap, s: seq<Id>, white: bool, p: nat)
    requires p < |s| && AllSwept(h, s[..p], white) && s[p] in h && h[s[p]].color == White(white)
    ensures AllSwept(h, s[..p + 1], white)
  {
    assert s[..p + 1] == s[..p] + [s[p]];
  }

  lemma NoneSwept(h: Heap, white: bool)
    ensures AllSwept(h, [], white)
  {
  }

  lemma InHeap(h: Heap, allgc: seq<Id>, main: Id, p: nat)
    requires ListsAll(h, allgc, main) && p < |allgc|
    ensures allgc[p] in h && allgc[p] != main
  {
    assert allgc[p] in allgc;
  }

  // ---------- phases ----------

  /** While marking, no object is dead. */
  lemma MarkingAlive(h: Heap, white: bool)
    requires OneWhite(h, white)
    ensures Alive(h, white) == h.Keys
  {
  }

  lemma MarkingLive(h: Heap, white: bool)
    requires OneWhite(h, white) && HeapOk(h)
    ensures LiveClosed(h, white)
  {
    MarkingAlive(h, white);
  }

  /** After the two whites were exchanged, the marked objects are the live ones. */
  lemma FlipLive(h: Heap, white: bool)
    requires OneWhite(h, white) && HeapOk(h) && MarkedClosed(h)
    ensures Alive(h, !white) == Marked(h) && LiveClosed(h, !white)
  {
    assert Alive(h, !white) == Marked(h);
  }

  /** After the sweep every object is white. */
  lemma SweepEnd(h: Heap, allgc: seq<Id>, main: Id, white: bool)
    requires ListsAll(h, allgc, main) && LiveClosed(h, white) && AllSwept(h, allgc, white) && main in h
      && h[main].color == White(white)
    ensures AllWhite(h, white) && HeapOk(h) && Alive(h, white) == h.Keys
  {
    assert Alive(h, white) == h.Keys;
  }

  // ---------- what a step keeps ----------

  /** All that the roots reach stays alive, and is kept but for weak references to what
      they do not reach. */
  ghost predicate Preserved(h0: Heap, roots: set<Id>, h: Heap, white: bool) {
    && Reachable(h0, roots) <= Alive(h, white)
    && h.Keys <= h0.Keys
    && forall x :: x in h ==> Cleaned(h0[x], h[x], Reachable(h0, roots) + Strings(h0))
  }

  lemma AdvancedPreserved(h0: Heap, roots: set<Id>, h: Heap, white: bool)
    requires Advanced(h0, h) && OneWhite(h, white)
    ensures Preserved(h0, roots, h, white)
  {
    MarkingAlive(h, white);
    var K := Reachable(h0, roots) + Strings(h0);
    assert K <= h0.Keys;
    hide Cleaned, Reachable, Strings;
    forall x | x in h ensures Cleaned(h0[x], h[x], K) {
      CleanedLess(h0[x], h[x], h0.Keys, K);
    }
  }

  lemma SweptPreserved(h0: Heap, roots: set<Id>, h: Heap, white: bool)
    requires Swept(h0, h, white) && LiveClosed(h0, white) && roots <= Alive(h0, white)
    ensures Preserved(h0, roots, h, white)
  {
    ReachableClosed(h0, roots, Alive(h0, white));
  }

  /** The atomic phase followed by a part of the sweep. */
  lemma AtomicPreserved(h0: Heap, roots: set<Id>, h1: Heap, h: Heap, white: bool)
    requires HeapCleaned(h0, h1, Kept(h1)) && Closed(h0, Marked(h1)) && roots <= Marked(h1)
      && Alive(h1, white) == Marked(h1)
    requires Swept(h1, h, white)
    ensures Preserved(h0, roots, h, white)
  {
    InReachable(h0, roots, Marked(h1));
    var K := Reachable(h0, roots) + Strings(h0);
    StringsSame(h0, h1);
    assert K <= Kept(h1);
    forall x | x in h ensures Cleaned(h0[x], h[x], K) {
      CleanedLess(h0[x], h1[x], Kept(h1), K);
    }
  }

  lemma StringsSame(h0: Heap, h1: Heap)
    requires HeapCleaned(h0, h1, Kept(h1))
    ensures Strings(h0) == Strings(h1)
  {
    forall x | x in h0 ensures h1[x].kind == h0[x].kind {
      assert Cleaned(h0[x], h1[x], Kept(h1));
    }
  }

  // ---------- facts for the steps ----------

  lemma PauseFacts(h: Heap, white: bool)
    requires LiveClosed(h, white) && AllWhite(h, white)
    ensures HeapOk(h) && Alive(h, white) == h.Keys
  {
    assert Alive(h, white) == h.Keys;
  }

  lemma AdvancedLists(h0: Heap, h: Heap, allgc: seq<Id>, main: Id)
    requires Advanced(h0, h) && ListsAll(h0, allgc, main)
    ensures ListsAll(h, allgc, main)
  {
  }

  lemma AdvancedKind(h0: Heap, h: Heap, x: Id)
    requires Advanced(h0, h) && x in h0
    ensures x in h && h[x].kind == h0[x].kind
  {
    assert Cleaned(h0[x], h[x], h0.Keys);
  }

  lemma MarkPhaseKeys(h0: Heap, h: Heap, white: bool, m: Marks)
    requires MarkOk(h, white, m) && Advanced(h0, h)
    ensures OneWhite(h, white) && HeapOk(h) && Alive(h, white) == h.Keys == h0.Keys
  {
    MarkingAlive(h, white);
  }

  lemma AliveKeys(h: Heap, white: bool)
    ensures Alive(h, white) <= h.Keys
  {
  }

  lemma AtomicFlag(h: Heap, white: bool, m: Marks)
    requires MarkOk(h, white, m)
    ensures MarkOk(h, white, m.(atomic := true))
  {
    hide Visited;
    assert forall x :: x in h && ObjOk(h, x, m) ==> ObjOk(h, x, m.(atomic := true)) by {
      forall x | x in h && ObjOk(h, x, m) ensures ObjOk(h, x, m.(atomic := true)) {
        if h[x].color.Gray? && x !in m.gray && x !in m.rest {
          VisitedLists(h, x, m, m.(atomic := true));
        }
      }
    }
  }

  /** `h1` is the heap after the gray list was emptied, `h2` after the atomic phase. */
  lemma AtomicEnd(h0: Heap, h1: Heap, h2: Heap, white: bool, roots: set<Id>, allgc: seq<Id>, main: Id)
    requires Advanced(h0, h1) && HeapCleaned(h1, h2, Kept(h2)) && HeapOk(h2) && MarkedClosed(h2) && OneWhite(h2, white)
    requires ListsAll(h0, allgc, main)
    ensures Alive(h2, !white) == Marked(h2) && LiveClosed(h2, !white) && ListsAll(h2, allgc, main)
  {
    FlipLive(h2, white);
  }

  lemma AtomicKinds(h0: Heap, h1: Heap, h2: Heap, x: Id)
    requires Advanced(h0, h1) && HeapCleaned(h1, h2, Kept(h2)) && x in h0
    ensures x in h2 && h2[x].kind == h0[x].kind
  {
    assert Cleaned(h0[x], h1[x], h0.Keys) && Cleaned(h1[x], h2[x], Kept(h2));
  }

  lemma AtomicSwept(h0: Heap, h1: Heap, h2: Heap, h: Heap, roots: set<Id>, white: bool, S: set<Id>)
    requires HeapOk(h0) && Advanced(h0, h1) && HeapCleaned(h1, h2, Kept(h2)) && Closed(h1, Marked(h2))
      && roots <= Marked(h2) <= S
    requires Alive(h2, white) == Marked(h2) && Swept(h2, h, white)
    ensures Preserved(h0, roots, h, white) && Alive(h, white) <= S
  {
    ClosedBack(h0, h1, Marked(h2));
    KeptKeys(h2);
    hide Cleaned, Kept, Marked, Closed, Alive, Reachable, Strings;
    forall x | x in h0 ensures Cleaned(h0[x], h2[x], Kept(h2)) {
      CleanedLess(h0[x], h1[x], h0.Keys, Kept(h2));
      CleanedTrans(h0[x], h1[x], h2[x], Kept(h2));
    }
    AtomicPreserved(h0, roots, h2, h, white);
  }

  lemma AliveMember(h: Heap, white: bool, x: Id)
    requires x in Alive(h, white)
    ensures x in h && h[x].color != White(!white)
  {
  }

  // ---------- a whole cycle ----------

  lemma PauseBound(h: Heap, white: bool, roots: set<Id>)
    requires HeapOk(h) && roots <= h.Keys
    ensures roots <= Reachable(h, roots) && Closed(h, Reachable(h, roots))
  {
    ReachableClosed(h, roots, h.Keys);
  }

  /** Sweeping does not change what is reachable. */
  lemma SweptReachable(h0: Heap, h: Heap, roots: set<Id>, white: bool)
    requires Swept(h0, h, white) && LiveClosed(h0, white) && roots <= Alive(h0, white)
    ensures Reachable(h, roots) == Reachable(h0, roots)
  {
    var live := Alive(h0, white);
    forall x | x in live ensures x in h && Within(h0[x], live) {
      assert x in Alive(h, white);
    }
    SweptKinds(h0, h, white);
    ReachableClosed(h0, roots, live);
    var R0, R := Reachable(h0, roots), Reachable(h, roots);
    forall x | x in live ensures Within(h[x], live) {
    }
    ReachableClosed(h, roots, live);
    forall x | x in R0 ensures Keeps(h, h[x], R0) {
      KeepsSame(h0, h, x, live, R0, white);
    }
    forall x | x in R ensures Keeps(h0, h0[x], R) {
      KeepsSame(h0, h, x, live, R, white);
    }
    InReachable(h, roots, R0);
    InReachable(h0, roots, R);
  }

  lemma SweptKinds(h0: Heap, h: Heap, white: bool)
    requires Swept(h0, h, white)
    ensures forall v: Val :: In(v, Alive(h0, white)) ==> IsString(h, v) == IsString(h0, v)
  {
    forall v: Val | In(v, Alive(h0, white)) ensures IsString(h, v) == IsString(h0, v) {
      if v.Ref? {
        assert v.id in Alive(h, white);
      }
    }
  }

  lemma KeepsSame(h0: Heap, h: Heap, x: Id, live: set<Id>, S: set<Id>, white: bool)
    requires Swept(h0, h, white) && live == Alive(h0, white) && x in live && Within(h0[x], live)
    ensures x in h && Keeps(h, h[x], S) == Keeps(h0, h0[x], S)
  {
    assert x in Alive(h, white);
    SweptKinds(h0, h, white);
    hide IsString, Alive;
    var o, o' := h0[x], h[x];
    assert o'.kind == o.kind && o'.meta == o.meta && o'.slots == o.slots && o'.node == o.node;
    forall i | 0 <= i < |o.slots| ensures IsString(h, o.slots[i]) == IsString(h0, o.slots[i]) {
      assert In(o.slots[i], live);
    }
    forall i | 0 <= i < |o.node|
      ensures IsString(h, o.node[i].key) == IsString(h0, o.node[i].key)
        && IsString(h, o.node[i].val) == IsString(h0, o.node[i].val)
    {
      assert EntryIn(o.node[i], live);
    }
  }

  /** Marking does not change what is reachable. */
  lemma AdvancedReachable(h: Heap, h0: Heap, roots: set<Id>)
    requires HeapOk(h) && Advanced(h, h0)
    ensures Reachable(h0, roots) == Reachable(h, roots) && Strings(h0) == Strings(h)
  {
    forall S ensures Closed(h, S) <==> Closed(h0, S) {
      if Closed(h, S) {
        CleanedClosed(h, h0, h.Keys, S);
      }
      if Closed(h0, S) {
        ClosedBack(h, h0, S);
      }
    }
    forall x | x in h ensures h0[x].kind == h[x].kind {
      assert Cleaned(h[x], h0[x], h.Keys);
    }
    hide Closed;
  }

  lemma CycleAtomic(h: Heap, h0: Heap, h1: Heap, roots: set<Id>, R: set<Id>, white: bool)
    requires HeapOk(h) && Advanced(h, h0) && R == Reachable(h, roots)
    requires Preserved(h0, roots, h1, white) && Alive(h1, white) <= R
    ensures Alive(h1, white) == R && h1.Keys <= h.Keys
    ensures forall x :: x in h1 ==> Cleaned(h[x], h1[x], R + Strings(h))
  {
    AdvancedReachable(h, h0, roots);
    var K := R + Strings(h);
    assert K <= h.Keys;
    hide Cleaned, Reachable, Strings, Alive;
    forall x | x in h1 ensures Cleaned(h[x], h1[x], K) {
      CleanedLess(h[x], h0[x], h.Keys, K);
      CleanedTrans(h[x], h0[x], h1[x], K);
    }
  }

  lemma CycleSwept(h: Heap, h0: Heap, h1: Heap, R: set<Id>, white: bool)
    requires Alive(h0, white) == R && h0.Keys <= h.Keys && Swept(h0, h1, white)
    requires forall x :: x in h0 ==> Cleaned(h[x], h0[x], R + Strings(h))
    ensures Alive(h1, white) == R && h1.Keys <= h.Keys
    ensures forall x :: x in h1 ==> Cleaned(h[x], h1[x], R + Strings(h))
  {
    hide Alive, Strings;
  }

  lemma CleanedStrict(o: Obj, o': Obj, K: set<Id>, L: set<Id>, T: set<Id>)
    requires Cleaned(o, o', K) && Within(o, T) && L * T <= K
    ensures Cleaned(o, o', L)
  {
    forall i | 0 <= i < |o.node| ensures EntryCleaned(o.kind, o.node[i], o'.node[i], L) {
      assert EntryCleaned(o.kind, o.node[i], o'.node[i], K) && EntryIn(o.node[i], T);
    }
  }

  lemma CollectedFacts(h0: Heap, h: Heap, h1: Heap, R: set<Id>, white: bool)
    requires Swept(h0, h, white) && HeapOk(h) && h1.Keys == R <= h.Keys && HeapOk(h1)
    requires forall x :: x in h1 ==> Cleaned(h[x], h1[x], R + Strings(h))
    ensures forall x :: x in h1 ==> x in h0 && Cleaned(h0[x], h1[x], h1.Keys + Strings(h0)) && Within(h1[x], h1.Keys)
  {
    var L := h1.Keys + Strings(h0);
    forall x | x in L * h.Keys ensures x in R + Strings(h) {
    }
    forall x | x in h1 ensures x in h0 && Cleaned(h0[x], h1[x], L) {
      CleanedStrict(h[x], h1[x], R + Strings(h), L, h.Keys);
      assert Cleaned(h[x], h1[x], L);
    }
  }
}
