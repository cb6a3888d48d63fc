/** The binary heap of trees that feeds the Huffman construction. */
module HuffmanHeap {
  type Byte = x: int | 0 <= x < 256

  /** A node of the Huffman tree with its weight; only leaves stand for a byte. */
  datatype Huff = Leaf(ch: Byte, n: nat) | Node(n: nat, left: Huff, right: Huff)

  function Swapped(s: seq<Huff>, i: nat, j: nat): seq<Huff>
    requires i < |s| && j < |s|
  {
    s[i := s[j]][j := s[i]]
  }

  // ---------- contents ----------

  /** The sum of a quantity over the contents. */
  function Sum(s: seq<Huff>, f: Huff -> nat): nat {
    if s == [] then 0 else Sum(s[..|s| - 1], f) + f(s[|s| - 1])
  }

  lemma {:induction false} SumUpdate(s: seq<Huff>, i: nat, v: Huff, f: Huff -> nat)
    requires i < |s|
    ensures Sum(s[i := v], f) + f(s[i]) == Sum(s, f) + f(v)
    decreases |s|
  {
    var k := |s| - 1;
    if i < k {
      assert s[i := v][..k] == s[..k][i := v];
      SumUpdate(s[..k], i, v, f);
    } else {
      assert s[i := v][..k] == s[..k];
    }
  }

  lemma SumSwap(s: seq<Huff>, i: nat, j: nat, f: Huff -> nat)
    requires i < |s| && j < |s|
    ensures Sum(Swapped(s, i, j), f) == Sum(s, f)
  {
    SumUpdate(s, i, s[j], f);
    SumUpdate(s[i := s[j]], j, s[i], f);
  }

  /** Each part is at most the sum. */
  lemma {:induction false} SumPart(s: seq<Huff>, i: nat, f: Huff -> nat)
    requires i < |s|
    ensures f(s[i]) <= Sum(s, f)
    decreases |s|
  {
    if i < |s| - 1 {
      SumPart(s[..|s| - 1], i, f);
    }
  }

  lemma {:induction false} SumWitness(s: seq<Huff>, f: Huff -> nat) returns (i: nat)
    requires Sum(s, f) > 0
    ensures i < |s| && f(s[i]) > 0
    decreases |s|
  {
    i := |s| - 1;
    if f(s[i]) == 0 {
      i := SumWitness(s[..i], f);
    }
  }

  // ---------- sifting ----------

  function Up(s: seq<Huff>, child: nat): (r: seq<Huff>)
    requires child < |s|
    ensures |r| == |s|
    decreases child
  {
    if child == 0 then s
    else
      var parent := (child - 1) / 2;
      if s[child].n < s[parent].n then Up(Swapped(s, child, parent), parent) else s
  }

  /** The lighter child of `parent`. */
  function Lighter(s: seq<Huff>, parent: nat): nat
    requires 2 * parent + 1 < |s|
  {
    var child := 2 * parent + 1;
    if child + 1 < |s| && s[child + 1].n < s[child].n then child + 1 else child
  }

  function Down(s: seq<Huff>, parent: nat): (r: seq<Huff>)
    requires parent <= |s|
    ensures |r| == |s|
    decreases |s| - parent
  {
    if 2 * parent + 1 >= |s| then s
    else
      var child := Lighter(s, parent);
      if s[child].n < s[parent].n then Down(Swapped(s, child, parent), child) else s
  }

  lemma DownStep(s: seq<Huff>, parent: nat)
    requires parent <= |s|
    ensures
      if 2 * parent + 1 < |s| && s[Lighter(s, parent)].n < s[parent].n then
        Down(s, parent) == Down(Swapped(s, Lighter(s, parent), parent), Lighter(s, parent))
      else Down(s, parent) == s
  {
  }

  function Pushed(s: seq<Huff>, d: Huff): (r: seq<Huff>)
    ensures |r| == |s| + 1
  {
    Up(s + [d], |s|)
  }

  function Popped(s: seq<Huff>): (r: seq<Huff>)
    requires s != []
    ensures |r| == |s| - 1
  {
    if |s| == 1 then [] else Down(Swapped(s, 0, |s| - 1)[..|s| - 1], 0)
  }

  lemma {:induction false} UpSum(s: seq<Huff>, child: nat, f: Huff -> nat)
    requires child < |s|
    ensures Sum(Up(s, child), f) == Sum(s, f)
    decreases child
  {
    if child > 0 && s[child].n < s[(child - 1) / 2].n {
      SumSwap(s, child, (child - 1) / 2, f);
      UpSum(Swapped(s, child, (child - 1) / 2), (child - 1) / 2, f);
    }
  }

  lemma {:induction false} DownSum(s: seq<Huff>, parent: nat, f: Huff -> nat)
    requires parent <= |s|
    ensures Sum(Down(s, parent), f) == Sum(s, f)
    decreases |s| - parent
  {
    if 2 * parent + 1 < |s| && s[Lighter(s, parent)].n < s[parent].n {
      SumSwap(s, Lighter(s, parent), parent, f);
      DownSum(Swapped(s, Lighter(s, parent), parent), Lighter(s, parent), f);
    }
  }

  /** Pushing adds one element and changes nothing else of the contents. */
  lemma PushedSum(s: seq<Huff>, d: Huff, f: Huff -> nat)
    ensures Sum(Pushed(s, d), f) == Sum(s, f) + f(d)
  {
    UpSum(s + [d], |s|, f);
    assert (s + [d])[..|s|] == s;
  }

  /** Popping takes the first element away. */
  lemma PoppedSum(s: seq<Huff>, f: Huff -> nat)
    requires s != []
    ensures Sum(Popped(s), f) + f(s[0]) == Sum(s, f)
  {
    if |s| > 1 {
      var k := |s| - 1;
      SumSwap(s, 0, k, f);
      DownSum(Swapped(s, 0, k)[..k], 0, f);
    } else {
      assert s[..0] == [];
    }
  }

  // ---------- order ----------

  predicate Ordered(s: seq<Huff>, i: nat)
    requires 0 < i < |s|
  {
    s[(i - 1) / 2].n <= s[i].n
  }

  /** No element from the children of `k` on is lighter than its parent. */
  ghost predicate OrderedFrom(s: seq<Huff>, k: nat) {
    forall i: nat :: 0 < i < |s| && (i - 1) / 2 >= k ==> Ordered(s, i)
  }

  ghost predicate IsHeap(s: seq<Huff>) {
    OrderedFrom(s, 0)
  }

  /** A heap except that `c` may be lighter than its parent. */
  ghost predicate HeapUpTo(s: seq<Huff>, c: nat)
    requires c < |s|
  {
    && (forall i: nat :: 0 < i < |s| && i != c ==> Ordered(s, i))
    && forall i: nat :: 0 < i < |s| && (i - 1) / 2 == c && c > 0 ==> s[(c - 1) / 2].n <= s[i].n
  }

  lemma {:induction false} UpHeap(s: seq<Huff>, child: nat)
    requires child < |s| && HeapUpTo(s, child)
    ensures IsHeap(Up(s, child))
    decreases child
  {
    if child > 0 {
      var parent := (child - 1) / 2;
      if s[child].n < s[parent].n {
        var s' := Swapped(s, child, parent);
        forall i: nat | 0 < i < |s| && i != parent ensures Ordered(s', i) {
          assert i != child ==> Ordered(s, i);
        }
        forall i: nat | 0 < i < |s| && (i - 1) / 2 == parent && parent > 0 ensures s'[(parent - 1) / 2].n <= s'[i].n {
          assert i != child ==> Ordered(s, i);
          assert Ordered(s, parent);
        }
        UpHeap(s', parent);
      } else {
        assert Ordered(s, child);
      }
    }
  }

  /** Ordered from `k` on, except that `p` may be heavier than its children. */
  ghost predicate HeapDownTo(s: seq<Huff>, k: nat, p: nat)
    requires p < |s|
  {
    && (forall i: nat :: 0 < i < |s| && (i - 1) / 2 >= k && (i - 1) / 2 != p ==> Ordered(s, i))
    && forall i: nat :: 0 < i < |s| && (i - 1) / 2 == p && p > 0 && (p - 1) / 2 >= k ==> s[(p - 1) / 2].n <= s[i].n
  }

  lemma {:induction false} DownHeap(s: seq<Huff>, k: nat, p: nat)
    requires k <= p < |s| && HeapDownTo(s, k, p)
    ensures OrderedFrom(Down(s, p), k)
    decreases |s| - p
  {
    if 2 * p + 1 < |s| && s[Lighter(s, p)].n < s[p].n {
      var c := Lighter(s, p);
      var s' := Swapped(s, c, p);
      forall i: nat | 0 < i < |s| && (i - 1) / 2 >= k && (i - 1) / 2 != c ensures Ordered(s', i) {
        assert (i - 1) / 2 != p ==> Ordered(s, i);
      }
      forall i: nat | 0 < i < |s| && (i - 1) / 2 == c && c > 0 && (c - 1) / 2 >= k
        ensures s'[(c - 1) / 2].n <= s'[i].n
      {
        assert Ordered(s, i);
      }
      DownHeap(s', k, c);
    } else {
      forall i: nat | 0 < i < |s| && (i - 1) / 2 == p ensures Ordered(s, i) {
        assert i == 2 * p + 1 || i == 2 * p + 2;
      }
    }
  }

  /** The first element of a heap is a lightest one. */
  lemma {:induction false} HeapTop(s: seq<Huff>, i: nat)
    requires IsHeap(s) && i < |s|
    ensures s[0].n <= s[i].n
    decreases i
  {
    if i > 0 {
      assert Ordered(s, i);
      HeapTop(s, (i - 1) / 2);
    }
  }

  lemma PushedHeap(s: seq<Huff>, d: Huff)
    requires IsHeap(s)
    ensures IsHeap(Pushed(s, d))
  {
    var s' := s + [d];
    forall i: nat | 0 < i < |s'| && i != |s| ensures Ordered(s', i) {
      assert Ordered(s, i);
    }
    UpHeap(s', |s|);
  }

  lemma PoppedHeap(s: seq<Huff>)
    requires IsHeap(s) && s != []
    ensures IsHeap(Popped(s))
  {
    if |s| > 1 {
      var s' := Swapped(s, 0, |s| - 1)[..|s| - 1];
      forall i: nat | 0 < i < |s'| && (i - 1) / 2 != 0 ensures Ordered(s', i) {
        assert Ordered(s, i);
      }
      DownHeap(s', 0, 0);
    }
  }

  class Heap {
    var heap: seq<Huff>

    constructor ()
      ensures heap == []
    {
      heap := [];
    }

    /** Makes a heap of the elements of an array. */
    constructor FromArray(a: array<Huff>)
      requires a.Length > 0
      ensures IsHeap(heap) && |heap| == a.Length && forall f: Huff -> nat :: Sum(heap, f) == Sum(a[..], f)
    {
      heap := a[..];
      new;
      var i := if a.Length == 1 then 0 else (a.Length - 2) / 2;
      while i >= 0
        invariant -1 <= i < a.Length && |heap| == a.Length
        invariant OrderedFrom(heap, i + 1)
        invariant forall f: Huff -> nat :: Sum(heap, f) == Sum(a[..], f)
        decreases i
      {
        ghost var h := heap;
        AdjustDown(i);
        forall f: Huff -> nat ensures Sum(heap, f) == Sum(a[..], f) {
          DownSum(h, i, f);
        }
        DownHeap(h, i, i);
        i := i - 1;
      }
    }

    method Size() returns (n: nat)
      ensures n == |heap|
    {
      n := |heap|;
    }

    /** The first element; in a heap no other is lighter. */
    method Top() returns (t: Huff)
      requires heap != []
      ensures t == heap[0] && (IsHeap(heap) ==> forall i :: 0 <= i < |heap| ==> t.n <= heap[i].n)
    {
      t := heap[0];
      if IsHeap(heap) {
        forall i | 0 <= i < |heap| ensures t.n <= heap[i].n {
          HeapTop(heap, i);
        }
      }
    }

    method Push(d: Huff)
      modifies this
      ensures heap == Pushed(old(heap), d)
    {
      heap := heap + [d];
      AdjustUp(|heap| - 1);
    }

    method Pop()
      requires heap != []
      modifies this
      ensures heap == Popped(old(heap))
    {
      var size := |heap|;
      if size > 1 {
        heap := Swapped(heap, 0, size - 1);
        heap := heap[..size - 1];
        AdjustDown(0);
      } else {
        heap := heap[..size - 1];
      }
    }

    method AdjustUp(from: nat)
      requires from < |heap|
      modifies this
      ensures heap == Up(old(heap), from)
    {
      var child: nat := from;
      while child > 0
        invariant child < |heap| == |old(heap)| && Up(heap, child) == Up(old(heap), from)
      {
        var parent := (child - 1) / 2;
        if heap[child].n < heap[parent].n {
          heap := Swapped(heap, child, parent);
          child := parent;
        } else {
          break;
        }
      }
    }

    method AdjustDown(from: nat)
      requires from <= |heap|
      modifies this
      ensures heap == Down(old(heap), from)
    {
      hide Down, Swapped;
      var parent: nat := from;
      var child := parent * 2 + 1;
      while child < |heap|
        invariant child == parent * 2 + 1 && parent <= |heap| && Down(heap, parent) == Down(old(heap), from)
        decreases |heap| - parent
      {
        DownStep(heap, parent);
        if child + 1 < |heap| && heap[child + 1].n < heap[child].n {
          child := child + 1;
        }
        if heap[child].n < heap[parent].n {
          heap := Swapped(heap, child, parent);
          parent := child;
          child := parent * 2 + 1;
        } else {
          break;
        }
      }
      DownStep(heap, parent);
    }
  }
}
