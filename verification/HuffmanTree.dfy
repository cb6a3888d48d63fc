/** The greedy construction of the Huffman tree, and its optimality. */
module HuffmanTree {
  import opened OptimalTrees
  import opened HuffmanHeap

  /** The weights of a tree, without its bytes. */
  function Shape(t: Huff): Weighted {
    match t
    case Leaf(_, n) => Tip(n)
    case Node(_, l, r) => Fork(Shape(l), Shape(r))
  }

  /** Every node weighs as much as its children together. */
  predicate Weighed(t: Huff) {
    t.Node? ==> t.n == t.left.n + t.right.n && Weighed(t.left) && Weighed(t.right)
  }

  /** How many leaves stand for the byte `c`. */
  function Bytes(t: Huff, c: Byte): nat {
    match t
    case Leaf(d, _) => One(c == d)
    case Node(_, l, r) => Bytes(l, c) + Bytes(r, c)
  }

  // ---------- quantities of the heap ----------

  function Roots(w: nat): Huff -> nat {
    (t: Huff) => One(t.n == w)
  }

  function Leaves(w: nat): Huff -> nat {
    (t: Huff) => Count(Shape(t), w)
  }

  function BytesOf(c: Byte): Huff -> nat {
    (t: Huff) => Bytes(t, c)
  }

  const LENGTH: Huff -> nat := (t: Huff) => Length(Shape(t), 0)
  const WEIGHT: Huff -> nat := (t: Huff) => t.n
  const UNWEIGHED: Huff -> nat := (t: Huff) => One(!Weighed(t))

  // ---------- the algorithm as functions ----------

  /** Pushes a leaf for each byte from `i` on that occurs. */
  function Planted(counts: seq<nat>, i: nat): seq<Huff>
    requires i <= |counts| <= 256
    decreases i
  {
    if i == 0 then []
    else
      var s := Planted(counts, i - 1);
      if counts[i - 1] != 0 then Pushed(s, Leaf(i - 1, counts[i - 1])) else s
  }

  /** The two lightest trees are joined. */
  function Joined(s: seq<Huff>): (r: seq<Huff>)
    requires |s| >= 2
    ensures |r| == |s| - 1
  {
    var l, s1 := s[0], Popped(s);
    var r := s1[0];
    Pushed(Popped(s1), Node(l.n + r.n, l, r))
  }

  function Greedy(s: seq<Huff>): Huff
    requires s != []
    decreases |s|
  {
    if |s| == 1 then s[0] else Greedy(Joined(s))
  }

  /** The bytes that occur. */
  function Occurring(counts: seq<nat>): nat {
    if counts == [] then 0 else Occurring(counts[..|counts| - 1]) + One(counts[|counts| - 1] != 0)
  }

  /** The Huffman tree for the given counts. */
  function Tree(counts: seq<nat>): Huff
    requires |counts| <= 256 && Occurring(counts) > 0
  {
    PlantedSize(counts, |counts|);
    assert counts[..|counts|] == counts;
    Greedy(Planted(counts, |counts|))
  }

  lemma {:induction false} PlantedSize(counts: seq<nat>, i: nat)
    requires i <= |counts| <= 256
    ensures |Planted(counts, i)| == Occurring(counts[..i]) && IsHeap(Planted(counts, i))
    decreases i
  {
    if i > 0 {
      PlantedSize(counts, i - 1);
      assert counts[..i][..i - 1] == counts[..i - 1];
      if counts[i - 1] != 0 {
        PushedHeap(Planted(counts, i - 1), Leaf(i - 1, counts[i - 1]));
      }
    }
  }

  lemma JoinedHeap(s: seq<Huff>)
    requires IsHeap(s) && |s| >= 2
    ensures IsHeap(Joined(s))
  {
    PoppedHeap(s);
    PoppedHeap(Popped(s));
    var l, r := s[0], Popped(s)[0];
    PushedHeap(Popped(Popped(s)), Node(l.n + r.n, l, r));
  }

  /** What joining does to a sum over the heap. */
  lemma JoinedSum(s: seq<Huff>, f: Huff -> nat)
    requires |s| >= 2
    ensures
      var l, r := s[0], Popped(s)[0];
      Sum(Joined(s), f) + f(l) + f(r) == Sum(s, f) + f(Node(l.n + r.n, l, r))
  {
    hide Sum, Popped, Pushed, Up, Down;
    PartsSum(s, f, s[0], Popped(s), Popped(s)[0], Popped(Popped(s)), Node(s[0].n + Popped(s)[0].n, s[0], Popped(s)[0]));
  }

  lemma PartsSum(s: seq<Huff>, f: Huff -> nat, l: Huff, s1: seq<Huff>, r: Huff, s2: seq<Huff>, t: Huff)
    requires |s| >= 2 && l == s[0] && s1 == Popped(s) && r == s1[0] && s2 == Popped(s1)
    ensures Sum(Pushed(s2, t), f) + f(l) + f(r) == Sum(s, f) + f(t)
  {
    PoppedSum(s, f);
    PoppedSum(s1, f);
    PushedSum(s2, t, f);
  }

  // ---------- conservation ----------

  /** A quantity that a join does not change is the same in the end. */
  lemma {:induction false} GreedySum(s: seq<Huff>, f: Huff -> nat)
    requires s != []
    requires forall l: Huff, r: Huff :: f(Node(l.n + r.n, l, r)) == f(l) + f(r)
    ensures f(Greedy(s)) == Sum(s, f)
    decreases |s|
  {
    if |s| == 1 {
      assert s[..0] == [] && Sum(s, f) == Sum(s[..0], f) + f(s[0]);
    } else {
      JoinedSum(s, f);
      GreedySum(Joined(s), f);
    }
  }

  /** How many bytes among the first `i` occur `w` times. */
  function Times(counts: seq<nat>, i: nat, w: nat): nat
    requires i <= |counts|
  {
    if i == 0 then 0 else Times(counts, i - 1, w) + One(counts[i - 1] != 0 && counts[i - 1] == w)
  }

  function TotalOf(counts: seq<nat>, i: nat): nat
    requires i <= |counts|
  {
    if i == 0 then 0 else TotalOf(counts, i - 1) + counts[i - 1]
  }

  lemma LeafParts(b: Byte, n: nat, w: nat, c: Byte)
    ensures
      var t := Leaf(b, n);
      && Roots(w)(t) == Leaves(w)(t) == One(n == w) && BytesOf(c)(t) == One(b == c)
      && WEIGHT(t) == n && LENGTH(t) == UNWEIGHED(t) == 0
  {
  }

  lemma {:induction false} PlantedSums(counts: seq<nat>, i: nat, w: nat, c: Byte)
    requires i <= |counts| <= 256
    ensures Sum(Planted(counts, i), Roots(w)) == Times(counts, i, w)
    ensures Sum(Planted(counts, i), Leaves(w)) == Times(counts, i, w)
    ensures Sum(Planted(counts, i), BytesOf(c)) == One(c < i && counts[c] != 0)
    ensures Sum(Planted(counts, i), WEIGHT) == TotalOf(counts, i)
    ensures Sum(Planted(counts, i), LENGTH) == 0 && Sum(Planted(counts, i), UNWEIGHED) == 0
    decreases i
  {
    hide Sum, Planted, Roots, Leaves, BytesOf, Shape, Length, Count, Bytes, Weighed;
    PlantedSum(counts, i, Roots(w));
    PlantedSum(counts, i, Leaves(w));
    PlantedSum(counts, i, BytesOf(c));
    PlantedSum(counts, i, WEIGHT);
    PlantedSum(counts, i, LENGTH);
    PlantedSum(counts, i, UNWEIGHED);
    if i > 0 {
      PlantedSums(counts, i - 1, w, c);
      LeafParts(i - 1, counts[i - 1], w, c);
    }
  }

  lemma PlantedSum(counts: seq<nat>, i: nat, f: Huff -> nat)
    requires i <= |counts| <= 256
    ensures Sum(Planted(counts, i), f) ==
      if i == 0 then 0
      else Sum(Planted(counts, i - 1), f) + if counts[i - 1] != 0 then f(Leaf(i - 1, counts[i - 1])) else 0
  {
    hide Up;
    if i > 0 && counts[i - 1] != 0 {
      PushedSum(Planted(counts, i - 1), Leaf(i - 1, counts[i - 1]), f);
    }
  }

  /** The tree has one leaf for each byte that occurs, its root has the total number of
      bytes as its weight, and the weights at its leaves are the counts. */
  lemma TreeContents(counts: seq<nat>, w: nat, c: Byte)
    requires |counts| <= 256 && Occurring(counts) > 0
    ensures Bytes(Tree(counts), c) == One(c < |counts| && counts[c] != 0)
    ensures Tree(counts).n == TotalOf(counts, |counts|)
    ensures Count(Shape(Tree(counts)), w) == Times(counts, |counts|, w)
  {
    var s := Planted(counts, |counts|);
    assert counts[..|counts|] == counts;
    PlantedSize(counts, |counts|);
    PlantedSums(counts, |counts|, w, c);
    GreedySum(s, BytesOf(c));
    GreedySum(s, WEIGHT);
    GreedySum(s, Leaves(w));
  }

  /** The tree is a single leaf exactly when one byte value occurs. */
  lemma TreeLeaf(counts: seq<nat>)
    requires |counts| <= 256 && Occurring(counts) > 0
    ensures Tree(counts).Leaf? <==> Occurring(counts) == 1
  {
    var s := Planted(counts, |counts|);
    assert counts[..|counts|] == counts;
    PlantedSize(counts, |counts|);
    GreedyNode(s);
    if |s| == 1 {
      PlantedLeaves(counts, |counts|, 0);
    }
  }

  lemma {:induction false} GreedyNode(s: seq<Huff>)
    requires s != []
    ensures if |s| == 1 then Greedy(s) == s[0] else Greedy(s).Node?
    decreases |s|
  {
    if |s| == 2 {
      var l, r := s[0], Popped(s)[0];
      assert Popped(Popped(s)) == [] && Joined(s) == [Node(l.n + r.n, l, r)];
    } else if |s| > 2 {
      GreedyNode(Joined(s));
    }
  }

  const INNER: Huff -> nat := (t: Huff) => One(t.Node?)

  lemma {:induction false} PlantedLeaves(counts: seq<nat>, i: nat, k: nat)
    requires i <= |counts| <= 256 && k < |Planted(counts, i)|
    ensures Planted(counts, i)[k].Leaf?
  {
    InnerSum(counts, i);
    SumPart(Planted(counts, i), k, INNER);
  }

  lemma {:induction false} InnerSum(counts: seq<nat>, i: nat)
    requires i <= |counts| <= 256
    ensures Sum(Planted(counts, i), INNER) == 0
    decreases i
  {
    if i > 0 {
      InnerSum(counts, i - 1);
      if counts[i - 1] != 0 {
        PushedSum(Planted(counts, i - 1), Leaf(i - 1, counts[i - 1]), INNER);
      }
    }
  }

  // ---------- optimality ----------

  /** The leaves of `t` are the roots of the heap. */
  ghost predicate Over(t: Weighted, s: seq<Huff>) {
    forall w: nat :: Count(t, w) == Sum(s, Roots(w))
  }

  function Total(t: Weighted): nat {
    match t
    case Tip(w) => w
    case Fork(l, r) => Total(l) + Total(r)
  }

  lemma {:induction false} Deeper(t: Weighted, d: nat)
    ensures Length(t, d + 1) == Length(t, d) + Total(t)
    decreases t
  {
    if t.Fork? {
      Deeper(t.l, d + 1);
      Deeper(t.r, d + 1);
    } else {
      assert t.w * (d + 1) == t.w * d + t.w;
    }
  }

  lemma {:induction false} WeighedTotal(t: Huff)
    requires Weighed(t)
    ensures Total(Shape(t)) == t.n
    decreases t
  {
    if t.Node? {
      WeighedTotal(t.left);
      WeighedTotal(t.right);
    }
  }

  /** Joining two trees lengthens all their ways by one. */
  lemma PairLengths(l: Huff, r: Huff)
    requires Weighed(l) && Weighed(r)
    ensures LENGTH(Node(l.n + r.n, l, r)) == LENGTH(l) + LENGTH(r) + l.n + r.n
    ensures UNWEIGHED(Node(l.n + r.n, l, r)) == UNWEIGHED(l) == UNWEIGHED(r) == 0
  {
    WeighedTotal(l);
    WeighedTotal(r);
    Deeper(Shape(l), 0);
    Deeper(Shape(r), 0);
  }

  /** The first two trees of a heap without false weights. */
  lemma FirstWeighed(s: seq<Huff>)
    requires |s| >= 2 && Sum(s, UNWEIGHED) == 0
    ensures Weighed(s[0]) && Weighed(Popped(s)[0])
  {
    hide Sum, Popped, Weighed;
    var s1 := Popped(s);
    SumPart(s, 0, UNWEIGHED);
    PoppedSum(s, UNWEIGHED);
    SumPart(s1, 0, UNWEIGHED);
  }

  lemma JoinedLength(s: seq<Huff>)
    requires |s| >= 2 && Sum(s, UNWEIGHED) == 0
    ensures Sum(Joined(s), LENGTH) == Sum(s, LENGTH) + s[0].n + Popped(s)[0].n
    ensures Sum(Joined(s), UNWEIGHED) == 0
  {
    hide Sum, Popped, Joined, Shape, Length, Weighed;
    FirstWeighed(s);
    PairLengths(s[0], Popped(s)[0]);
    JoinedSum(s, LENGTH);
    JoinedSum(s, UNWEIGHED);
  }

  lemma BesidesForks(t: Weighted, x: nat, y: nat)
    requires Besides(t, x, y) && Count(t, x) > 0
    ensures t.Fork?
  {
  }

  /** The trees that are joined have the two least weights. */
  lemma JoinsLightest(t: Weighted, s: seq<Huff>)
    requires IsHeap(s) && |s| >= 2 && Over(t, s)
    ensures t.Fork? && Lightest(t, s[0].n, Popped(s)[0].n)
  {
    var s1 := Popped(s);
    var x, y := s[0].n, s1[0].n;
    PoppedHeap(s);
    forall w: nat ensures Count(t, w) == Sum(s1, Roots(w)) + One(x == w) {
      PoppedSum(s, Roots(w));
    }
    SumPart(s1, 0, Roots(y));
    forall w: nat | Sum(s1, Roots(w)) > 0 ensures y <= w {
      var i := SumWitness(s1, Roots(w));
      HeapTop(s1, i);
    }
    forall w: nat | Count(t, w) > 0 ensures x <= w {
      var i := SumWitness(s, Roots(w));
      HeapTop(s, i);
    }
    BesidesForks(t, x, y);
  }

  /** No tree over the roots of the heap, with the trees of the heap below it, is shorter
      than the tree that the greedy algorithm makes. */
  lemma {:induction false} GreedyOptimal(s: seq<Huff>, t: Weighted)
    requires IsHeap(s) && s != [] && Over(t, s) && Sum(s, UNWEIGHED) == 0
    ensures Length(Shape(Greedy(s)), 0) <= Sum(s, LENGTH) + Length(t, 0)
    decreases |s|
  {
    if |s| == 1 {
      assert s[..0] == [] && Sum(s, LENGTH) == Sum(s[..0], LENGTH) + LENGTH(s[0]);
    } else {
      var l, r := s[0], Popped(s)[0];
      JoinsLightest(t, s);
      var t' := Merge(t, l.n, r.n);
      JoinedHeap(s);
      JoinedLength(s);
      forall w: nat ensures Count(t', w) == Sum(Joined(s), Roots(w)) {
        JoinedSum(s, Roots(w));
      }
      GreedyOptimal(Joined(s), t');
    }
  }

  /** The weights at the leaves of `t` are the non-zero counts. */
  ghost predicate ForCounts(t: Weighted, counts: seq<nat>) {
    forall w: nat :: Count(t, w) == Times(counts, |counts|, w)
  }

  /** Among all full binary trees with the non-zero counts at their leaves, the Huffman
      tree has the least weighted path length. */
  lemma Optimal(counts: seq<nat>, t: Weighted)
    requires |counts| <= 256 && Occurring(counts) > 0 && ForCounts(t, counts)
    ensures ForCounts(Shape(Tree(counts)), counts)
    ensures Length(Shape(Tree(counts)), 0) <= Length(t, 0)
  {
    var s := Planted(counts, |counts|);
    assert counts[..|counts|] == counts;
    PlantedSize(counts, |counts|);
    forall w: nat
      ensures Count(t, w) == Sum(s, Roots(w)) && Count(Shape(Tree(counts)), w) == Times(counts, |counts|, w)
    {
      PlantedSums(counts, |counts|, w, 0);
      TreeContents(counts, w, 0);
    }
    PlantedSums(counts, |counts|, 0, 0);
    GreedyOptimal(s, t);
  }

  class HuffmanTree {
    const root: Huff

    /** Builds the tree from the counts of the bytes. */
    constructor (counts: seq<nat>)
      requires |counts| <= 256 && Occurring(counts) > 0
      ensures root == Tree(counts)
    {
      hide Sum, Popped, Pushed, Up, Down;
      var heap := new Heap();
      var i := 0;
      while i < |counts|
        invariant i <= |counts| && fresh(heap) && heap.heap == Planted(counts, i)
      {
        if counts[i] != 0 {
          heap.Push(Leaf(i, counts[i]));
        }
        i := i + 1;
      }
      assert counts[..|counts|] == counts;
      PlantedSize(counts, |counts|);
      var n := heap.Size();
      while n > 1
        invariant fresh(heap) && n == |heap.heap| > 0 && Greedy(heap.heap) == Tree(counts)
        decreases n
      {
        var left := heap.Top();
        heap.Pop();
        var right := heap.Top();
        heap.Pop();
        heap.Push(Node(left.n + right.n, left, right));
        n := heap.Size();
      }
      var top := heap.Top();
      root := top;
    }
  }
}
