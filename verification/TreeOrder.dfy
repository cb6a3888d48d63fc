/** The nodes of a tree in the order in which an iterator visits them. */
module TreeOrder {
  import opened TreeMemory
  import opened RedBlack

  /** The nodes of a tree; direction `R` is the ascending order, `L` the descending one. */
  ghost function Nodes(t: Tree, d: Dir): seq<Ptr> {
    if t.Leaf? then [] else Nodes(Sub(t, Other(d)), d) + [t.p] + Nodes(Sub(t, d), d)
  }

  /** The nodes that come after the end of a path. */
  ghost function Ahead(x: Path, d: Dir): seq<Ptr> {
    match x
    case Top => []
    case Frame(up, p, _, _, e, sib) => if e == d then Ahead(up, d) else [p] + Nodes(sib, d) + Ahead(up, d)
  }

  ghost function Behind(x: Path, d: Dir): seq<Ptr> {
    match x
    case Top => []
    case Frame(up, p, _, _, e, sib) => if e == d then Behind(up, d) + Nodes(sib, d) + [p] else Behind(up, d)
  }

  lemma Assoc(a: seq<Ptr>, i: seq<Ptr>, p: Ptr, s: seq<Ptr>, b: seq<Ptr>)
    ensures a + (i + [p] + s) + b == a + i + ([p] + s + b)
    ensures a + (s + [p] + i) + b == (a + s + [p]) + i + b
    ensures (i + [p] + s) + b == i + ([p] + s + b)
  {
  }

  lemma {:induction false} PlugNodes(x: Path, t: Tree, d: Dir)
    ensures Nodes(Plug(x, t), d) == Behind(x, d) + Nodes(t, d) + Ahead(x, d)
    decreases x
  {
    if x.Frame? {
      PlugNodes(x.up, Build(x.p, x.c, x.v, x.d, t, x.sib), d);
      Assoc(Behind(x.up, d), Nodes(t, d), x.p, Nodes(x.sib, d), Ahead(x.up, d));
    } else {
      assert [] + Nodes(t, d) + [] == Nodes(t, d);
    }
  }

  ghost predicate Distinct(s: seq<Ptr>) {
    forall i, j :: 0 <= i < j < |s| ==> s[i] != s[j]
  }

  lemma {:induction false} NodesSet(t: Tree, d: Dir, p: Ptr)
    ensures p in Nodes(t, d) <==> p in Ptrs(t)
    decreases t
  {
    if t.Node? {
      NodesSet(t.l, d, p);
      NodesSet(t.r, d, p);
    }
  }

  lemma DistinctJoin(a: seq<Ptr>, p: Ptr, b: seq<Ptr>)
    requires Distinct(a) && Distinct(b) && p !in a && p !in b && forall q :: q in a ==> q !in b
    ensures Distinct(a + [p] + b)
  {
    var s := a + [p] + b;
    forall i, j | 0 <= i < j < |s| ensures s[i] != s[j] {
      assert i < |a| ==> s[i] == a[i] && a[i] in a;
      assert j > |a| ==> s[j] == b[j - |a| - 1] && b[j - |a| - 1] in b;
      assert i > |a| ==> s[i] == b[i - |a| - 1];
      assert j < |a| ==> s[j] == a[j];
    }
  }

  lemma {:induction false} NodesDistinct(t: Tree, d: Dir)
    requires Sep(t)
    ensures Distinct(Nodes(t, d))
    decreases t
  {
    if t.Node? {
      NodesDistinct(t.l, d);
      NodesDistinct(t.r, d);
      var a, b := Sub(t, Other(d)), Sub(t, d);
      forall q ensures (q in Nodes(a, d) <==> q in Ptrs(a)) && (q in Nodes(b, d) <==> q in Ptrs(b)) {
        NodesSet(a, d, q);
        NodesSet(b, d, q);
      }
      DistinctJoin(Nodes(a, d), t.p, Nodes(b, d));
    }
  }

  /** The descending order is the ascending order backwards. */
  lemma {:induction false} Backwards(t: Tree, i: nat)
    requires i < |Nodes(t, R)|
    ensures |Nodes(t, L)| == |Nodes(t, R)| && Nodes(t, L)[i] == Nodes(t, R)[|Nodes(t, R)| - 1 - i]
    decreases t
  {
    NodesLength(t);
    NodesLength(t.l);
    NodesLength(t.r);
    var r := |Nodes(t.r, R)|;
    if i < r {
      Backwards(t.r, i);
    } else if i > r {
      Backwards(t.l, i - r - 1);
    }
  }

  lemma {:induction false} NodesLength(t: Tree)
    ensures |Nodes(t, L)| == |Nodes(t, R)| == |Inorder(t)|
    decreases t
  {
    if t.Node? {
      NodesLength(t.l);
      NodesLength(t.r);
    }
  }

  /** The values of the nodes, in ascending order. */
  lemma {:induction false} NodeValues(m: Memory, p: Ptr, parent: Ptr, t: Tree, i: nat)
    requires Rep(m, p, parent, t) && i < |Inorder(t)|
    ensures |Nodes(t, R)| == |Inorder(t)| && Nodes(t, R)[i] in m && m[Nodes(t, R)[i]].value == Inorder(t)[i]
    decreases t
  {
    NodesLength(t);
    NodesLength(t.l);
    NodesLength(t.r);
    var l := |Inorder(t.l)|;
    if i < l {
      NodeValues(m, m[p].left, p, t.l, i);
    } else if i > l {
      NodeValues(m, m[p].right, p, t.r, i - l - 1);
    }
  }

  /** The node after the one at index `i`, or none. */
  function Successor(s: seq<Ptr>, i: nat): Ptr {
    if i + 1 < |s| then s[i + 1] else NULL
  }

  function First(s: seq<Ptr>): Ptr {
    if s == [] then NULL else s[0]
  }

  /** `q` comes after `p` in the order of direction `d`. */
  ghost predicate Follows(t: Tree, d: Dir, p: Ptr, q: Ptr) {
    forall i :: 0 <= i < |Nodes(t, d)| && Nodes(t, d)[i] == p ==> q == Successor(Nodes(t, d), i)
  }

  lemma FollowsAt(x: Path, t: Tree, d: Dir, q: Ptr)
    requires t.Node? && Sep(Plug(x, t)) && q == First(Nodes(Sub(t, d), d) + Ahead(x, d))
    ensures Follows(Plug(x, t), d, t.p, q)
  {
    PlugNodes(x, t, d);
    NodesDistinct(Plug(x, t), d);
    var a, b := Behind(x, d) + Nodes(Sub(t, Other(d)), d), Nodes(Sub(t, d), d) + Ahead(x, d);
    Spread(Behind(x, d), Nodes(Sub(t, Other(d)), d), t.p, Nodes(Sub(t, d), d), Ahead(x, d));
    assert Nodes(Plug(x, t), d) == a + [t.p] + b;
    hide Nodes, Sep, Behind, Ahead, Distinct;
    forall i | 0 <= i < |Nodes(Plug(x, t), d)| && Nodes(Plug(x, t), d)[i] == t.p
      ensures q == Successor(Nodes(Plug(x, t), d), i)
    {
      OnlyAt(a, t.p, b, i);
    }
  }

  lemma Spread(a: seq<Ptr>, l: seq<Ptr>, p: Ptr, r: seq<Ptr>, b: seq<Ptr>)
    ensures a + (l + [p] + r) + b == (a + l) + [p] + (r + b)
  {
  }

  lemma OnlyAt(a: seq<Ptr>, p: Ptr, b: seq<Ptr>, i: nat)
    requires Distinct(a + [p] + b) && i < |a + [p] + b| && (a + [p] + b)[i] == p
    ensures Successor(a + [p] + b, i) == First(b)
  {
    assert (a + [p] + b)[|a|] == p;
    assert i == |a|;
  }

  /** The way to a node of a tree. */
  lemma {:induction false} Locate(m: Memory, root: Ptr, x: Path, t: Tree, q: Ptr, parent: Ptr, p: Ptr)
    returns (x': Path, t': Tree)
    requires At(m, root, x, t, q, parent) && p in Ptrs(t)
    ensures p in m && At(m, root, x', t', p, m[p].parent) && t'.Node? && t'.p == p && Plug(x', t') == Plug(x, t)
    decreases t
  {
    RepRootAt(m, root, x, t, q, parent);
    if p == t.p {
      Down(m, root, x, t, q, parent, L);
      return x, t;
    }
    var d := if p in Ptrs(t.l) then L else R;
    Down(m, root, x, t, q, parent, d);
    x', t' := Locate(m, root, Frame(x, q, t.c, t.v, d, Sub(t, Other(d))), Sub(t, d), Kid(m[q], d), q, p);
  }

  lemma RepRootAt(m: Memory, root: Ptr, x: Path, t: Tree, p: Ptr, parent: Ptr)
    requires At(m, root, x, t, p, parent)
    ensures t.Node? <==> p != NULL
    ensures t.Node? ==> p == t.p && p in m && m[p].parent == parent
  {
  }

  /** Going down against the direction does not change what is ahead. */
  lemma AheadDown(x: Path, t: Tree, d: Dir)
    requires t.Node?
    ensures
      var x' := Frame(x, t.p, t.c, t.v, Other(d), Sub(t, d));
      Nodes(Sub(t, Other(d)), d) + Ahead(x', d) == Nodes(t, d) + Ahead(x, d)
  {
    Assoc([], Nodes(Sub(t, Other(d)), d), t.p, Nodes(Sub(t, d), d), Ahead(x, d));
  }

  // ---------- checking the colours ----------

  /** The number of black nodes on the leftmost way. */
  function LeftBlack(t: Tree): nat {
    if t.Leaf? then 0 else Black(t.c) + LeftBlack(t.l)
  }

  lemma {:induction false} LeftBalanced(t: Tree, n: nat)
    requires Balanced(t, n)
    ensures n == LeftBlack(t)
    decreases t
  {
    if t.Node? {
      LeftBalanced(t.l, n - Black(t.c));
    }
  }
}
