/** Insertion into a red-black tree of linked nodes, and its iterators. */
module RbTree {
  import opened TreeMemory
  import opened RedBlack
  import opened TreeOrder

  /** The root of a subtree has a new parent. */
  lemma Reparent(m: Memory, m': Memory, p: Ptr, parent: Ptr, parent': Ptr, t: Tree)
    requires Rep(m, p, parent, t) && Sep(t)
    requires forall q :: q in Ptrs(t) && q != p && q in m ==> q in m' && m'[q] == m[q]
    requires p != NULL ==> p in m' && m'[p] == m[p].(parent := parent')
    ensures Rep(m', p, parent', t)
  {
    if t.Node? {
      RepFrame(m, m', m[p].left, p, t.l);
      RepFrame(m, m', m[p].right, p, t.r);
    }
  }

  /** The memory after a rotation at `p`, whose child `s` on the other side goes up. */
  ghost predicate RotatedMemory(m: Memory, root: Ptr, m': Memory, root': Ptr, d: Dir, p: Ptr, x: Path)
    requires p in m && Kid(m[p], Other(d)) in m
  {
    var s := Kid(m[p], Other(d));
    var b := Kid(m[s], d);
    && m'.Keys == m.Keys
    && m'[p] == WithKid(m[p].(parent := s), Other(d), b)
    && m'[s] == WithKid(m[s], d, p).(parent := m[p].parent)
    && (b != NULL ==> b in m && m'[b] == m[b].(parent := p))
    && (if x.Top? then root' == s else root' == root && x.p in m && m'[x.p] == WithKid(m[x.p], x.d, s))
    && forall q :: q in m && q != p && q != s && (b != NULL ==> q != b) && (x.Frame? ==> q != x.p) ==> m'[q] == m[q]
  }

  lemma RotateRep(m: Memory, root: Ptr, x: Path, t: Tree, d: Dir, p: Ptr, m': Memory, root': Ptr)
    requires p in m && At(m, root, x, t, p, m[p].parent) && t.Node? && Sub(t, Other(d)).Node?
      && Kid(m[p], Other(d)) in m
    requires RotatedMemory(m, root, m', root', d, p, x)
    ensures At(m', root', x, Rotated(t, d), Kid(m[p], Other(d)), m[p].parent)
  {
    hide RepPath, Sep, Ptrs, PathPtrs, SepPath, Rep;
    var s := Kid(m[p], Other(d));
    var S := Sub(t, Other(d));
    var A, B, C := Sub(t, d), Sub(S, d), Sub(S, Other(d));
    RotateKids(m, x, t, d, p);
    PathRoot(m, root, x, p, m[p].parent, t);
    RotatePtrs(t, d);
    RepFrame(m, m', Kid(m[p], d), p, A);
    RepFrame(m, m', Kid(m[s], Other(d)), s, C);
    Reparent(m, m', Kid(m[s], d), s, p, B);
    SetHole(m, root, x, p, m[p].parent, s, m', root');
    MakeNode(m', p, t.c, t.v, d, s, A, B);
    MakeNode(m', s, S.c, S.v, d, m[p].parent, Build(p, t.c, t.v, d, A, B), C);
  }

  lemma MakeNode(m: Memory, p: Ptr, c: Color, v: int, d: Dir, parent: Ptr, a: Tree, b: Tree)
    requires p != NULL && p in m && m[p].value == v && m[p].col == c && m[p].parent == parent
    requires Rep(m, Kid(m[p], d), p, a) && Rep(m, Kid(m[p], Other(d)), p, b)
    ensures Rep(m, p, parent, Build(p, c, v, d, a, b))
  {
  }

  /** The parts of a rotation are apart. */
  lemma RotateKids(m: Memory, x: Path, t: Tree, d: Dir, p: Ptr)
    requires p in m && Rep(m, p, m[p].parent, t) && SepAt(x, t) && t.Node? && Sub(t, Other(d)).Node?
    ensures
      var s := Kid(m[p], Other(d));
      var S := Sub(t, Other(d));
      var A, B, C := Sub(t, d), Sub(S, d), Sub(S, Other(d));
      && p != NULL && s != NULL && s in m && s != p && S.p == s && t.p == p
      && Rep(m, Kid(m[p], d), p, A) && Rep(m, Kid(m[s], d), s, B) && Rep(m, Kid(m[s], Other(d)), s, C) && Sep(B)
      && p !in Ptrs(A) && s !in Ptrs(A) && p !in Ptrs(B) && s !in Ptrs(B) && p !in Ptrs(C) && s !in Ptrs(C)
      && Ptrs(A) !! Ptrs(B) && Ptrs(B) !! Ptrs(C) && Ptrs(A) !! Ptrs(C)
      && (Kid(m[s], d) != NULL ==> Kid(m[s], d) in Ptrs(B))
      && Ptrs(A) !! PathPtrs(x) && Ptrs(B) !! PathPtrs(x) && Ptrs(C) !! PathPtrs(x) && p !in PathPtrs(x)
      && s !in PathPtrs(x)
      && m[p].value == t.v && m[p].col == t.c && m[s].value == S.v && m[s].col == S.c
  {
    var s := Kid(m[p], Other(d));
    NodeKids(m, p, m[p].parent, t, d);
    NodeKids(m, s, p, Sub(t, Other(d)), d);
    RepRoot(m, Kid(m[s], d), s, Sub(Sub(t, Other(d)), d));
    hide Rep, Sep, Ptrs, PathPtrs, SepPath;
  }

  /** The links below the rotated nodes have been changed. */
  ghost predicate Linked(m: Memory, m1: Memory, d: Dir, p: Ptr, s: Ptr, b: Ptr)
    requires p in m && s in m
  {
    m1 == var m2 := m[s := WithKid(m[s], d, p)][p := WithKid(m[p].(parent := s), Other(d), b)];
      if b in m2 then m2[b := m2[b].(parent := p)] else m2
  }

  /** The nodes in a rotation: `p`, the child `s` that goes up, its inner child `b`, and
      the parent `g` of `p`. */
  ghost predicate Four(m: Memory, d: Dir, p: Ptr, s: Ptr, b: Ptr, g: Ptr, x: Path) {
    && p in m && p != NULL && s != NULL && s in m && s != p && s == Kid(m[p], Other(d)) && b == Kid(m[s], d)
    && g == m[p].parent
    && (g == NULL <==> x.Top?)
    && (g != NULL ==> g == x.p && g in m && g != p && g != s && Kid(m[g], x.d) == p && Kid(m[g], Other(x.d)) != p)
    && (b != NULL ==> b in m && b != p && b != s && b != g) && NULL !in m
  }

  lemma AttachReady(m: Memory, m1: Memory, d: Dir, p: Ptr, s: Ptr, b: Ptr, g: Ptr, x: Path)
    requires Four(m, d, p, s, b, g, x) && Linked(m, m1, d, p, s, b)
    ensures m1.Keys == m.Keys && (g != NULL ==> m1[g] == m[g]) && m1[p] == WithKid(m[p].(parent := s), Other(d), b)
    ensures m1[s] == WithKid(m[s], d, p) && (b != NULL ==> m1[b] == m[b].(parent := p))
    ensures forall q :: q in m && q != p && q != s && (b != NULL ==> q != b) ==> m1[q] == m[q]
  {
  }

  lemma RotatedParts(m: Memory, root: Ptr, m1: Memory, m': Memory, root': Ptr, d: Dir, p: Ptr, s: Ptr, b: Ptr, g: Ptr,
                     x: Path)
    requires Four(m, d, p, s, b, g, x) && Linked(m, m1, d, p, s, b)
    requires m'.Keys == m1.Keys && s in m1 && m'[s] == m1[s].(parent := g)
    requires
      if g == NULL then root' == s
      else root' == root && g in m1 && m'[g] == WithKid(m1[g], if x.Frame? then x.d else d, s)
    requires forall q :: q in m' && q != s && q != g ==> m'[q] == m1[q]
    ensures RotatedMemory(m, root, m', root', d, p, x)
  {
    AttachReady(m, m1, d, p, s, b, g, x);
    hide Linked;
  }

  /** A node changes its colour. */
  lemma ColorAt(m: Memory, root: Ptr, x: Path, t: Tree, q: Ptr, parent: Ptr, c: Color)
    requires At(m, root, x, t, q, parent) && q != NULL
    ensures t.Node? && q in m && At(m[q := m[q].(col := c)], root, x, t.(c := c), q, parent)
  {
    var m' := m[q := m[q].(col := c)];
    NodeKids(m, q, parent, t, L);
    RepFrame(m, m', m[q].left, q, t.l);
    RepFrame(m, m', m[q].right, q, t.r);
    PathFrame(m, m', root, x, q, parent);
  }

  lemma RecolorPtrs(x: Path, t: Tree)
    requires x.Frame? && x.up.Frame? && x.up.sib.Node?
    ensures PathPtrs(x.up.up) + Ptrs(Recolored(x, t)) == PathPtrs(x) + Ptrs(t)
  {
    var u, P := x.up.sib, Build(x.p, BLACK, x.v, x.d, t, x.sib);
    BuildPtrs(x.p, BLACK, x.v, x.d, t, x.sib);
    BuildPtrs(x.up.p, RED, x.up.v, x.up.d, P, u.(c := BLACK));
    assert Ptrs(u.(c := BLACK)) == Ptrs(u);
  }

  /** A tree and the path to it, as a whole. */
  lemma WholeTree(m: Memory, root: Ptr, x: Path, t: Tree, q: Ptr, parent: Ptr)
    requires At(m, root, x, t, q, parent)
    ensures Rep(m, root, NULL, Plug(x, t)) && Sep(Plug(x, t)) && Ptrs(Plug(x, t)) == PathPtrs(x) + Ptrs(t)
  {
    PlugRep(m, root, x, t, q, parent);
    PlugSep(x, t);
    PlugPtrs(x, t);
  }

  /** The nodes whose links a rotation changes are different. */
  lemma RotateApart(m: Memory, root: Ptr, x: Path, t: Tree, d: Dir, p: Ptr)
    requires p in m && At(m, root, x, t, p, m[p].parent) && t.Node? && Sub(t, Other(d)).Node?
    ensures
      var s, g := Kid(m[p], Other(d)), m[p].parent;
      && p != NULL && s != NULL && s in m && s != p
      && (g == NULL <==> x.Top?)
      && (g != NULL ==> g == x.p && g in m && g != p && g != s && Kid(m[g], x.d) == p && Kid(m[g], Other(x.d)) != p)
      && (Kid(m[s], d) != NULL ==> Kid(m[s], d) in m && Kid(m[s], d) != p && Kid(m[s], d) != s && Kid(m[s], d) != g)
  {
    var s := Kid(m[p], Other(d));
    RotateKids(m, x, t, d, p);
    PathRoot(m, root, x, p, m[p].parent, t);
    RepIn(m, Kid(m[s], d), s, Sub(Sub(t, Other(d)), d));
    hide Rep, RepPath, Sep, SepPath, Ptrs, PathPtrs;
  }

  /** A node with its two subtrees. */
  lemma NodeKids(m: Memory, p: Ptr, parent: Ptr, t: Tree, d: Dir)
    requires Rep(m, p, parent, t) && Sep(t) && t.Node?
    ensures t.p == p && p != NULL && p in m && m[p].value == t.v && m[p].col == t.c && m[p].parent == parent
    ensures
      var A, B := Sub(t, d), Sub(t, Other(d));
      && Rep(m, Kid(m[p], d), p, A) && Rep(m, Kid(m[p], Other(d)), p, B) && Sep(A) && Sep(B)
      && p !in Ptrs(A) && p !in Ptrs(B) && Ptrs(A) !! Ptrs(B) && Ptrs(t) == {p} + Ptrs(A) + Ptrs(B)
      && (B.Node? ==> Kid(m[p], Other(d)) != NULL)
  {
  }

  class RbTree {
    var root: Ptr
    var mem: Memory
    var next: Ptr
    ghost var tree: Tree

    ghost predicate Valid()
      reads this
    {
      && Rep(mem, root, NULL, tree) && Sep(tree) && mem.Keys == Ptrs(tree)
      && Sorted(Inorder(tree)) && IsRedBlack(tree)
      && next != NULL && forall p :: p in mem ==> p < next
    }

    constructor ()
      ensures Valid() && Inorder(tree) == []
    {
      root, mem, next, tree := NULL, map[], 1, Leaf;
      new;
      assert Balanced(Leaf, 0);
    }

    /** Rotates the tree at `p` in direction `d`: the child on the other side goes up. The
        two rotations of the source are mirror images. */
    method Rotate(d: Dir, p: Ptr, ghost x: Path, ghost t: Tree)
      requires p in mem && At(mem, root, x, t, p, mem[p].parent) && t.Node? && Sub(t, Other(d)).Node? && NULL !in mem
      modifies this`root, this`mem
      ensures mem.Keys == old(mem).Keys && p in mem && Kid(old(mem)[p], Other(d)) in mem
      ensures At(mem, root, x, Rotated(t, d), Kid(old(mem)[p], Other(d)), old(mem)[p].parent)
    {
      RotateApart(mem, root, x, t, d, p);
      hide At, Rep, RepPath, Sep, SepPath, Ptrs, PathPtrs, Rotated, WithKid, Other, Sub;
      var s := Kid(mem[p], Other(d));
      var b := Kid(mem[s], d);
      mem := mem[s := WithKid(mem[s], d, p)];
      var grandfather := mem[p].parent;
      mem := mem[p := WithKid(mem[p].(parent := s), Other(d), b)];
      if b != NULL {
        mem := mem[b := mem[b].(parent := p)];
      }
      ghost var m1 := mem;
      AttachReady(old(mem), m1, d, p, s, b, grandfather, x);
      Attach(s, p, grandfather, if x.Frame? then x.d else d);
      RotatedParts(old(mem), old(root), m1, mem, root, d, p, s, b, grandfather, x);
      RotateRep(old(mem), old(root), x, t, d, p, mem, root);
    }

    /** Puts `s` in the place of `p` under `grandfather`, or at the root. */
    method Attach(s: Ptr, p: Ptr, grandfather: Ptr, ghost d: Dir)
      requires s in mem && (grandfather != NULL ==> grandfather in mem && grandfather != s)
      requires grandfather != NULL ==> Kid(mem[grandfather], d) == p && Kid(mem[grandfather], Other(d)) != p
      modifies this`root, this`mem
      ensures mem.Keys == old(mem).Keys && mem[s] == old(mem)[s].(parent := grandfather)
      ensures if grandfather == NULL then root == s
        else root == old(root) && mem[grandfather] == WithKid(old(mem)[grandfather], d, s)
      ensures forall q :: q in mem && q != s && q != grandfather ==> mem[q] == old(mem)[q]
    {
      if grandfather == NULL {
        root := s;
        mem := mem[s := mem[s].(parent := NULL)];
      } else {
        if mem[grandfather].left == p {
          mem := mem[grandfather := mem[grandfather].(left := s)];
        } else {
          mem := mem[grandfather := mem[grandfather].(right := s)];
        }
        mem := mem[s := mem[s].(parent := grandfather)];
      }
    }

    // ---------- insertion ----------

    /** What a step of the repair works on: the red tree `t` at the end of path `x` is the
        only fault of a tree with the values `values`. */
    ghost predicate Repairing(x: Path, t: Tree, cur: Ptr, parent: Ptr, n: nat, total: nat, values: seq<int>)
      reads this`mem, this`root
    {
      At(mem, root, x, t, cur, parent) && Fault(x, t, n, total) && Inorder(Plug(x, t)) == values
        && mem.Keys == PathPtrs(x) + Ptrs(t)
    }

    /** The tree `t` has no fault left, except that its root may be red. */
    ghost predicate Repaired(t: Tree, total: nat, values: seq<int>)
      reads this`mem, this`root
    {
      Rep(mem, root, NULL, t) && Sep(t) && NoRed(t) && Balanced(t, total) && Inorder(t) == values && mem.Keys == Ptrs(t)
    }

    lemma ParentFacts(x: Path, t: Tree, cur: Ptr, parent: Ptr, n: nat, total: nat, values: seq<int>)
      requires Repairing(x, t, cur, parent, n, total, values)
      ensures At(mem, root, x, t, cur, parent) && Fault(x, t, n, total) && Inorder(Plug(x, t)) == values
        && mem.Keys == PathPtrs(x) + Ptrs(t)
      ensures x.Frame? && parent == x.p && parent != NULL && parent in mem && mem[parent].col == x.c
        && mem[parent].value == x.v
      ensures Kid(mem[parent], x.d) == cur && cur != NULL && t.Node? && cur in mem
    {
      Up(mem, root, x, t, cur, parent);
      RepRoot(mem, cur, parent, t);
    }

    lemma GrandFacts(x: Path, t: Tree, cur: Ptr, parent: Ptr, n: nat, total: nat, values: seq<int>)
      requires Repairing(x, t, cur, parent, n, total, values) && x.c == RED
      ensures x.up.Frame? && parent in mem
      ensures
        var g := mem[parent].parent;
        && g == x.up.p && g != NULL && g in mem && (mem[g].left == parent <==> x.up.d == L)
        && Kid(mem[g], x.up.d) == parent
        && mem[g].parent == (if x.up.up.Top? then NULL else x.up.up.p)
        && (mem[g].parent != NULL ==> mem[g].parent in mem && mem[mem[g].parent].col == x.up.up.c)
      ensures
        var u := Kid(mem[x.up.p], Other(x.up.d));
        (u == NULL <==> x.up.sib.Leaf?) && (u != NULL ==> u in mem && mem[u].col == x.up.sib.c)
    {
      ParentFacts(x, t, cur, parent, n, total, values);
      Grandparent(x, t, n, total);
      var P := Build(x.p, x.c, x.v, x.d, t, x.sib);
      Up(mem, root, x, t, cur, parent);
      PathRoot(mem, root, x.up, parent, mem[parent].parent, P);
      Up(mem, root, x.up, P, parent, mem[parent].parent);
      var g := mem[parent].parent;
      var G := Build(x.up.p, x.up.c, x.up.v, x.up.d, P, x.up.sib);
      PathRoot(mem, root, x.up.up, g, mem[g].parent, G);
      if mem[g].parent != NULL {
        Up(mem, root, x.up.up, G, g, mem[g].parent);
      }
      RepRoot(mem, Kid(mem[g], Other(x.up.d)), g, x.up.sib);
    }

    /** After the recolouring the fault is gone, or it is two levels higher. */
    lemma RecolorDone(x: Path, t: Tree, g: Ptr, gp: Ptr, n: nat, total: nat, values: seq<int>)
      requires Fault(x, t, n, total) && x.c == RED && x.up.Frame? && x.up.sib.Node? && x.up.sib.c == RED
      requires At(mem, root, x.up.up, Recolored(x, t), g, gp) && Inorder(Plug(x, t)) == values
        && mem.Keys == PathPtrs(x) + Ptrs(t)
      ensures Inorder(Plug(x.up.up, Recolored(x, t))) == values
      ensures x.up.up.Frame? ==> Repairing(x.up.up, Recolored(x, t), g, gp, n + 1, total, values)
      ensures x.up.up.Top? ==> Repaired(Plug(x.up.up, Recolored(x, t)), total, values)
    {
      RecolorFault(x, t, n, total);
      RecolorOrder(x, t);
      RecolorPtrs(x, t);
      if x.up.up.Top? {
        WholeTree(mem, root, x.up.up, Recolored(x, t), g, gp);
      }
    }

    method SetColor(p: Ptr, c: Color)
      requires p in mem
      modifies this`mem
      ensures mem == old(mem)[p := old(mem)[p].(col := c)] && mem.Keys == old(mem).Keys
    {
      mem := mem[p := mem[p].(col := c)];
    }

    /** The parent and the uncle are red: they become black, the grandparent red. */
    method Recolor(parent: Ptr, uncle: Ptr, grandfather: Ptr, cur: Ptr, ghost x: Path, ghost t: Tree, ghost n: nat,
                   ghost total: nat, ghost values: seq<int>)
      requires Repairing(x, t, cur, parent, n, total, values) && parent in mem && mem[parent].col == RED && x.up.Frame?
      requires grandfather == mem[parent].parent && grandfather in mem && uncle == Kid(mem[grandfather], Other(x.up.d))
      requires uncle != NULL && uncle in mem && mem[uncle].col == RED
      modifies this`mem
      ensures mem.Keys == old(mem).Keys && x.up.sib.Node? && grandfather in mem
        && mem[grandfather].parent == old(mem)[grandfather].parent
      ensures
        var g := Recolored(x, t);
        && At(mem, root, x.up.up, g, grandfather, mem[grandfather].parent) && Inorder(Plug(x.up.up, g)) == values
        && (x.up.up.Frame? ==> Repairing(x.up.up, g, grandfather, mem[grandfather].parent, n + 1, total, values))
        && (x.up.up.Top? ==> Repaired(Plug(x.up.up, g), total, values))
    {
      hide At, Fault, Repairing, Repaired, NoRed, Balanced, Inorder;
      ghost var m0, root0 := mem, root;
      ParentFacts(x, t, cur, parent, n, total, values);
      GrandFacts(x, t, cur, parent, n, total, values);
      Up(mem, root, x, t, cur, parent);
      ghost var P := Build(x.p, x.c, x.v, x.d, t, x.sib);
      ColorAt(mem, root, x.up, P, parent, grandfather, BLACK);
      SetColor(parent, BLACK);
      ghost var P' := Build(x.p, BLACK, x.v, x.d, t, x.sib);
      Up(mem, root, x.up, P', parent, grandfather);
      ghost var G, gp := Build(x.up.p, x.up.c, x.up.v, x.up.d, P', x.up.sib), mem[grandfather].parent;
      Down(mem, root, x.up.up, G, grandfather, gp, Other(x.up.d));
      ghost var y := Frame(x.up.up, grandfather, G.c, G.v, Other(x.up.d), P');
      ColorAt(mem, root, y, x.up.sib, uncle, grandfather, BLACK);
      SetColor(uncle, BLACK);
      Up(mem, root, y, x.up.sib.(c := BLACK), uncle, grandfather);
      ghost var G' := Build(x.up.p, x.up.c, x.up.v, x.up.d, P', x.up.sib.(c := BLACK));
      assert Build(y.p, y.c, y.v, y.d, x.up.sib.(c := BLACK), y.sib) == G';
      ColorAt(mem, root, x.up.up, G', grandfather, gp, RED);
      SetColor(grandfather, RED);
      RecolorDone(x, t, grandfather, gp, n, total, values);
    }

    /** An inner child is rotated up and becomes the parent of its old parent. */
    method RotateInner(d: Dir, cur: Ptr, parent: Ptr, ghost x: Path, ghost t: Tree, ghost n: nat, ghost total: nat,
                       ghost values: seq<int>)
      returns (ghost x': Path, ghost t': Tree)
      requires Repairing(x, t, cur, parent, n, total, values) && x.c == RED && x.up.Frame? && x.up.d == d
        && x.d == Other(d)
      requires parent in mem && NULL !in mem
      modifies this`mem, this`root
      ensures mem.Keys == old(mem).Keys && Repairing(x', t', parent, cur, n, total, values)
      ensures x'.Frame? && x'.d == d && x'.up == x.up && x'.c == RED
    {
      hide At, Fault, NoRed, Balanced, Inorder, Repairing;
      ParentFacts(x, t, cur, parent, n, total, values);
      GrandFacts(x, t, cur, parent, n, total, values);
      RepRootAt(mem, root, x, t, cur, parent);
      ghost var P := Build(x.p, x.c, x.v, x.d, t, x.sib);
      ghost var g := mem[parent].parent;
      Up(mem, root, x, t, cur, parent);
      Rotate(d, parent, x.up, P);
      x', t' := Frame(x.up, t.p, RED, t.v, d, Sub(t, Other(d))), Build(x.p, RED, x.v, d, x.sib, Sub(t, d));
      InnerDone(x, t, d, cur, parent, g, n, total, values);
    }

    lemma InnerDone(x: Path, t: Tree, d: Dir, cur: Ptr, parent: Ptr, g: Ptr, n: nat, total: nat, values: seq<int>)
      requires Fault(x, t, n, total) && x.c == RED && x.up.Frame? && x.up.d == d && x.d == Other(d) && parent == x.p
        && cur != NULL
      requires At(mem, root, x.up, Rotated(Build(x.p, x.c, x.v, x.d, t, x.sib), d), cur, g) && cur == t.p
      requires Inorder(Plug(x, t)) == values && mem.Keys == PathPtrs(x) + Ptrs(t)
      ensures Repairing(Frame(x.up, t.p, RED, t.v, d, Sub(t, Other(d))), Build(x.p, RED, x.v, d, x.sib, Sub(t, d)),
        parent, cur, n, total, values)
    {
      var P := Build(x.p, x.c, x.v, x.d, t, x.sib);
      var R := Rotated(P, d);
      var x', t' := Frame(x.up, t.p, RED, t.v, d, Sub(t, Other(d))), Build(x.p, RED, x.v, d, x.sib, Sub(t, d));
      InnerFault(x, t, n, total, d);
      RotateOrder(P, d);
      PlugOrder(x.up, P);
      PlugOrder(x.up, R);
      RotatePtrs(P, d);
      PlugPtrs(x.up, P);
      PlugPtrs(x.up, R);
      PlugPtrs(x, t);
      PlugPtrs(x', t');
      hide Fault, Inorder, PathPtrs, Ptrs, Before, After, Rep, Sep, SepPath;
      Down(mem, root, x.up, R, cur, g, d);
      RepRootPtr(mem, Kid(mem[cur], d), cur, t');
    }

    /** The grandparent is rotated down; its place is taken by the parent, which becomes
        black. */
    method RotateOuter(d: Dir, cur: Ptr, parent: Ptr, grandfather: Ptr, ghost x: Path, ghost t: Tree, ghost n: nat,
                       ghost total: nat, ghost values: seq<int>)
      requires Repairing(x, t, cur, parent, n, total, values) && x.c == RED && x.up.Frame? && x.up.d == d && x.d == d
      requires parent in mem && grandfather == mem[parent].parent && grandfather in mem
        && RootColor(x.up.sib) == BLACK && NULL !in mem
      modifies this`mem, this`root
      ensures mem.Keys == old(mem).Keys && parent in mem && mem[parent].col == BLACK
      ensures Repaired(Plug(x.up.up, Lifted(x, t)), total, values)
    {
      hide At, Fault, NoRed, Balanced, Inorder, Repairing, Repaired;
      ParentFacts(x, t, cur, parent, n, total, values);
      GrandFacts(x, t, cur, parent, n, total, values);
      ghost var P := Build(x.p, x.c, x.v, x.d, t, x.sib);
      ghost var G := Build(x.up.p, x.up.c, x.up.v, x.up.d, P, x.up.sib);
      ghost var gp := mem[grandfather].parent;
      Up(mem, root, x, t, cur, parent);
      Up(mem, root, x.up, P, parent, grandfather);
      Rotate(Other(d), grandfather, x.up.up, G);
      OuterFault(x, t, n, total);
      ghost var R := Build(x.p, RED, x.v, x.d, t, Build(x.up.p, BLACK, x.up.v, x.d, x.sib, x.up.sib));
      ColorAt(mem, root, x.up.up, R, parent, gp, BLACK);
      SetColor(parent, BLACK);
      ghost var R' := Build(x.p, BLACK, x.v, x.d, t, Build(x.up.p, BLACK, x.up.v, x.d, x.sib, x.up.sib));
      assert R.(c := BLACK) == R';
      Down(mem, root, x.up.up, R', parent, gp, Other(d));
      ghost var y := Frame(x.up.up, parent, BLACK, x.v, Other(d), t);
      ghost var g := Build(x.up.p, BLACK, x.up.v, x.d, x.sib, x.up.sib);
      RepRootAt(mem, root, y, g, Kid(mem[parent], Other(d)), parent);
      ColorAt(mem, root, y, g, grandfather, parent, RED);
      SetColor(grandfather, RED);
      Up(mem, root, y, g.(c := RED), grandfather, parent);
      assert Build(y.p, y.c, y.v, y.d, g.(c := RED), y.sib) == Lifted(x, t);
      OuterDone(x, t, parent, gp, n, total, values);
    }

    lemma OuterDone(x: Path, t: Tree, parent: Ptr, gp: Ptr, n: nat, total: nat, values: seq<int>)
      requires Fault(x, t, n, total) && x.c == RED && x.up.Frame? && x.up.d == x.d && RootColor(x.up.sib) == BLACK
      requires At(mem, root, x.up.up, Lifted(x, t), parent, gp) && Inorder(Plug(x, t)) == values
        && mem.Keys == PathPtrs(x) + Ptrs(t)
      ensures Repaired(Plug(x.up.up, Lifted(x, t)), total, values)
    {
      var G := Build(x.up.p, x.up.c, x.up.v, x.up.d, Build(x.p, x.c, x.v, x.d, t, x.sib), x.up.sib);
      OuterFault(x, t, n, total);
      RotateOrder(G, Other(x.d));
      LiftedOrder(x, t);
      PlugOrder(x.up.up, G);
      PlugOrder(x.up.up, Lifted(x, t));
      RotatePtrs(G, Other(x.d));
      PlugPtrs(x.up.up, G);
      PlugPtrs(x, t);
      hide Fault, Inorder, PathPtrs, Ptrs, Before, After, Rep, Sep, SepPath, At;
      WholeTree(mem, root, x.up.up, Lifted(x, t), parent, gp);
    }

    /** Repairs a red node with a red parent, upwards from `cur0`. */
    method Repair(cur0: Ptr, parent0: Ptr, ghost x0: Path, ghost t0: Tree, ghost n0: nat, ghost total: nat,
                  ghost values: seq<int>)
      returns (ghost whole: Tree)
      requires Repairing(x0, t0, cur0, parent0, n0, total, values) && NULL !in mem
      modifies this`mem, this`root
      ensures Repaired(whole, total, values) && mem.Keys == old(mem).Keys
    {
      hide At, Fault, NoRed, Balanced, Inorder, Repairing, Repaired, Rep;
      var cur, parent := cur0, parent0;
      ghost var x, t, n := x0, t0, n0;
      ghost var done := false;
      whole := Leaf;
      ParentFacts(x, t, cur, parent, n, total, values);
      while parent != NULL && mem[parent].col == RED
        invariant mem.Keys == old(mem).Keys && (parent != NULL ==> parent in mem)
        invariant if done then parent != NULL && mem[parent].col == BLACK && Repaired(whole, total, values)
          else Repairing(x, t, cur, parent, n, total, values) && parent != NULL && x.Frame? && mem[parent].col == x.c
        decreases !done, x
      {
        GrandFacts(x, t, cur, parent, n, total, values);
        var grandfather := mem[parent].parent;
        var d := if parent == mem[grandfather].left then L else R;
        var uncle := Kid(mem[grandfather], Other(d));
        if uncle != NULL && mem[uncle].col == RED {
          Recolor(parent, uncle, grandfather, cur, x, t, n, total, values);
          ghost var g := Recolored(x, t);
          if mem[grandfather].parent != NULL && mem[mem[grandfather].parent].col == RED {
            assert x.up.up.Frame?;
            cur := grandfather;
            parent := mem[cur].parent;
            x, t, n := x.up.up, g, n + 1;
            ParentFacts(x, t, cur, parent, n, total, values);
          } else {
            whole := Plug(x.up.up, g);
            if x.up.up.Frame? {
              ParentFacts(x.up.up, g, grandfather, mem[grandfather].parent, n + 1, total, values);
              FinishRecolor(x.up.up, g, grandfather, mem[grandfather].parent, n + 1, total, values);
            }
            return;
          }
        } else {
          if cur == Kid(mem[parent], Other(d)) {
            InnerKid(x, t, cur, parent, n, total, values, d);
            ghost var x', t' := RotateInner(d, cur, parent, x, t, n, total, values);
            x, t := x', t';
            parent, cur := cur, parent;
            ParentFacts(x, t, cur, parent, n, total, values);
            GrandFacts(x, t, cur, parent, n, total, values);
          } else {
            OuterKid(x, t, cur, parent, n, total, values, d);
          }
          RotateOuter(d, cur, parent, grandfather, x, t, n, total, values);
          whole := Plug(x.up.up, Lifted(x, t));
          done := true;
        }
      }
      if !done {
        NoFaultHere(x, t, cur, parent, n, total, values);
        whole := Plug(x, t);
      }
    }

    lemma FinishRecolor(x: Path, t: Tree, cur: Ptr, parent: Ptr, n: nat, total: nat, values: seq<int>)
      requires Repairing(x, t, cur, parent, n, total, values) && x.c == BLACK
      ensures Repaired(Plug(x, t), total, values)
    {
      NoFaultHere(x, t, cur, parent, n, total, values);
    }

    lemma NoFaultHere(x: Path, t: Tree, cur: Ptr, parent: Ptr, n: nat, total: nat, values: seq<int>)
      requires Repairing(x, t, cur, parent, n, total, values) && x.c == BLACK
      ensures Repaired(Plug(x, t), total, values)
    {
      NoFault(x, t, n, total);
      WholeTree(mem, root, x, t, cur, parent);
    }

    /** On which side of its parent `cur` is. */
    lemma InnerKid(x: Path, t: Tree, cur: Ptr, parent: Ptr, n: nat, total: nat, values: seq<int>, d: Dir)
      requires Repairing(x, t, cur, parent, n, total, values) && parent in mem && cur == Kid(mem[parent], Other(d))
      ensures x.d == Other(d)
    {
      PathRoot(mem, root, x, cur, parent, t);
    }

    lemma OuterKid(x: Path, t: Tree, cur: Ptr, parent: Ptr, n: nat, total: nat, values: seq<int>, d: Dir)
      requires Repairing(x, t, cur, parent, n, total, values) && parent in mem && cur != Kid(mem[parent], Other(d))
      ensures x.d == d
    {
      PathRoot(mem, root, x, cur, parent, t);
    }

    /** The search for `value` has come to the tree `t` at the end of path `x`. */
    ghost predicate Searching(x: Path, t: Tree, cur: Ptr, parent: Ptr, value: int, n: nat, total: nat)
      reads this
    {
      && At(mem, root, x, t, cur, parent) && Plug(x, t) == tree && mem.Keys == PathPtrs(x) + Ptrs(t)
      && NoRed(t) && PathOk(x, RootColor(t)) && Balanced(t, n) && PathBalanced(x, n, total)
      && (if x.Frame? then TopBlack(x) && parent == x.p && (x.d == R <==> value > x.v) else RootColor(t) == BLACK)
      && (forall w :: w in Before(x) ==> w < value) && (forall w :: w in After(x) ==> value < w)
    }

    /** The search goes on to one side. */
    lemma SearchDown(x: Path, t: Tree, cur: Ptr, parent: Ptr, value: int, n: nat, total: nat, d: Dir)
      requires Valid() && Searching(x, t, cur, parent, value, n, total) && cur != NULL
      requires cur in mem && (if d == R then value > mem[cur].value else value < mem[cur].value)
      ensures t.Node? && t.v == mem[cur].value && n >= Black(t.c)
      ensures Searching(Frame(x, cur, t.c, t.v, d, Sub(t, Other(d))), Sub(t, d), Kid(mem[cur], d), cur, value,
        n - Black(t.c), total)
    {
      var x' := Frame(x, cur, t.c, t.v, d, Sub(t, Other(d)));
      Down(mem, root, x, t, cur, parent, d);
      DownOk(x, cur, t, n, total, d);
      TopDown(x, cur, t, d);
      BuildPtrs(t.p, t.c, t.v, d, Sub(t, d), Sub(t, Other(d)));
      RepRootPtr(mem, cur, parent, t);
      assert t == Build(t.p, t.c, t.v, d, Sub(t, d), Sub(t, Other(d)));
      PlugOrder(x, t);
      hide At, Valid, NoRed, PathOk, Balanced, PathBalanced, TopBlack, Plug;
      SideOrder(tree, x, t, value, d);
    }

    lemma SearchStart(value: int, total: nat)
      requires Valid() && Balanced(tree, total)
      ensures Searching(Top, tree, root, NULL, value, total, total)
    {
    }

    /** A value that the search has met is in the tree; at a leaf it is not. */
    lemma SearchEnd(x: Path, t: Tree, cur: Ptr, parent: Ptr, value: int, n: nat, total: nat)
      requires Valid() && Searching(x, t, cur, parent, value, n, total)
      ensures cur != NULL ==> cur in mem && (mem[cur].value == value ==> value in Inorder(tree))
      ensures cur == NULL ==> value !in Inorder(tree) && t == Leaf && n == 0
    {
      PlugOrder(x, t);
      RepRoot(mem, cur, parent, t);
      if cur != NULL {
        Down(mem, root, x, t, cur, parent, L);
      }
      hide At, NoRed, PathOk, PathBalanced, TopBlack, Plug;
    }

    /** The first node of a tree is its black root. */
    method InsertRoot(value: int)
      requires Valid() && root == NULL
      modifies this
      ensures Valid() && Inorder(tree) == [value]
    {
      RepRoot(mem, root, NULL, tree);
      mem := mem[next := Cell(value, RED, NULL, NULL, NULL)];
      root := next;
      mem := mem[root := mem[root].(col := BLACK)];
      tree := Node(next, BLACK, value, Leaf, Leaf);
      next := next + 1;
      assert Balanced(tree, 1);
    }

    /** Searches for a value; when it is not there, `parent` is where it belongs. */
    method Descend(value: int, ghost total: nat) returns (found: bool, parent: Ptr, ghost x: Path)
      requires Valid() && root != NULL && Balanced(tree, total)
      ensures found == (value in Inorder(tree))
      ensures !found ==> x.Frame? && Searching(x, Leaf, NULL, parent, value, 0, total)
    {
      hide Valid, Searching, NoRed, Balanced, Inorder;
      var cur := root;
      parent := NULL;
      ghost var t, n: nat := tree, total;
      x := Top;
      SearchStart(value, total);
      while cur != NULL
        invariant Searching(x, t, cur, parent, value, n, total) && (cur == NULL ==> x.Frame?)
        decreases t
      {
        SearchEnd(x, t, cur, parent, value, n, total);
        ghost var up := parent;
        parent := cur;
        if value > mem[cur].value {
          SearchDown(x, t, cur, up, value, n, total, R);
          x, t, n := Frame(x, cur, t.c, t.v, R, t.l), t.r, n - Black(t.c);
          cur := mem[cur].right;
        } else if value < mem[cur].value {
          SearchDown(x, t, cur, up, value, n, total, L);
          x, t, n := Frame(x, cur, t.c, t.v, L, t.r), t.l, n - Black(t.c);
          cur := mem[cur].left;
        } else {
          return true, parent, x;
        }
      }
      SearchEnd(x, t, cur, parent, value, n, total);
      found := false;
    }

    /** Links a new red node under its parent. */
    method Link(value: int, parent: Ptr, ghost x: Path, ghost total: nat) returns (cur: Ptr, ghost t: Tree)
      requires Valid() && x.Frame? && Searching(x, Leaf, NULL, parent, value, 0, total)
      modifies this`mem, this`next
      ensures Repairing(x, t, cur, parent, 0, total, Before(x) + [value] + After(x)) && parent in mem
        && mem[parent].col == x.c
      ensures cur == old(next) && mem.Keys == old(mem).Keys + {cur} && next == cur + 1
    {
      LinkReady(x, parent, value, total);
      hide Valid, Searching, At, Fault, Repairing;
      cur := next;
      t := Node(cur, RED, value, Leaf, Leaf);
      mem := mem[cur := Cell(value, RED, NULL, NULL, NULL)];
      mem := mem[cur := mem[cur].(parent := parent)];
      if value > mem[parent].value {
        mem := mem[parent := mem[parent].(right := cur)];
      } else {
        mem := mem[parent := mem[parent].(left := cur)];
      }
      next := next + 1;
      LinkAt(old(mem), root, x, parent, value, cur, mem);
      LinkDone(x, value, cur, parent, total);
    }

    lemma LinkReady(x: Path, parent: Ptr, value: int, total: nat)
      requires Valid() && x.Frame? && Searching(x, Leaf, NULL, parent, value, 0, total)
      ensures At(mem, root, x, Leaf, NULL, parent) && mem.Keys == PathPtrs(x) && next !in mem && next != NULL
      ensures parent in mem && mem[parent].value == x.v && (x.d == R <==> value > x.v)
      ensures PathOk(x, BLACK) && PathBalanced(x, 0, total) && TopBlack(x)
    {
    }

    lemma LinkDone(x: Path, value: int, cur: Ptr, parent: Ptr, total: nat)
      requires x.Frame? && At(mem, root, x, Node(cur, RED, value, Leaf, Leaf), cur, parent)
        && mem.Keys == PathPtrs(x) + {cur}
      requires PathOk(x, BLACK) && PathBalanced(x, 0, total) && TopBlack(x)
      ensures Repairing(x, Node(cur, RED, value, Leaf, Leaf), cur, parent, 0, total, Before(x) + [value] + After(x))
      ensures parent in mem && mem[parent].col == x.c
    {
      var t := Node(cur, RED, value, Leaf, Leaf);
      PlugOrder(x, t);
      assert Inorder(t) == [] + [value] + [] == [value];
      assert Ptrs(t) == {cur};
      assert Fault(x, t, 0, total);
      RepRoot(mem, cur, parent, t);
      Up(mem, root, x, t, cur, parent);
    }

    /** Makes the root black. */
    method BlackRoot(ghost whole: Tree, ghost total: nat, ghost values: seq<int>)
      requires Repaired(whole, total, values) && root in mem && values != []
      requires Sorted(values) && next != NULL && forall p :: p in mem ==> p < next
      modifies this`mem, this`tree
      ensures Valid() && Inorder(tree) == values
    {
      RepRoot(mem, root, NULL, whole);
      ColorAt(mem, root, Top, whole, root, NULL, BLACK);
      mem := mem[root := mem[root].(col := BLACK)];
      tree := whole.(c := BLACK);
      assert Balanced(tree, total) || Balanced(tree, total + 1);
    }

    /** Inserts a value that is not there at the place found for it. */
    method InsertAt(value: int, parent: Ptr, ghost x: Path, ghost total: nat)
      requires Valid() && x.Frame? && Searching(x, Leaf, NULL, parent, value, 0, total)
      modifies this
      ensures Valid() && forall w :: w in Inorder(tree) <==> w in old(Inorder(tree)) || w == value
    {
      ValidParts();
      SearchOrder(x, parent, value, total);
      var cur;
      ghost var t;
      cur, t := Link(value, parent, x, total);
      hide Valid, Repairing, Repaired, Sorted, Inorder, Searching;
      ghost var values := Before(x) + [value] + After(x);
      if mem[parent].col == BLACK {
        NoFaultHere(x, t, cur, parent, 0, total, values);
        tree := Plug(x, t);
        StillBlack(x, t, cur, parent, total, values);
        return;
      }
      ghost var whole := Repair(cur, parent, x, t, 0, total, values);
      RootIn(whole, total, values);
      BlackRoot(whole, total, values);
    }

    /** Inserts a value; returns false when it is there already. */
    method Insert(value: int) returns (b: bool)
      requires Valid()
      modifies this
      ensures Valid() && b == (value !in old(Inorder(tree)))
      ensures forall w :: w in Inorder(tree) <==> w in old(Inorder(tree)) || w == value
      ensures !b ==> tree == old(tree) && mem == old(mem) && root == old(root)
    {
      ValidParts();
      if root == NULL {
        InsertRoot(value);
        return true;
      }
      ghost var total: nat :| Balanced(tree, total);
      hide Valid, Searching, Inorder;
      var found, parent;
      ghost var x;
      found, parent, x := Descend(value, total);
      if found {
        return false;
      }
      InsertAt(value, parent, x, total);
      b := true;
    }

    // ---------- iterators ----------

    /** The node where a path down against direction `d` ends. */
    method Outermost(start: Ptr, d: Dir, ghost x0: Path, ghost t0: Tree, ghost parent0: Ptr) returns (cur: Ptr)
      requires At(mem, root, x0, t0, start, parent0) && start != NULL
      ensures cur == First(Nodes(t0, d) + Ahead(x0, d)) && cur != NULL && cur in mem
    {
      hide At, Nodes, Ahead;
      cur := start;
      ghost var x, t, parent := x0, t0, parent0;
      RepRootAt(mem, root, x, t, cur, parent);
      while Kid(mem[cur], Other(d)) != NULL
        invariant At(mem, root, x, t, cur, parent) && t.Node? && cur == t.p && cur in mem && cur != NULL
        invariant Nodes(t, d) + Ahead(x, d) == Nodes(t0, d) + Ahead(x0, d)
        decreases t
      {
        AheadDown(x, t, d);
        Down(mem, root, x, t, cur, parent, Other(d));
        x, t, parent := Frame(x, cur, t.c, t.v, Other(d), Sub(t, d)), Sub(t, Other(d)), cur;
        cur := Kid(mem[cur], Other(d));
        RepRootAt(mem, root, x, t, cur, parent);
      }
      OutermostEnd(x, t, cur, parent, d);
    }

    lemma OutermostEnd(x: Path, t: Tree, cur: Ptr, parent: Ptr, d: Dir)
      requires At(mem, root, x, t, cur, parent) && t.Node? && cur in mem && Kid(mem[cur], Other(d)) == NULL
      ensures Nodes(t, d) + Ahead(x, d) != [] && (Nodes(t, d) + Ahead(x, d))[0] == cur && cur != NULL
    {
      RepRootAt(mem, root, x, t, cur, parent);
      Down(mem, root, x, t, cur, parent, Other(d));
      RepRoot(mem, Kid(mem[cur], Other(d)), cur, Sub(t, Other(d)));
      assert Nodes(Sub(t, Other(d)), d) == [];
    }

    /** The first node ahead on the way up from `start`. */
    method Ancestor(start: Ptr, parent0: Ptr, d: Dir, ghost x0: Path, ghost t0: Tree) returns (p: Ptr)
      requires At(mem, root, x0, t0, start, parent0) && start != NULL
      ensures p == First(Ahead(x0, d))
    {
      hide At, Ahead;
      var cur, parent := start, parent0;
      ghost var x, t := x0, t0;
      PathRoot(mem, root, x, cur, parent, t);
      while parent != NULL && Kid(mem[parent], d) == cur
        invariant At(mem, root, x, t, cur, parent) && cur != NULL && (parent != NULL ==> parent in mem)
          && Ahead(x, d) == Ahead(x0, d)
        decreases x
      {
        PathRoot(mem, root, x, cur, parent, t);
        AheadUp(x, d);
        Up(mem, root, x, t, cur, parent);
        x, t := x.up, Build(x.p, x.c, x.v, x.d, t, x.sib);
        cur := parent;
        parent := mem[cur].parent;
        PathRoot(mem, root, x, cur, parent, t);
      }
      PathRoot(mem, root, x, cur, parent, t);
      AheadUp(x, d);
      p := parent;
    }

    /** The next node of an iterator, in ascending order. */
    method Next(p: Ptr) returns (q: Ptr)
      requires Rep(mem, root, NULL, tree) && Sep(tree) && (p != NULL ==> p in Ptrs(tree))
      ensures p == NULL ==> q == NULL
      ensures p != NULL ==> Follows(tree, R, p, q)
      ensures q != NULL ==> q in Ptrs(tree)
    {
      if p == NULL {
        return NULL;
      }
      ghost var x, t := Locate(mem, root, Top, tree, root, NULL, p);
      hide Rep, Sep, At;
      var cur := p;
      var parent := mem[cur].parent;
      Down(mem, root, x, t, cur, parent, R);
      RepRootAt(mem, root, Frame(x, cur, t.c, t.v, R, t.l), t.r, mem[cur].right, cur);
      PathRoot(mem, root, x, cur, parent, t);
      SideAhead(x, t, R);
      if mem[cur].right != NULL {
        q := Outermost(mem[cur].right, R, Frame(x, cur, t.c, t.v, R, t.l), t.r, cur);
      } else if parent != NULL && mem[parent].left == cur {
        q := parent;
        AheadUp(x, R);
      } else {
        q := Ancestor(cur, parent, R, x, t);
      }
      FollowsAt(x, t, R, q);
      FollowsIn(x, t, R, q);
    }

    /** The node before an iterator, in ascending order. */
    method Prev(p: Ptr) returns (q: Ptr)
      requires Rep(mem, root, NULL, tree) && Sep(tree) && (p != NULL ==> p in Ptrs(tree))
      ensures p == NULL ==> q == NULL
      ensures p != NULL ==> Follows(tree, L, p, q)
      ensures q != NULL ==> q in Ptrs(tree)
    {
      if p == NULL {
        return NULL;
      }
      ghost var x, t := Locate(mem, root, Top, tree, root, NULL, p);
      hide Rep, Sep, At;
      var cur := p;
      Down(mem, root, x, t, cur, mem[cur].parent, L);
      RepRootAt(mem, root, Frame(x, cur, t.c, t.v, L, t.r), t.l, mem[cur].left, cur);
      SideAhead(x, t, L);
      if mem[cur].left != NULL {
        q := Outermost(mem[cur].left, L, Frame(x, cur, t.c, t.v, L, t.r), t.l, cur);
      } else {
        q := Ancestor(cur, mem[cur].parent, L, x, t);
      }
      FollowsAt(x, t, L, q);
      FollowsIn(x, t, L, q);
    }

    /** The least node, or none. */
    method Begin() returns (q: Ptr)
      requires Rep(mem, root, NULL, tree) && Sep(tree)
      ensures q == First(Nodes(tree, R))
    {
      assert Nodes(tree, R) + Ahead(Top, R) == Nodes(tree, R);
      if root == NULL {
        return NULL;
      }
      q := Outermost(root, R, Top, tree, NULL);
    }

    /** The greatest node, or none. */
    method ReverseBegin() returns (q: Ptr)
      requires Rep(mem, root, NULL, tree) && Sep(tree)
      ensures q == First(Nodes(tree, L))
    {
      assert Nodes(tree, L) + Ahead(Top, L) == Nodes(tree, L);
      if root == NULL {
        return NULL;
      }
      q := Outermost(root, L, Top, tree, NULL);
    }

    /** Iterating from the beginning to the end meets every value once, in ascending
        order. */
    method Iterate() returns (values: seq<int>)
      requires Valid()
      ensures values == Inorder(tree) && Sorted(values)
    {
      ValidParts();
      NodesDistinct(tree, R);
      NodesLength(tree);
      ghost var s := Nodes(tree, R);
      IterateFacts();
      hide Rep, Sep, Nodes, Inorder, IsRedBlack, Ptrs, Distinct;
      values := [];
      var p := Begin();
      while p != NULL
        invariant |values| <= |s| && values == Inorder(tree)[..|values|]
        invariant p == (if |values| < |s| then s[|values|] else NULL)
        decreases |s| - |values|
      {
        ghost var i := |values|;
        assert p == s[i] && mem[s[i]].value == Inorder(tree)[i];
        values := values + [mem[p].value];
        p := Next(p);
      }
    }

    lemma IterateFacts()
      requires Valid()
      ensures |Nodes(tree, R)| == |Inorder(tree)|
      ensures forall i :: 0 <= i < |Nodes(tree, R)| ==>
        Nodes(tree, R)[i] != NULL && Nodes(tree, R)[i] in Ptrs(tree) && Nodes(tree, R)[i] in mem
          && mem[Nodes(tree, R)[i]].value == Inorder(tree)[i]
    {
      NodesLength(tree);
      RepIn(mem, root, NULL, tree);
      forall i | 0 <= i < |Nodes(tree, R)|
        ensures Nodes(tree, R)[i] != NULL && Nodes(tree, R)[i] in Ptrs(tree) && Nodes(tree, R)[i] in mem
          && mem[Nodes(tree, R)[i]].value == Inorder(tree)[i]
      {
        NodeValues(mem, root, NULL, tree, i);
        NodesSet(tree, R, Nodes(tree, R)[i]);
      }
    }

    // ---------- the checker ----------

    /** Checks a subtree: `black` black nodes are above it, `k` are expected on every way. */
    method CheckFrom(node: Ptr, black: nat, k: nat, ghost parent: Ptr, ghost t: Tree) returns (b: bool)
      requires Rep(mem, node, parent, t) && (parent != NULL ==> parent in mem)
      ensures b <==>
        NoRed(t) && black <= k && Balanced(t, k - black)
        && (parent != NULL && mem[parent].col == RED ==> RootColor(t) == BLACK)
      decreases t
    {
      if node == NULL {
        return k == black;
      }
      if mem[node].col == RED && mem[node].parent != NULL && mem[mem[node].parent].col == RED {
        return false;
      }
      var black' := if mem[node].col == BLACK then black + 1 else black;
      b := CheckFrom(mem[node].left, black', k, node, t.l);
      if !b {
        return false;
      }
      b := CheckFrom(mem[node].right, black', k, node, t.r);
      if !b {
        return false;
      }
    }

    /** Checks that no red node has a red child and that all ways down have as many black
        nodes as the leftmost one; the colour of the root is not looked at. */
    method IsRbTree() returns (b: bool)
      requires Rep(mem, root, NULL, tree)
      ensures b <==> NoRed(tree) && EqualBlacks(tree)
      ensures IsRedBlack(tree) ==> b
    {
      if root == NULL {
        assert tree == Leaf && Balanced(Leaf, 0);
        return true;
      }
      var k: nat := 0;
      var cur := root;
      ghost var t, parent := tree, NULL;
      while cur != NULL
        invariant Rep(mem, cur, parent, t) && k + LeftBlack(t) == LeftBlack(tree)
        decreases t
      {
        if mem[cur].col == BLACK {
          k := k + 1;
        }
        t, parent, cur := t.l, cur, mem[cur].left;
      }
      b := CheckFrom(root, 0, k, NULL, tree);
      forall n: nat | Balanced(tree, n) ensures n == k {
        LeftBalanced(tree, n);
      }
    }

    lemma ValidParts()
      requires Valid()
      ensures NULL !in mem && next !in mem && (root == NULL ==> Inorder(tree) == []) && EqualBlacks(tree)
    {
      RepIn(mem, root, NULL, tree);
      RepRoot(mem, root, NULL, tree);
    }

    /** The new value has its place in the order. */
    lemma SearchOrder(x: Path, parent: Ptr, value: int, total: nat)
      requires Valid() && Searching(x, Leaf, NULL, parent, value, 0, total)
      ensures Inorder(tree) == Before(x) + After(x) && Sorted(Before(x) + [value] + After(x))
      ensures forall w :: w in Before(x) + [value] + After(x) <==> w in Inorder(tree) || w == value
    {
      PlugOrder(x, Leaf);
      assert Before(x) + Inorder(Leaf) + After(x) == Before(x) + After(x);
      SortedInsert(Before(x), After(x), value);
      hide At, Rep, Sep, Ptrs, PathPtrs, IsRedBlack, NoRed, Balanced, PathOk, PathBalanced, TopBlack;
    }

    /** Under a black parent the new node changes nothing above it. */
    lemma StillBlack(x: Path, t: Tree, cur: Ptr, parent: Ptr, total: nat, values: seq<int>)
      requires Repairing(x, t, cur, parent, 0, total, values) && Repaired(Plug(x, t), total, values)
        && tree == Plug(x, t)
      requires Sorted(values) && next != NULL && forall p :: p in mem ==> p < next
      ensures Valid() && Inorder(tree) == values
    {
      PlugTop(x, t);
    }

    lemma RootIn(whole: Tree, total: nat, values: seq<int>)
      requires Repaired(whole, total, values) && values != []
      ensures root in mem
    {
      RepRoot(mem, root, NULL, whole);
    }
  }

  /** A value between two parts of a sorted sequence. */
  lemma SortedInsert(a: seq<int>, b: seq<int>, value: int)
    requires Sorted(a + b) && (forall w :: w in a ==> w < value) && (forall w :: w in b ==> value < w)
    ensures Sorted(a + [value] + b) && a + [] + b == a + b
    ensures forall w :: w in a + [value] + b <==> w in a + b || w == value
  {
    var s, s' := a + b, a + [value] + b;
    forall i, j | 0 <= i < j < |s'| ensures s'[i] < s'[j] {
      var i', j' := if i < |a| then i else i - 1, if j < |a| then j else j - 1;
      assert i != |a| ==> s'[i] == s[i'];
      assert j != |a| ==> s'[j] == s[j'];
      assert i < |a| ==> s[i'] == a[i] && a[i] in a;
      assert j > |a| ==> s[j'] == b[j' - |a|] && b[j' - |a|] in b;
    }
  }

  /** The memory after a new red leaf was linked at the end of a path. */
  lemma LinkAt(m: Memory, root: Ptr, x: Path, parent: Ptr, value: int, cur: Ptr, m': Memory)
    requires x.Frame? && At(m, root, x, Leaf, NULL, parent) && m.Keys == PathPtrs(x) && cur !in m && cur != NULL
      && parent in m
    requires m' == m[cur := Cell(value, RED, NULL, NULL, parent)][parent := WithKid(m[parent], x.d, cur)]
    ensures At(m', root, x, Node(cur, RED, value, Leaf, Leaf), cur, parent)
  {
    assert x.p == parent;
    assert Rep(m', cur, parent, Node(cur, RED, value, Leaf, Leaf));
    hide Rep, Ptrs, PathPtrs, Sep, SepPath;
    SetHole(m, root, x, NULL, parent, cur, m', root);
    SepLeaf(x, cur, value);
  }

  lemma SepLeaf(x: Path, cur: Ptr, value: int)
    requires SepAt(x, Leaf) && cur !in PathPtrs(x)
    ensures SepAt(x, Node(cur, RED, value, Leaf, Leaf))
  {
  }

  lemma {:induction false} PlugTop(x: Path, t: Tree)
    requires x.Frame? && TopBlack(x)
    ensures RootColor(Plug(x, t)) == BLACK
    decreases x
  {
    if x.up.Frame? {
      PlugTop(x.up, Build(x.p, x.c, x.v, x.d, t, x.sib));
    }
  }

  /** What is ahead on the way up. */
  lemma AheadUp(x: Path, d: Dir)
    ensures x.Top? ==> Ahead(x, d) == []
    ensures x.Frame? && x.d == d ==> Ahead(x, d) == Ahead(x.up, d)
    ensures x.Frame? && x.d != d ==> Ahead(x, d) != [] && Ahead(x, d)[0] == x.p
  {
  }

  /** The subtree on the far side, with what is ahead of it. */
  lemma SideAhead(x: Path, t: Tree, d: Dir)
    requires t.Node?
    ensures Ahead(Frame(x, t.p, t.c, t.v, d, Sub(t, Other(d))), d) == Ahead(x, d)
    ensures Sub(t, d).Leaf? ==> Nodes(Sub(t, d), d) + Ahead(x, d) == Ahead(x, d)
  {
  }

  lemma FollowsIn(x: Path, t: Tree, d: Dir, q: Ptr)
    requires t.Node? && q == First(Nodes(Sub(t, d), d) + Ahead(x, d))
    ensures q != NULL ==> q in Ptrs(Plug(x, t))
  {
    PlugNodes(x, t, d);
    NodesSet(Plug(x, t), d, q);
    var b := Nodes(Sub(t, d), d) + Ahead(x, d);
    if b != [] {
      assert q == b[0] && q in b;
    }
  }

  lemma SideOrder(whole: Tree, x: Path, t: Tree, value: int, d: Dir)
    requires t.Node? && Sorted(Inorder(whole)) && Inorder(whole) == Before(x) + Inorder(t) + After(x)
    requires (forall w :: w in Before(x) ==> w < value) && (forall w :: w in After(x) ==> value < w)
    requires if d == R then value > t.v else value < t.v
    ensures
      var x' := Frame(x, t.p, t.c, t.v, d, Sub(t, Other(d)));
      (forall w :: w in Before(x') ==> w < value) && (forall w :: w in After(x') ==> value < w)
  {
    var a, b, l, r := Before(x), After(x), Inorder(t.l), Inorder(t.r);
    var s := Inorder(whole);
    assert s == a + (l + [t.v] + r) + b;
    forall i | 0 <= i < |l| ensures l[i] < t.v {
      assert s[|a| + i] == l[i] && s[|a| + |l|] == t.v;
    }
    forall i | 0 <= i < |r| ensures t.v < r[i] {
      assert s[|a| + |l| + 1 + i] == r[i] && s[|a| + |l|] == t.v;
    }
  }

  /** Colours do not matter for the order and the nodes. */
  lemma LiftedOrder(x: Path, t: Tree)
    requires x.Frame? && x.up.Frame? && x.up.d == x.d
    ensures
      var G := Build(x.up.p, x.up.c, x.up.v, x.up.d, Build(x.p, x.c, x.v, x.d, t, x.sib), x.up.sib);
      Inorder(Lifted(x, t)) == Inorder(Rotated(G, Other(x.d))) && Ptrs(Lifted(x, t)) == Ptrs(Rotated(G, Other(x.d)))
  {
  }

  lemma RepRootPtr(m: Memory, p: Ptr, parent: Ptr, t: Tree)
    requires Rep(m, p, parent, t) && t.Node?
    ensures p == t.p
  {
  }

  /** The parent link at the end of a path. */
  lemma PathRoot(m: Memory, root: Ptr, x: Path, q: Ptr, parent: Ptr, t: Tree)
    requires At(m, root, x, t, q, parent) && q != NULL
    ensures x.Top? <==> parent == NULL
    ensures x.Frame? ==>
      parent == x.p && parent in m && parent in PathPtrs(x) && Kid(m[parent], x.d) == q
        && Kid(m[parent], Other(x.d)) != q
  {
    if x.Frame? {
      RepRoot(m, Kid(m[x.p], Other(x.d)), x.p, x.sib);
      RepRoot(m, q, parent, t);
    }
  }
}
