/** The red-black properties of trees and paths, and what recolouring and rotations do to
    them. */
module RedBlack {
  import opened TreeMemory

  ghost function RootColor(t: Tree): Color {
    if t.Leaf? then BLACK else t.c
  }

  /** No red node has a red child. */
  ghost predicate NoRed(t: Tree) {
    t.Node? ==> NoRed(t.l) && NoRed(t.r) && (t.c == RED ==> RootColor(t.l) == BLACK && RootColor(t.r) == BLACK)
  }

  function Black(c: Color): nat {
    if c == BLACK then 1 else 0
  }

  /** Every way from the root to a leaf has `n` black nodes. */
  ghost predicate Balanced(t: Tree, n: nat) {
    match t
    case Leaf => n == 0
    case Node(_, c, _, l, r) => n >= Black(c) && Balanced(l, n - Black(c)) && Balanced(r, n - Black(c))
  }

  ghost predicate PathBalanced(x: Path, n: nat, total: nat) {
    match x
    case Top => n == total
    case Frame(up, _, c, _, _, sib) => Balanced(sib, n) && PathBalanced(up, n + Black(c), total)
  }

  /** A tree whose root has colour `c` can be at the end of the path. */
  ghost predicate PathOk(x: Path, c: Color) {
    x.Frame? ==> NoRed(x.sib) && (x.c == RED ==> c == BLACK && RootColor(x.sib) == BLACK) && PathOk(x.up, x.c)
  }

  ghost predicate TopBlack(x: Path) {
    x.Frame? ==> if x.up.Top? then x.c == BLACK else TopBlack(x.up)
  }

  lemma {:induction false} PlugNoRed(x: Path, t: Tree)
    requires NoRed(t) && PathOk(x, RootColor(t))
    ensures NoRed(Plug(x, t))
    decreases x
  {
    if x.Frame? {
      PlugNoRed(x.up, Build(x.p, x.c, x.v, x.d, t, x.sib));
    }
  }

  lemma {:induction false} PlugBalanced(x: Path, t: Tree, n: nat, total: nat)
    requires Balanced(t, n) && PathBalanced(x, n, total)
    ensures Balanced(Plug(x, t), total)
    decreases x
  {
    if x.Frame? {
      PlugBalanced(x.up, Build(x.p, x.c, x.v, x.d, t, x.sib), n + Black(x.c), total);
    }
  }

  // ---------- the whole tree ----------

  ghost predicate Sorted(s: seq<int>) {
    forall i, j :: 0 <= i < j < |s| ==> s[i] < s[j]
  }

  /** All ways from the root to a leaf have the same number of black nodes. */
  ghost predicate EqualBlacks(t: Tree) {
    exists n: nat :: Balanced(t, n)
  }

  ghost predicate IsRedBlack(t: Tree) {
    RootColor(t) == BLACK && NoRed(t) && EqualBlacks(t)
  }

  function Max(a: nat, b: nat): nat {
    if a > b then a else b
  }

  function Height(t: Tree): nat {
    match t case Leaf => 0 case Node(_, _, _, l, r) => 1 + Max(Height(l), Height(r))
  }

  function Size(t: Tree): nat {
    match t case Leaf => 0 case Node(_, _, _, l, r) => 1 + Size(l) + Size(r)
  }

  function Power(n: nat): nat {
    if n == 0 then 1 else 2 * Power(n - 1)
  }

  lemma {:induction false} BlackBounds(t: Tree, n: nat)
    requires NoRed(t) && Balanced(t, n)
    ensures Size(t) + 1 >= Power(n) && Height(t) <= 2 * n + (1 - Black(RootColor(t)))
    decreases t
  {
    if t.Node? {
      BlackBounds(t.l, n - Black(t.c));
      BlackBounds(t.r, n - Black(t.c));
    }
  }

  lemma {:induction false} PowerAdd(a: nat, b: nat)
    ensures Power(a + b) == Power(a) * Power(b)
    decreases a
  {
    if a > 0 {
      PowerAdd(a - 1, b);
      assert Power(a + b) == 2 * Power(a - 1 + b);
    }
  }

  lemma {:induction false} PowerMonotone(a: nat, b: nat)
    requires a <= b
    ensures Power(a) <= Power(b)
    decreases b
  {
    if a < b {
      PowerMonotone(a, b - 1);
    }
  }

  /** The height is at most twice the logarithm of the number of nodes plus one. */
  lemma HeightBound(t: Tree)
    requires IsRedBlack(t)
    ensures Power(Height(t)) <= (Size(t) + 1) * (Size(t) + 1)
  {
    var n: nat :| Balanced(t, n);
    BlackBounds(t, n);
    PowerMonotone(Height(t), n + n);
    PowerAdd(n, n);
    Squares(Power(n), Size(t) + 1);
  }

  lemma Squares(p: nat, s: nat)
    requires p <= s
    ensures p * p <= s * s
  {
    assert p * p <= s * p;
  }

  // ---------- descending and inserting ----------

  lemma DownOk(x: Path, q: Ptr, t: Tree, n: nat, total: nat, d: Dir)
    requires t.Node? && NoRed(t) && PathOk(x, RootColor(t)) && Balanced(t, n) && PathBalanced(x, n, total)
    ensures
      var x', t' := Frame(x, q, t.c, t.v, d, Sub(t, Other(d))), Sub(t, d);
      NoRed(t') && PathOk(x', RootColor(t')) && n >= Black(t.c) && Balanced(t', n - Black(t.c))
        && PathBalanced(x', n - Black(t.c), total)
  {
  }

  lemma TopDown(x: Path, q: Ptr, t: Tree, d: Dir)
    requires t.Node? && (if x.Top? then t.c == BLACK else TopBlack(x))
    ensures TopBlack(Frame(x, q, t.c, t.v, d, Sub(t, Other(d))))
  {
  }

  // ---------- repairing ----------

  /** The tree `t` at the end of `x` has a red root, which may have a red parent; this is
      the only fault. */
  ghost predicate Fault(x: Path, t: Tree, n: nat, total: nat) {
    && x.Frame? && t.Node? && t.c == RED && NoRed(t) && Balanced(t, n) && PathBalanced(x, n, total)
    && NoRed(x.sib) && (x.c == RED ==> RootColor(x.sib) == BLACK) && PathOk(x.up, x.c) && TopBlack(x)
  }

  /** Without a red parent there is no fault. */
  lemma NoFault(x: Path, t: Tree, n: nat, total: nat)
    requires Fault(x, t, n, total) && x.c == BLACK
    ensures NoRed(Plug(x, t)) && Balanced(Plug(x, t), total)
  {
    PlugNoRed(x, t);
    PlugBalanced(x, t, n, total);
  }

  /** A red parent has a black parent. */
  lemma Grandparent(x: Path, t: Tree, n: nat, total: nat)
    requires Fault(x, t, n, total) && x.c == RED
    ensures x.up.Frame? && x.up.c == BLACK && TopBlack(x.up)
    ensures NoRed(x.sib) && RootColor(x.sib) == BLACK && Balanced(x.sib, n)
    ensures NoRed(x.up.sib) && Balanced(x.up.sib, n) && PathBalanced(x.up.up, n + 1, total) && PathOk(x.up.up, BLACK)
    ensures x.up.up.Frame? ==>
      NoRed(x.up.up.sib) && (x.up.up.c == RED ==> RootColor(x.up.up.sib) == BLACK) && PathOk(x.up.up.up, x.up.up.c)
        && TopBlack(x.up.up)
  {
    assert PathBalanced(x.up, n, total) && PathOk(x.up, RED);
    assert x.up.Frame?;
    assert PathBalanced(x.up.up, n + 1, total) && PathOk(x.up.up, BLACK);
  }

  /** A node and its children. */
  lemma NodeOk(p: Ptr, c: Color, v: int, d: Dir, a: Tree, b: Tree, n: nat)
    requires NoRed(a) && NoRed(b) && Balanced(a, n) && Balanced(b, n)
      && (c == RED ==> RootColor(a) == BLACK && RootColor(b) == BLACK)
    ensures NoRed(Build(p, c, v, d, a, b)) && Balanced(Build(p, c, v, d, a, b), n + Black(c))
  {
  }

  /** The grandparent after its two red children became black and it became red. */
  function Recolored(x: Path, t: Tree): Tree
    requires x.Frame? && x.up.Frame? && x.up.sib.Node?
  {
    Build(x.up.p, RED, x.up.v, x.up.d, Build(x.p, BLACK, x.v, x.d, t, x.sib), x.up.sib.(c := BLACK))
  }

  lemma RecolorFault(x: Path, t: Tree, n: nat, total: nat)
    requires Fault(x, t, n, total) && x.c == RED && x.up.Frame? && x.up.sib.Node? && x.up.sib.c == RED
    ensures NoRed(Recolored(x, t)) && Balanced(Recolored(x, t), n + 1) && PathBalanced(x.up.up, n + 1, total)
      && PathOk(x.up.up, BLACK)
    ensures x.up.up.Frame? ==> Fault(x.up.up, Recolored(x, t), n + 1, total)
    ensures x.up.up.Top? ==> NoRed(Plug(x.up.up, Recolored(x, t))) && Balanced(Plug(x.up.up, Recolored(x, t)), total)
  {
    Grandparent(x, t, n, total);
    var u := x.up.sib;
    assert NoRed(u.(c := BLACK)) && Balanced(u.(c := BLACK), n + 1);
    NodeOk(x.p, BLACK, x.v, x.d, t, x.sib, n);
    NodeOk(x.up.p, RED, x.up.v, x.up.d, Build(x.p, BLACK, x.v, x.d, t, x.sib), u.(c := BLACK), n + 1);
  }

  lemma RecolorOrder(x: Path, t: Tree)
    requires x.Frame? && x.up.Frame? && x.up.sib.Node?
    ensures Inorder(Plug(x.up.up, Recolored(x, t))) == Inorder(Plug(x, t))
  {
    PlugOrder(x.up.up, Recolored(x, t));
    PlugOrder(x.up.up, Build(x.up.p, x.up.c, x.up.v, x.up.d, Build(x.p, x.c, x.v, x.d, t, x.sib), x.up.sib));
  }

  /** A rotation in direction `d`: the child on the other side goes up. */
  function Rotated(t: Tree, d: Dir): Tree
    requires t.Node? && Sub(t, Other(d)).Node?
  {
    var s := Sub(t, Other(d));
    Build(s.p, s.c, s.v, d, Build(t.p, t.c, t.v, d, Sub(t, d), Sub(s, d)), Sub(s, Other(d)))
  }

  lemma RotateOrder(t: Tree, d: Dir)
    requires t.Node? && Sub(t, Other(d)).Node?
    ensures Inorder(Rotated(t, d)) == Inorder(t)
  {
    var s := Sub(t, Other(d));
    Regroup2(Inorder(Sub(t, d)), t.v, Inorder(Sub(s, d)), s.v, Inorder(Sub(s, Other(d))));
    Regroup2(Inorder(Sub(s, Other(d))), s.v, Inorder(Sub(s, d)), t.v, Inorder(Sub(t, d)));
  }

  lemma BuildPtrs(p: Ptr, c: Color, v: int, d: Dir, a: Tree, b: Tree)
    ensures Ptrs(Build(p, c, v, d, a, b)) == {p} + Ptrs(a) + Ptrs(b)
    ensures Sep(Build(p, c, v, d, a, b)) <==> Sep(a) && Sep(b) && p !in Ptrs(a) && p !in Ptrs(b) && Ptrs(a) !! Ptrs(b)
  {
  }

  lemma RotatePtrs(t: Tree, d: Dir)
    requires t.Node? && Sub(t, Other(d)).Node?
    ensures Ptrs(Rotated(t, d)) == Ptrs(t)
    ensures Sep(t) ==> Sep(Rotated(t, d))
  {
    var s := Sub(t, Other(d));
    var a, b, c := Sub(t, d), Sub(s, d), Sub(s, Other(d));
    BuildPtrs(t.p, t.c, t.v, d, a, s);
    BuildPtrs(s.p, s.c, s.v, d, b, c);
    BuildPtrs(t.p, t.c, t.v, d, a, b);
    BuildPtrs(s.p, s.c, s.v, d, Build(t.p, t.c, t.v, d, a, b), c);
    hide Ptrs, Sep;
    assert t == Build(t.p, t.c, t.v, d, a, s) && s == Build(s.p, s.c, s.v, d, b, c);
  }

  lemma Regroup2(a: seq<int>, v: int, b: seq<int>, w: int, c: seq<int>)
    ensures (a + [v] + b) + [w] + c == a + [v] + (b + [w] + c)
  {
  }

  /** After an inner child was rotated up, it is the parent and the fault is outside. */
  lemma InnerFault(x: Path, t: Tree, n: nat, total: nat, d: Dir)
    requires Fault(x, t, n, total) && x.c == RED && x.up.Frame? && x.up.d == d && x.d == Other(d)
    ensures
      var x' := Frame(x.up, t.p, RED, t.v, d, Sub(t, Other(d)));
      var t' := Build(x.p, RED, x.v, d, x.sib, Sub(t, d));
      && Fault(x', t', n, total)
      && Rotated(Build(x.p, x.c, x.v, x.d, t, x.sib), d) == Build(t.p, RED, t.v, d, t', Sub(t, Other(d)))
  {
    Grandparent(x, t, n, total);
    NodeOk(x.p, RED, x.v, d, x.sib, Sub(t, d), n);
  }

  /** The grandparent after the rotation, with its new colours. */
  function Lifted(x: Path, t: Tree): Tree
    requires x.Frame? && x.up.Frame?
  {
    Build(x.p, BLACK, x.v, x.d, t, Build(x.up.p, RED, x.up.v, x.d, x.sib, x.up.sib))
  }

  lemma OuterFault(x: Path, t: Tree, n: nat, total: nat)
    requires Fault(x, t, n, total) && x.c == RED && x.up.Frame? && x.up.d == x.d && RootColor(x.up.sib) == BLACK
    ensures NoRed(Plug(x.up.up, Lifted(x, t))) && Balanced(Plug(x.up.up, Lifted(x, t)), total)
    ensures
      var g := Build(x.up.p, x.up.c, x.up.v, x.up.d, Build(x.p, x.c, x.v, x.d, t, x.sib), x.up.sib);
      Rotated(g, Other(x.d)) == Build(x.p, RED, x.v, x.d, t, Build(x.up.p, BLACK, x.up.v, x.d, x.sib, x.up.sib))
  {
    Grandparent(x, t, n, total);
    NodeOk(x.up.p, RED, x.up.v, x.d, x.sib, x.up.sib, n);
    NodeOk(x.p, BLACK, x.v, x.d, t, Build(x.up.p, RED, x.up.v, x.d, x.sib, x.up.sib), n);
    PlugNoRed(x.up.up, Lifted(x, t));
    PlugBalanced(x.up.up, Lifted(x, t), n + 1, total);
  }
}
