/** Binary trees of linked nodes in memory, the trees they stand for, and paths from the
    root into a tree. */
module TreeMemory {
  datatype Color = RED | BLACK

  type Ptr = nat
  const NULL: Ptr := 0

  /** A node in memory. */
  datatype Cell = Cell(value: int, col: Color, left: Ptr, right: Ptr, parent: Ptr)

  type Memory = map<Ptr, Cell>

  datatype Dir = L | R

  function Other(d: Dir): Dir {
    if d == L then R else L
  }

  function Kid(n: Cell, d: Dir): Ptr {
    if d == L then n.left else n.right
  }

  function WithKid(n: Cell, d: Dir, q: Ptr): Cell {
    if d == L then n.(left := q) else n.(right := q)
  }

  datatype Tree = Leaf | Node(p: Ptr, c: Color, v: int, l: Tree, r: Tree)

  function Sub(t: Tree, d: Dir): Tree
    requires t.Node?
  {
    if d == L then t.l else t.r
  }

  /** A node whose subtree in direction `d` is `t`. */
  function Build(p: Ptr, c: Color, v: int, d: Dir, t: Tree, sib: Tree): Tree {
    if d == L then Node(p, c, v, t, sib) else Node(p, c, v, sib, t)
  }

  /** The way from the root to a place in the tree: at each node the direction taken, and
      the subtree not taken. */
  datatype Path = Top | Frame(up: Path, p: Ptr, c: Color, v: int, d: Dir, sib: Tree)

  function Plug(x: Path, t: Tree): Tree {
    match x
    case Top => t
    case Frame(up, p, c, v, d, sib) => Plug(up, Build(p, c, v, d, t, sib))
  }

  // ---------- representation ----------

  /** The pointer `p` with its parent link represents the tree `t`. */
  ghost predicate Rep(m: Memory, p: Ptr, parent: Ptr, t: Tree)
    decreases t
  {
    match t
    case Leaf => p == NULL
    case Node(q, c, v, l, r) =>
      && p == q && p != NULL && p in m && m[p].value == v && m[p].col == c && m[p].parent == parent
      && Rep(m, m[p].left, p, l) && Rep(m, m[p].right, p, r)
  }

  /** The path `x` leads from `root` to the pointer `q`, whose parent link is `parent`. */
  ghost predicate RepPath(m: Memory, root: Ptr, x: Path, q: Ptr, parent: Ptr)
    decreases x
  {
    match x
    case Top => root == q && parent == NULL
    case Frame(up, p, c, v, d, sib) =>
      && p == parent && p != NULL && p in m && m[p].value == v && m[p].col == c && Kid(m[p], d) == q
      && Rep(m, Kid(m[p], Other(d)), p, sib) && RepPath(m, root, up, p, m[p].parent)
  }

  ghost function Ptrs(t: Tree): set<Ptr> {
    match t
    case Leaf => {}
    case Node(p, _, _, l, r) => {p} + Ptrs(l) + Ptrs(r)
  }

  ghost function PathPtrs(x: Path): set<Ptr> {
    match x
    case Top => {}
    case Frame(up, p, _, _, _, sib) => {p} + Ptrs(sib) + PathPtrs(up)
  }

  /** No node is twice in a tree. */
  ghost predicate Sep(t: Tree) {
    match t
    case Leaf => true
    case Node(p, _, _, l, r) => Sep(l) && Sep(r) && p !in Ptrs(l) && p !in Ptrs(r) && Ptrs(l) !! Ptrs(r)
  }

  ghost predicate SepPath(x: Path) {
    match x
    case Top => true
    case Frame(up, p, _, _, _, sib) =>
      SepPath(up) && Sep(sib) && p !in Ptrs(sib) && p !in PathPtrs(up) && Ptrs(sib) !! PathPtrs(up)
  }

  /** A path and the tree at its end. */
  ghost predicate SepAt(x: Path, t: Tree) {
    SepPath(x) && Sep(t) && PathPtrs(x) !! Ptrs(t)
  }

  /** The memory holds the tree `t` at the end of path `x`. */
  ghost predicate At(m: Memory, root: Ptr, x: Path, t: Tree, q: Ptr, parent: Ptr) {
    RepPath(m, root, x, q, parent) && Rep(m, q, parent, t) && SepAt(x, t)
  }

  lemma {:induction false} RepFrame(m: Memory, m': Memory, p: Ptr, parent: Ptr, t: Tree)
    requires Rep(m, p, parent, t)
    requires forall q :: q in Ptrs(t) && q in m ==> q in m' && m'[q] == m[q]
    ensures Rep(m', p, parent, t)
    decreases t
  {
    if t.Node? {
      RepFrame(m, m', m[p].left, p, t.l);
      RepFrame(m, m', m[p].right, p, t.r);
    }
  }

  lemma {:induction false} PathFrame(m: Memory, m': Memory, root: Ptr, x: Path, q: Ptr, parent: Ptr)
    requires RepPath(m, root, x, q, parent)
    requires forall y :: y in PathPtrs(x) && y in m ==> y in m' && m'[y] == m[y]
    ensures RepPath(m', root, x, q, parent)
    decreases x
  {
    if x.Frame? {
      RepFrame(m, m', Kid(m[x.p], Other(x.d)), x.p, x.sib);
      PathFrame(m, m', root, x.up, x.p, m[x.p].parent);
    }
  }

  /** The whole tree is represented from the root. */
  lemma {:induction false} PlugRep(m: Memory, root: Ptr, x: Path, t: Tree, q: Ptr, parent: Ptr)
    requires RepPath(m, root, x, q, parent) && Rep(m, q, parent, t)
    ensures Rep(m, root, NULL, Plug(x, t))
    decreases x
  {
    if x.Frame? {
      PlugRep(m, root, x.up, Build(x.p, x.c, x.v, x.d, t, x.sib), x.p, m[x.p].parent);
    }
  }

  lemma {:induction false} PlugPtrs(x: Path, t: Tree)
    ensures Ptrs(Plug(x, t)) == PathPtrs(x) + Ptrs(t)
    decreases x
  {
    if x.Frame? {
      PlugPtrs(x.up, Build(x.p, x.c, x.v, x.d, t, x.sib));
    }
  }

  lemma {:induction false} PlugSep(x: Path, t: Tree)
    requires SepAt(x, t)
    ensures Sep(Plug(x, t))
    decreases x
  {
    if x.Frame? {
      PlugSep(x.up, Build(x.p, x.c, x.v, x.d, t, x.sib));
    }
  }

  /** One step down. */
  lemma Down(m: Memory, root: Ptr, x: Path, t: Tree, q: Ptr, parent: Ptr, d: Dir)
    requires At(m, root, x, t, q, parent) && q != NULL
    ensures t.Node? && q in m && m[q].value == t.v && m[q].col == t.c && m[q].parent == parent
    ensures At(m, root, Frame(x, q, t.c, t.v, d, Sub(t, Other(d))), Sub(t, d), Kid(m[q], d), q)
    ensures Plug(Frame(x, q, t.c, t.v, d, Sub(t, Other(d))), Sub(t, d)) == Plug(x, t)
  {
  }

  /** One step up. */
  lemma Up(m: Memory, root: Ptr, x: Path, t: Tree, q: Ptr, parent: Ptr)
    requires At(m, root, x, t, q, parent) && parent != NULL
    ensures x.Frame? && parent == x.p && parent in m && m[parent].value == x.v && m[parent].col == x.c
      && Kid(m[parent], x.d) == q
    ensures At(m, root, x.up, Build(x.p, x.c, x.v, x.d, t, x.sib), parent, m[parent].parent)
    ensures Plug(x, t) == Plug(x.up, Build(x.p, x.c, x.v, x.d, t, x.sib))
  {
  }

  /** The root of a tree is the pointer that represents it. */
  lemma RepRoot(m: Memory, p: Ptr, parent: Ptr, t: Tree)
    requires Rep(m, p, parent, t)
    ensures p == NULL <==> t.Leaf?
    ensures p != NULL ==> p in Ptrs(t) && p in m && m[p].col == t.c && m[p].parent == parent
  {
  }

  lemma {:induction false} RepIn(m: Memory, p: Ptr, parent: Ptr, t: Tree)
    requires Rep(m, p, parent, t)
    ensures Ptrs(t) <= m.Keys && NULL !in Ptrs(t)
    decreases t
  {
    if t.Node? {
      RepIn(m, m[p].left, p, t.l);
      RepIn(m, m[p].right, p, t.r);
    }
  }

  /** Another tree is put at the end of the path. */
  lemma SetHole(m: Memory, root: Ptr, x: Path, q: Ptr, parent: Ptr, q': Ptr, m': Memory, root': Ptr)
    requires RepPath(m, root, x, q, parent) && SepPath(x)
    requires x.Top? ==> root' == q'
    requires x.Frame? ==> root' == root && x.p in m' && m'[x.p] == WithKid(m[x.p], x.d, q')
    requires forall y :: y in PathPtrs(x) && y in m && (x.Top? || y != x.p) ==> y in m' && m'[y] == m[y]
    ensures RepPath(m', root', x, q', parent)
  {
    if x.Frame? {
      RepFrame(m, m', Kid(m[x.p], Other(x.d)), x.p, x.sib);
      PathFrame(m, m', root, x.up, x.p, m[x.p].parent);
    }
  }

  // ---------- order ----------

  ghost function Inorder(t: Tree): seq<int> {
    match t
    case Leaf => []
    case Node(_, _, v, l, r) => Inorder(l) + [v] + Inorder(r)
  }

  /** What a path has before its end, and what it has after it. */
  ghost function Before(x: Path): seq<int> {
    match x
    case Top => []
    case Frame(up, _, _, v, d, sib) => if d == L then Before(up) else Before(up) + Inorder(sib) + [v]
  }

  ghost function After(x: Path): seq<int> {
    match x
    case Top => []
    case Frame(up, _, _, v, d, sib) => if d == L then [v] + Inorder(sib) + After(up) else After(up)
  }

  lemma Regroup(a: seq<int>, i: seq<int>, v: int, s: seq<int>, b: seq<int>)
    ensures a + (i + [v] + s) + b == a + i + ([v] + s + b)
    ensures a + (s + [v] + i) + b == (a + s + [v]) + i + b
  {
  }

  lemma {:induction false} PlugOrder(x: Path, t: Tree)
    ensures Inorder(Plug(x, t)) == Before(x) + Inorder(t) + After(x)
    decreases x
  {
    if x.Frame? {
      PlugOrder(x.up, Build(x.p, x.c, x.v, x.d, t, x.sib));
      Regroup(Before(x.up), Inorder(t), x.v, Inorder(x.sib), After(x.up));
    } else {
      assert [] + Inorder(t) + [] == Inorder(t);
    }
  }
}
