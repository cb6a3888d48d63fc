/** Full binary trees with weights at their leaves, and what a lightest pair does to the
    weighted path length. */
module OptimalTrees {
  datatype Weighted = Tip(w: nat) | Fork(l: Weighted, r: Weighted)

  type Way = seq<bool>

  function One(b: bool): nat {
    if b then 1 else 0
  }

  /** How many leaves have weight `w`. */
  function Count(t: Weighted, w: nat): nat {
    match t
    case Tip(v) => One(v == w)
    case Fork(l, r) => Count(l, w) + Count(r, w)
  }

  /** Both trees have the same weights at their leaves. */
  ghost predicate SameWeights(t: Weighted, u: Weighted) {
    forall w: nat :: Count(t, w) == Count(u, w)
  }

  /** The weighted path length when the root is at depth `d`. */
  function Length(t: Weighted, d: nat): nat {
    match t
    case Tip(w) => w * d
    case Fork(l, r) => Length(l, d + 1) + Length(r, d + 1)
  }

  function Depth(t: Weighted): nat {
    match t
    case Tip(_) => 0
    case Fork(l, r) => 1 + if Depth(l) > Depth(r) then Depth(l) else Depth(r)
  }

  predicate Inside(t: Weighted, p: Way) {
    p == [] || (t.Fork? && Inside(if p[0] then t.r else t.l, p[1..]))
  }

  function Get(t: Weighted, p: Way): Weighted
    requires Inside(t, p)
  {
    if p == [] then t else Get(if p[0] then t.r else t.l, p[1..])
  }

  function Put(t: Weighted, p: Way, u: Weighted): Weighted
    requires Inside(t, p)
  {
    if p == [] then u
    else if p[0] then Fork(t.l, Put(t.r, p[1..], u))
    else Fork(Put(t.l, p[1..], u), t.r)
  }

  ghost predicate TipAt(t: Weighted, p: Way, w: nat) {
    Inside(t, p) && Get(t, p) == Tip(w)
  }

  /** A subtree is replaced: only its own part of the weights and of the length changes. */
  lemma {:induction false} PutLength(t: Weighted, p: Way, u: Weighted, d: nat)
    requires Inside(t, p)
    ensures Length(Put(t, p, u), d) + Length(Get(t, p), d + |p|) == Length(t, d) + Length(u, d + |p|)
    decreases |p|
  {
    if p != [] {
      PutLength(if p[0] then t.r else t.l, p[1..], u, d + 1);
      assert d + 1 + |p[1..]| == d + |p|;
    }
  }

  lemma {:induction false} PutCount(t: Weighted, p: Way, u: Weighted, w: nat)
    requires Inside(t, p)
    ensures Count(Put(t, p, u), w) + Count(Get(t, p), w) == Count(t, w) + Count(u, w)
    decreases |p|
  {
    if p != [] {
      PutCount(if p[0] then t.r else t.l, p[1..], u, w);
    }
  }

  lemma {:induction false} PutDepth(t: Weighted, p: Way, u: Weighted)
    requires Inside(t, p) && Depth(u) == Depth(Get(t, p))
    ensures Depth(Put(t, p, u)) == Depth(t)
    decreases |p|
  {
    if p != [] {
      PutDepth(if p[0] then t.r else t.l, p[1..], u);
    }
  }

  /** Two different leaves are independent. */
  lemma {:induction false} PutOther(t: Weighted, p: Way, u: Weighted, q: Way)
    requires Inside(t, p) && Inside(t, q) && Get(t, p).Tip? && Get(t, q).Tip? && p != q
    ensures Inside(Put(t, p, u), q) && Get(Put(t, p, u), q) == Get(t, q)
    decreases |p|
  {
    if p != [] && q != [] && p[0] == q[0] {
      assert p == [p[0]] + p[1..] && q == [q[0]] + q[1..];
      PutOther(if p[0] then t.r else t.l, p[1..], u, q[1..]);
    }
  }

  lemma {:induction false} PutSame(t: Weighted, p: Way, u: Weighted)
    requires Inside(t, p)
    ensures Inside(Put(t, p, u), p) && Get(Put(t, p, u), p) == u
    decreases |p|
  {
    if p != [] {
      PutSame(if p[0] then t.r else t.l, p[1..], u);
    }
  }

  lemma {:induction false} TipDepth(t: Weighted, p: Way)
    requires Inside(t, p)
    ensures |p| <= Depth(t)
    decreases |p|
  {
    if p != [] {
      TipDepth(if p[0] then t.r else t.l, p[1..]);
    }
  }

  /** `t'` has the weights and the depth of `t`, and is not longer. */
  ghost predicate NotWorse(t: Weighted, t': Weighted) {
    SameWeights(t, t') && Depth(t') == Depth(t) && Length(t', 0) <= Length(t, 0)
  }

  /** A leaf that is swapped with a heavier one deeper down makes the length no greater. */
  lemma Swap(t: Weighted, p: Way, q: Way, x: nat, a: nat) returns (t': Weighted)
    requires TipAt(t, p, x) && TipAt(t, q, a) && p != q && x <= a && |p| <= |q|
    ensures TipAt(t', p, a) && TipAt(t', q, x) && NotWorse(t, t')
    ensures forall r, w: nat :: TipAt(t, r, w) && r != p && r != q ==> TipAt(t', r, w)
  {
    var t1 := Put(t, p, Tip(a));
    PutSame(t, p, Tip(a));
    PutOther(t, p, Tip(a), q);
    PutLength(t, p, Tip(a), 0);
    PutDepth(t, p, Tip(a));
    t' := Put(t1, q, Tip(x));
    PutSame(t1, q, Tip(x));
    PutOther(t1, q, Tip(x), p);
    PutLength(t1, q, Tip(x), 0);
    PutDepth(t1, q, Tip(x));
    Rearranged(x, a, |p|, |q|);
    hide Put, Get, Length, Depth;
    forall w: nat ensures Count(t, w) == Count(t', w) {
      PutCount(t, p, Tip(a), w);
      PutCount(t1, q, Tip(x), w);
    }
    forall r, w: nat | TipAt(t, r, w) && r != p && r != q ensures TipAt(t', r, w) {
      PutOther(t, p, Tip(a), r);
      PutOther(t1, q, Tip(x), r);
    }
    SwapLength(t, t1, t', x, a, |p|, |q|);
  }

  lemma SwapLength(t: Weighted, t1: Weighted, t': Weighted, x: nat, a: nat, m: nat, n: nat)
    requires Length(t1, 0) + Length(Tip(x), m) == Length(t, 0) + Length(Tip(a), m)
    requires Length(t', 0) + Length(Tip(a), n) == Length(t1, 0) + Length(Tip(x), n)
    requires x <= a && m <= n
    ensures Length(t', 0) <= Length(t, 0)
  {
    Rearranged(x, a, m, n);
    assert Length(Tip(x), m) == x * m && Length(Tip(a), m) == a * m && Length(Tip(a), n) == a * n
      && Length(Tip(x), n) == x * n;
    hide Length;
  }

  lemma Rearranged(x: nat, a: nat, m: nat, n: nat)
    requires x <= a && m <= n
    ensures a * m + x * n <= x * m + a * n
  {
    assert (a - x) * (n - m) >= 0;
    assert (a - x) * (n - m) == a * n - a * m - x * n + x * m;
  }

  /** A fork of two leaves at the greatest depth. */
  lemma {:induction false} Deepest(t: Weighted) returns (p: Way, a: nat, b: nat)
    requires t.Fork?
    ensures Inside(t, p) && Get(t, p) == Fork(Tip(a), Tip(b)) && Depth(t) == |p| + 1
    decreases t
  {
    var right := Depth(t.r) >= Depth(t.l);
    var s := if right then t.r else t.l;
    if s.Tip? {
      assert Depth(t.l) == 0 && Depth(t.r) == 0;
      return [], t.l.w, t.r.w;
    }
    var p', a', b' := Deepest(s);
    p, a, b := [right] + p', a', b';
    assert p[1..] == p';
  }

  lemma {:induction false} FindTip(t: Weighted, x: nat) returns (p: Way)
    requires Count(t, x) > 0
    ensures TipAt(t, p, x)
    decreases t
  {
    if t.Tip? {
      return [];
    }
    var right := Count(t.l, x) == 0;
    var p' := FindTip(if right then t.r else t.l, x);
    p := [right] + p';
    assert p[1..] == p';
  }

  lemma {:induction false} TipIn(t: Weighted, p: Way, x: nat)
    requires TipAt(t, p, x)
    ensures Count(t, x) > 0
    decreases |p|
  {
    if p != [] {
      TipIn(if p[0] then t.r else t.l, p[1..], x);
    }
  }

  /** There is a leaf of weight `y` besides one of weight `x`. */
  ghost predicate Besides(t: Weighted, x: nat, y: nat) {
    Count(t, y) > One(x == y)
  }

  lemma {:induction false} FindOther(t: Weighted, p: Way, x: nat, y: nat) returns (q: Way)
    requires TipAt(t, p, x) && Besides(t, x, y)
    ensures TipAt(t, q, y) && q != p
    decreases t
  {
    assert t.Fork?;
    assert p != [];
    var s, o := if p[0] then t.r else t.l, if p[0] then t.l else t.r;
    if Count(o, y) > 0 {
      var q' := FindTip(o, y);
      q := [!p[0]] + q';
      assert q[1..] == q' && q[0] != p[0];
    } else {
      var q' := FindOther(s, p[1..], x, y);
      q := [p[0]] + q';
      assert q[1..] == q';
    }
  }

  lemma {:induction false} OtherIn(t: Weighted, p: Way, x: nat, q: Way, y: nat)
    requires TipAt(t, p, x) && TipAt(t, q, y) && p != q
    ensures Besides(t, x, y)
    decreases |p|
  {
    assert p != [] && q != [];
    var s, o := if p[0] then t.r else t.l, if p[0] then t.l else t.r;
    TipIn(s, p[1..], x);
    if p[0] == q[0] {
      assert p == [p[0]] + p[1..] && q == [q[0]] + q[1..];
      OtherIn(s, p[1..], x, q[1..], y);
    } else {
      TipIn(o, q[1..], y);
    }
  }

  /** `x` and `y` are the two least weights. */
  ghost predicate Lightest(t: Weighted, x: nat, y: nat) {
    && Count(t, x) > 0 && (forall w: nat :: Count(t, w) > 0 ==> x <= w)
    && Besides(t, x, y) && (forall w: nat :: Besides(t, x, w) ==> y <= w)
  }

  lemma ChildTip(t: Weighted, p: Way, b: bool)
    requires Inside(t, p) && Get(t, p).Fork?
    ensures Inside(t, p + [b]) && Get(t, p + [b]) == (if b then Get(t, p).r else Get(t, p).l)
    decreases |p|
  {
    if p != [] {
      ChildTip(if p[0] then t.r else t.l, p[1..], b);
      assert (p + [b])[1..] == p[1..] + [b];
    }
  }

  lemma {:induction false} ForkOf(t: Weighted, p: Way, x: nat, y: nat)
    requires TipAt(t, p + [false], x) && TipAt(t, p + [true], y)
    ensures Inside(t, p) && Get(t, p) == Fork(Tip(x), Tip(y))
    decreases |p|
  {
    if p != [] {
      assert (p + [false])[1..] == p[1..] + [false] && (p + [true])[1..] == p[1..] + [true];
      ForkOf(if p[0] then t.r else t.l, p[1..], x, y);
    } else {
      var l, r := p + [false], p + [true];
      assert l[1..] == [] && r[1..] == [] && !l[0] && r[0];
      assert Get(t, l) == Get(t.l, l[1..]) == t.l && Get(t, r) == Get(t.r, r[1..]) == t.r;
    }
  }

  /** A leaf of the least weight can be brought to the deepest place. */
  lemma MoveDown(t: Weighted, p: Way, q: Way, x: nat, a: nat) returns (t': Weighted)
    requires TipAt(t, p, x) && TipAt(t, q, a) && x <= a && |p| <= |q|
    ensures TipAt(t', q, x) && TipAt(t', p, a) && NotWorse(t, t')
    ensures forall r, w: nat :: TipAt(t, r, w) && r != p && r != q ==> TipAt(t', r, w)
  {
    if p == q {
      t' := t;
    } else {
      t' := Swap(t, p, q, x, a);
    }
  }

  /** The two lightest leaves become siblings at the greatest depth. */
  lemma Siblings(t: Weighted, x: nat, y: nat) returns (t': Weighted, p: Way)
    requires t.Fork? && Lightest(t, x, y)
    ensures Inside(t', p) && Get(t', p) == Fork(Tip(x), Tip(y)) && NotWorse(t, t')
  {
    var a, b;
    p, a, b := Deepest(t);
    ChildTip(t, p, false);
    ChildTip(t, p, true);
    var p0, p1 := p + [false], p + [true];
    assert p0[|p|] != p1[|p|];
    var q := FindTip(t, x);
    TipDepth(t, q);
    TipIn(t, p0, a);
    assert TipAt(t, p1, b);
    hide Inside, Get, Depth, Length;
    var t1 := MoveDown(t, q, p0, x, a);
    var b' := if q == p1 then a else b;
    assert TipAt(t1, p1, b');
    assert Besides(t1, x, y);
    var r := FindOther(t1, p0, x, y);
    OtherIn(t1, p0, x, p1, b');
    assert Besides(t, x, b');
    TipAtDepth(t1, r, y);
    t' := MoveDown(t1, r, p1, y, b');
    ForkOf(t', p, x, y);
  }

  lemma TipAtDepth(t: Weighted, r: Way, y: nat)
    requires TipAt(t, r, y)
    ensures |r| <= Depth(t)
  {
    TipDepth(t, r);
  }

  /** `u` has the leaves of `t`, with the leaves `x` and `y` merged into one. */
  ghost predicate Merged(t: Weighted, x: nat, y: nat, u: Weighted) {
    forall w: nat :: Count(u, w) + One(w == x) + One(w == y) == Count(t, w) + One(w == x + y)
  }

  /** The exchange argument: with the two lightest leaves merged into one there is a tree
      that is shorter by at least their sum. */
  lemma Merge(t: Weighted, x: nat, y: nat) returns (t': Weighted)
    requires t.Fork? && Lightest(t, x, y)
    ensures Merged(t, x, y, t') && Length(t', 0) + x + y <= Length(t, 0)
  {
    var s, p := Siblings(t, x, y);
    t' := Put(s, p, Tip(x + y));
    PutLength(s, p, Tip(x + y), 0);
    PairLength(x, y, |p|);
    forall w: nat ensures Count(t', w) + One(w == x) + One(w == y) == Count(t, w) + One(w == x + y) {
      PutCount(s, p, Tip(x + y), w);
      assert Count(Fork(Tip(x), Tip(y)), w) == One(x == w) + One(y == w);
      assert Count(t, w) == Count(s, w);
    }
    hide Length, Put, Get, Count;
  }

  lemma PairLength(x: nat, y: nat, d: nat)
    ensures Length(Fork(Tip(x), Tip(y)), d) == Length(Tip(x + y), d) + x + y
  {
    assert x * (d + 1) == x * d + x && y * (d + 1) == y * d + y && (x + y) * d == x * d + y * d;
  }
}
