/** The hash part of a Lua table: nodes in chains of relative links, each key on the
    chain that starts at its main position. */
module TableNodes {

  datatype Key = KNil | KInt(i: int) | KStr(s: string) | KBool(b: bool) | KPtr(p: nat)

  datatype Value = VNil | Value(v: int)

  /** A dead key is one whose object was collected; its entry has no value. */
  datatype Node = Node(key: Key, dead: bool, val: Value, next: int)

  const EMPTY := Node(KNil, false, VNil, 0)

  function Pow2(n: nat): (r: nat)
    ensures r >= 1
  {
    if n == 0 then 1 else 2 * Pow2(n - 1)
  }

  type Hash = string -> nat

  /** The index of the node where a key belongs; the size is a power of two. */
  function MainPosition(k: Key, size: nat, hash: Hash): (r: nat)
    requires size > 0
    ensures r < size
  {
    match k
    case KNil => 0
    case KInt(i) => i % size
    case KStr(s) => hash(s) % size
    case KBool(b) => (if b then 1 else 0) % size
    case KPtr(p) => p % (if size == 1 then 1 else size - 1)
  }

  // ---------- chains ----------

  /** `reach[i]` are the nodes on the chain that starts at node `i`; no chain is cyclic. */
  ghost predicate ReachAt(node: seq<Node>, reach: seq<set<int>>, i: int)
    requires |reach| == |node| && 0 <= i < |node|
  {
    var j := i + node[i].next;
    if node[i].next == 0 then reach[i] == {i}
    else 0 <= j < |node| && reach[i] == {i} + reach[j] && i !in reach[j]
  }

  ghost predicate Chains(node: seq<Node>, reach: seq<set<int>>) {
    && |reach| == |node|
    && (forall i :: 0 <= i < |node| ==> ReachAt(node, reach, i))
    && (forall i, j :: 0 <= i < |node| && j in reach[i] ==> 0 <= j < |node|)
  }

  /** No two nodes have the same successor. */
  ghost predicate OneWay(node: seq<Node>) {
    forall i, j :: 0 <= i < |node| && 0 <= j < |node| && i != j && node[i].next != 0 && node[j].next != 0 ==>
      i + node[i].next != j + node[j].next
  }

  /** A node without key has no value and is on no chain. */
  ghost predicate FreeOk(node: seq<Node>, reach: seq<set<int>>)
    requires |reach| == |node|
  {
    && (forall i :: 0 <= i < |node| && node[i].key == KNil ==> node[i] == EMPTY)
    && (forall i, j {:trigger j in reach[i]} :: 0 <= i < |node| && j in reach[i] && j != i ==>
        0 <= j < |node| && node[j].key != KNil)
  }

  /** A key is on the chain of its main position, which is held by a key that belongs there. */
  ghost predicate PlacedAt(node: seq<Node>, reach: seq<set<int>>, hash: Hash, i: int)
    requires |reach| == |node| > 0 && 0 <= i < |node|
  {
    node[i].key != KNil ==>
      var m := MainPosition(node[i].key, |node|, hash);
      i in reach[m] && node[m].key != KNil && MainPosition(node[m].key, |node|, hash) == m
  }

  ghost predicate Placed(node: seq<Node>, reach: seq<set<int>>, hash: Hash)
    requires |reach| == |node|
  {
    |node| > 0 && forall i :: 0 <= i < |node| ==> PlacedAt(node, reach, hash, i)
  }

  predicate At(node: seq<Node>, k: Key, i: int) {
    0 <= i < |node| && node[i].key == k && !node[i].dead
  }

  /** Every key is in one place, and only keys that are not dead have values. */
  ghost predicate KeysOk(node: seq<Node>) {
    && (forall i, j, k :: k != KNil && At(node, k, i) && At(node, k, j) ==> i == j)
    && (forall i :: 0 <= i < |node| && node[i].dead ==> node[i].val == VNil)
  }

  /** A dead key comes behind a live one with the same address, so that it is not found
      in its place. */
  ghost predicate DeadBehind(node: seq<Node>, reach: seq<set<int>>)
    requires |reach| == |node|
  {
    forall x, y, k :: k != KNil && 0 <= x < |node| && node[x].dead && node[x].key == k && At(node, k, y) ==>
      x in reach[y]
  }

  ghost predicate NodesOk(node: seq<Node>, reach: seq<set<int>>, hash: Hash) {
    Chains(node, reach) && OneWay(node) && FreeOk(node, reach) && Placed(node, reach, hash) && KeysOk(node)
      && DeadBehind(node, reach)
  }

  // ---------- what the nodes hold ----------

  ghost predicate Present(node: seq<Node>, k: Key) {
    exists i :: At(node, k, i)
  }

  ghost function Find(node: seq<Node>, k: Key): Value {
    if k != KNil && Present(node, k) then var i :| At(node, k, i); node[i].val else VNil
  }

  lemma FindAt(node: seq<Node>, k: Key, i: int)
    requires KeysOk(node) && At(node, k, i) && k != KNil
    ensures Find(node, k) == node[i].val
  {
    var j :| At(node, k, j) && Find(node, k) == node[j].val;
    assert i == j;
  }

  /** Nodes with the same keys and values, in other places. */
  lemma FindSame(node: seq<Node>, node': seq<Node>)
    requires KeysOk(node) && KeysOk(node')
    requires forall k, i :: k != KNil && At(node, k, i) && node[i].val != VNil ==>
      exists j :: At(node', k, j) && node'[j].val == node[i].val
    requires forall k, i :: k != KNil && At(node', k, i) && node'[i].val != VNil ==>
      exists j :: At(node, k, j) && node[j].val == node'[i].val
    ensures forall k :: Find(node', k) == Find(node, k)
  {
    forall k | k != KNil ensures Find(node', k) == Find(node, k) {
      if Find(node, k) != VNil {
        var i :| At(node, k, i) && node[i].val == Find(node, k);
        var j :| At(node', k, j) && node'[j].val == node[i].val;
        FindAt(node', k, j);
      } else if Find(node', k) != VNil {
        var i :| At(node', k, i) && node'[i].val == Find(node', k);
        var j :| At(node, k, j) && node[j].val == node'[i].val;
        FindAt(node, k, j);
      }
    }
  }

  // ---------- inserting a key ----------

  /** Only the key and the value of a node change. */
  lemma SameLinks(node: seq<Node>, reach: seq<set<int>>, m: int, n: Node, node': seq<Node>)
    requires Chains(node, reach) && OneWay(node) && 0 <= m < |node| && n.next == node[m].next && node' == node[m := n]
    ensures Chains(node', reach) && OneWay(node') && m in reach[m]
  {
    assert ReachAt(node, reach, m);
    forall i | 0 <= i < |node'| ensures ReachAt(node', reach, i) {
      assert ReachAt(node, reach, i);
    }
    forall i, j | 0 <= i < |node'| && 0 <= j < |node'| && i != j && node'[i].next != 0 && node'[j].next != 0
      ensures i + node'[i].next != j + node'[j].next
    {
      assert node'[i].next == node[i].next && node'[j].next == node[j].next;
    }
  }

  /** The key `k`, which is not in the table, is put at node `m`. */
  lemma AddedKeys(node: seq<Node>, m: int, k: Key, next: int)
    requires KeysOk(node) && k != KNil && !Present(node, k) && 0 <= m < |node| && node[m].val == VNil
    ensures
      var node' := node[m := Node(k, false, VNil, next)];
      KeysOk(node') && At(node', k, m) && forall k' :: Find(node', k') == Find(node, k')
  {
    var node' := node[m := Node(k, false, VNil, next)];
    forall i, j, k' | k' != KNil && At(node', k', i) && At(node', k', j) ensures i == j {
      if i != m {
        assert At(node, k', i);
      }
      if j != m {
        assert At(node, k', j);
      }
    }
    forall k', i | k' != KNil && At(node, k', i) && node[i].val != VNil
      ensures exists j :: At(node', k', j) && node'[j].val == node[i].val
    {
      assert At(node', k', i);
    }
    forall k', i | k' != KNil && At(node', k', i) && node'[i].val != VNil
      ensures exists j :: At(node, k', j) && node[j].val == node'[i].val
    {
      assert At(node, k', i);
    }
    FindSame(node, node');
  }

  /** The main position is free: the key takes it, wherever in a chain it is. */
  lemma InsertFree(node: seq<Node>, reach: seq<set<int>>, hash: Hash, k: Key, m: int, node': seq<Node>)
    requires NodesOk(node, reach, hash) && k != KNil && !Present(node, k) && m == MainPosition(k, |node|, hash)
    requires node[m].val == VNil && node' == node[m := Node(k, false, VNil, node[m].next)]
    ensures NodesOk(node', reach, hash) && At(node', k, m)
    ensures forall k' :: Find(node', k') == Find(node, k')
  {
    SameLinks(node, reach, m, Node(k, false, VNil, node[m].next), node');
    AddedKeys(node, m, k, node[m].next);
    hide Find, MainPosition, KeysOk, OneWay;
    forall i | 0 <= i < |node'| ensures PlacedAt(node', reach, hash, i) {
      assert PlacedAt(node, reach, hash, i);
    }
    forall x, y, q | q != KNil && 0 <= x < |node'| && node'[x].dead && node'[x].key == q && At(node', q, y)
      ensures x in reach[y]
    {
      assert PlacedAt(node, reach, hash, x);
      assert y != m ==> At(node, q, y);
    }
  }

  // ---------- the colliding key belongs there: the new key goes to a free node ----------

  ghost function ReachAfter(reach: seq<set<int>>, m: int, f: int): (r: seq<set<int>>)
    requires 0 <= m < |reach|
    ensures |r| == |reach|
  {
    seq(|reach|, i requires 0 <= i < |reach| =>
      if i == f then {f} + (reach[m] - {m}) else if m in reach[i] then reach[i] + {f} else reach[i])
  }

  /** A node without key is unlinked. */
  lemma FreeNode(node: seq<Node>, reach: seq<set<int>>, f: int)
    requires Chains(node, reach) && FreeOk(node, reach) && 0 <= f < |node| && node[f].key == KNil
    ensures reach[f] == {f} && forall i :: 0 <= i < |node| && i != f ==>
      f !in reach[i] && (node[i].next != 0 ==> i + node[i].next != f)
  {
    assert ReachAt(node, reach, f);
    forall i | 0 <= i < |node| && i != f ensures f !in reach[i] && (node[i].next != 0 ==> i + node[i].next != f) {
      assert ReachAt(node, reach, i);
      if node[i].next != 0 {
        assert ReachAt(node, reach, i + node[i].next);
      }
    }
  }

  lemma ReachSelf(node: seq<Node>, reach: seq<set<int>>, i: int)
    requires Chains(node, reach) && 0 <= i < |node|
    ensures i in reach[i] && ReachAt(node, reach, i)
    ensures node[i].next != 0 ==>
      0 <= i + node[i].next < |node| && i + node[i].next in reach[i] && i + node[i].next in reach[i + node[i].next]
  {
    assert ReachAt(node, reach, i);
    if node[i].next != 0 {
      assert ReachAt(node, reach, i + node[i].next);
    }
  }

  /** The nodes after a key was chained behind node `m`. */
  function Chained(node: seq<Node>, m: int, f: int, k: Key): seq<Node>
    requires 0 <= m < |node| && 0 <= f < |node|
  {
    node[f := Node(k, false, VNil, if node[m].next != 0 then m + node[m].next - f else 0)][m := node[m].(next := f - m)]
  }

  lemma ChainedChains(node: seq<Node>, reach: seq<set<int>>, m: int, f: int, k: Key)
    requires Chains(node, reach) && OneWay(node) && FreeOk(node, reach)
    requires 0 <= m < |node| && 0 <= f < |node| && m != f && node[f].key == KNil
    ensures Chains(Chained(node, m, f, k), ReachAfter(reach, m, f)) && OneWay(Chained(node, m, f, k))
  {
    var node', reach' := Chained(node, m, f, k), ReachAfter(reach, m, f);
    FreeNode(node, reach, f);
    ReachSelf(node, reach, m);
    assert node[f].next == 0;
    forall i | 0 <= i < |node'| ensures ReachAt(node', reach', i) {
      ReachSelf(node, reach, i);
      if i == m {
        assert reach'[m] == {m} + reach'[f];
      } else if i == f {
        if node[m].next != 0 {
          assert reach'[f] == {f} + reach'[m + node[m].next];
        }
      } else if node[i].next != 0 {
        assert reach'[i] == {i} + reach'[i + node[i].next];
      }
    }
    ChainedOneWay(node, reach, m, f, k);
  }

  lemma ChainedOneWay(node: seq<Node>, reach: seq<set<int>>, m: int, f: int, k: Key)
    requires Chains(node, reach) && OneWay(node) && FreeOk(node, reach)
    requires 0 <= m < |node| && 0 <= f < |node| && m != f && node[f].key == KNil
    ensures OneWay(Chained(node, m, f, k))
  {
    FreeNode(node, reach, f);
    var node' := Chained(node, m, f, k);
    forall i, j | 0 <= i < |node'| && 0 <= j < |node'| && i != j && node'[i].next != 0 && node'[j].next != 0
      ensures i + node'[i].next != j + node'[j].next
    {
      var x, y := if i == f then m else i, if j == f then m else j;
      assert i != m && j != m ==> x + node[x].next != y + node[y].next;
    }
  }

  lemma InsertChained(node: seq<Node>, reach: seq<set<int>>, hash: Hash, k: Key, m: int, f: int)
    requires NodesOk(node, reach, hash) && k != KNil && !Present(node, k) && m == MainPosition(k, |node|, hash)
    requires node[m].val != VNil && MainPosition(node[m].key, |node|, hash) == m && 0 <= f < |node|
      && node[f].key == KNil
    ensures NodesOk(Chained(node, m, f, k), ReachAfter(reach, m, f), hash) && At(Chained(node, m, f, k), k, f)
    ensures forall k' :: Find(Chained(node, m, f, k), k') == Find(node, k')
  {
    var node', reach' := Chained(node, m, f, k), ReachAfter(reach, m, f);
    assert m != f && !node[m].dead && !At(node, k, m);
    ChainedChains(node, reach, m, f, k);
    AddedKeys(node, f, k, node'[f].next);
    SameKeys(node[f := node'[f]], node');
    ChainedDead(node, reach, hash, k, m, f);
    hide Find, KeysOk, OneWay, Chains, DeadBehind;
    ChainedPlaced(node, reach, hash, k, m, f);
  }

  lemma ChainedPlaced(node: seq<Node>, reach: seq<set<int>>, hash: Hash, k: Key, m: int, f: int)
    requires Chains(node, reach) && FreeOk(node, reach) && Placed(node, reach, hash) && k != KNil
      && m == MainPosition(k, |node|, hash)
    requires node[m].key != KNil && MainPosition(node[m].key, |node|, hash) == m && 0 <= f < |node|
      && node[f].key == KNil
    ensures FreeOk(Chained(node, m, f, k), ReachAfter(reach, m, f))
      && Placed(Chained(node, m, f, k), ReachAfter(reach, m, f), hash)
  {
    var node', reach' := Chained(node, m, f, k), ReachAfter(reach, m, f);
    FreeNode(node, reach, f);
    ReachSelf(node, reach, m);
    hide MainPosition, Chains;
    forall i | 0 <= i < |node'| ensures PlacedAt(node', reach', hash, i) {
      assert PlacedAt(node, reach, hash, i);
    }
  }

  lemma ChainedDead(node: seq<Node>, reach: seq<set<int>>, hash: Hash, k: Key, m: int, f: int)
    requires |reach| == |node| && Placed(node, reach, hash) && DeadBehind(node, reach) && k != KNil
      && m == MainPosition(k, |node|, hash)
    requires !node[m].dead && node[m].key != k && 0 <= f < |node| && m != f
    ensures DeadBehind(Chained(node, m, f, k), ReachAfter(reach, m, f))
  {
    var node', reach' := Chained(node, m, f, k), ReachAfter(reach, m, f);
    forall x, y, q | q != KNil && 0 <= x < |node'| && node'[x].dead && node'[x].key == q && At(node', q, y)
      ensures x in reach'[y]
    {
      assert PlacedAt(node, reach, hash, x);
      assert y != f ==> At(node, q, y);
    }
  }

  /** Links do not matter for what is found. */
  lemma SameKeys(node: seq<Node>, node': seq<Node>)
    requires KeysOk(node) && |node'| == |node|
      && forall i :: 0 <= i < |node| ==> node'[i] == node[i].(next := node'[i].next)
    ensures KeysOk(node') && forall k :: Find(node', k) == Find(node, k)
  {
    assert forall k, i :: At(node', k, i) == At(node, k, i);
    FindSame(node, node');
  }

  // ---------- the colliding key does not belong there: it moves to a free node ----------

  /** The nodes of a chain after node `m` has been replaced by `f`. */
  ghost function Rerouted(S: set<int>, m: int, f: int): set<int> {
    if m in S then S - {m} + {f} else S
  }

  lemma ReroutedMore(S: set<int>, A: set<int>, i: int, m: int, f: int)
    requires S == {i} + A && i !in A && i != m && i != f
    ensures Rerouted(S, m, f) == {i} + Rerouted(A, m, f) && i !in Rerouted(A, m, f)
  {
  }

  lemma ReroutedOne(i: int, m: int, f: int)
    requires i != m
    ensures Rerouted({i}, m, f) == {i}
  {
  }

  /** The chain of the predecessor. */
  lemma ReroutedPrevious(S: set<int>, A: set<int>, p: int, m: int, f: int)
    requires S == {p} + A && m in A && p !in A && p != m && p != f
    ensures Rerouted(S, m, f) == {p} + ({f} + (A - {m})) && p !in {f} + (A - {m})
  {
  }

  /** The chain of the moved node. */
  lemma ReroutedNext(S: set<int>, A: set<int>, m: int, f: int)
    requires S == {m} + A && m !in A && f !in S
    ensures {f} + (S - {m}) == {f} + Rerouted(A, m, f) && f !in Rerouted(A, m, f)
  {
  }

  ghost function ReachMoved(reach: seq<set<int>>, m: int, f: int): (r: seq<set<int>>)
    requires 0 <= m < |reach|
    ensures |r| == |reach|
  {
    seq(|reach|, i requires 0 <= i < |reach| =>
      if i == m then {m} else if i == f then {f} + (reach[m] - {m}) else Rerouted(reach[i], m, f))
  }

  /** The nodes after the colliding node `m`, whose predecessor is `p`, moved to `f`. */
  function Moved(node: seq<Node>, p: int, m: int, f: int, k: Key): seq<Node>
    requires 0 <= m < |node| && 0 <= f < |node| && 0 <= p < |node|
  {
    var n := if node[m].next != 0 then node[m].next + (m - f) else 0;
    node[f := node[m].(next := n)][p := node[p].(next := f - p)][m := Node(k, false, VNil, 0)]
  }

  lemma MovedAt(node: seq<Node>, reach: seq<set<int>>, p: int, m: int, f: int, k: Key, i: int)
    requires Chains(node, reach) && OneWay(node) && FreeOk(node, reach)
    requires 0 <= m < |node| && 0 <= f < |node| && 0 <= p < |node| && m != f && node[f].key == KNil
    requires node[p].next != 0 && p + node[p].next == m && 0 <= i < |node|
    ensures ReachAt(Moved(node, p, m, f, k), ReachMoved(reach, m, f), i)
  {
    assert i != p && node[i].next != 0 ==> i + node[i].next != m;
    assert node[f].next == 0;
    hide Chains, FreeOk, OneWay, Moved, ReachMoved, Rerouted;
    FreeNode(node, reach, f);
    ReachSelf(node, reach, i);
    MovedNext(node, p, m, f, k, i);
    MovedReach(reach, m, f, i);
    if i == p {
      ReachSelf(node, reach, m);
      MovedReach(reach, m, f, f);
      ReroutedPrevious(reach[p], reach[m], p, m, f);
    } else if i == f && node[m].next != 0 {
      ReachSelf(node, reach, m);
      MovedReach(reach, m, f, m + node[m].next);
      ReroutedNext(reach[m], reach[m + node[m].next], m, f);
    } else if i == f {
      ReachSelf(node, reach, m);
    } else if i != m && node[i].next != 0 {
      MovedReach(reach, m, f, i + node[i].next);
      ReroutedMore(reach[i], reach[i + node[i].next], i, m, f);
    } else if i != m {
      ReroutedOne(i, m, f);
    }
  }

  lemma MovedNext(node: seq<Node>, p: int, m: int, f: int, k: Key, i: int)
    requires 0 <= m < |node| && 0 <= f < |node| && 0 <= p < |node| && m != f && p != m && p != f && 0 <= i < |node|
    ensures |Moved(node, p, m, f, k)| == |node|
    ensures Moved(node, p, m, f, k)[i].next ==
      if i == m then 0 else if i == p then f - p
      else if i == f then (if node[m].next != 0 then node[m].next + (m - f) else 0)
      else node[i].next
  {
  }

  lemma MovedReach(reach: seq<set<int>>, m: int, f: int, i: int)
    requires 0 <= m < |reach| && 0 <= i < |reach|
    ensures |ReachMoved(reach, m, f)| == |reach|
    ensures ReachMoved(reach, m, f)[i] ==
      if i == m then {m} else if i == f then {f} + (reach[m] - {m}) else Rerouted(reach[i], m, f)
  {
  }

  lemma MovedBounds(node: seq<Node>, reach: seq<set<int>>, m: int, f: int)
    requires Chains(node, reach) && 0 <= m < |node| && 0 <= f < |node|
    ensures forall i, j :: 0 <= i < |node| && j in ReachMoved(reach, m, f)[i] ==> 0 <= j < |node|
  {
    hide ReachAt;
  }

  lemma MovedChains(node: seq<Node>, reach: seq<set<int>>, p: int, m: int, f: int, k: Key)
    requires Chains(node, reach) && OneWay(node) && FreeOk(node, reach)
    requires 0 <= m < |node| && 0 <= f < |node| && 0 <= p < |node| && m != f && node[f].key == KNil
    requires node[p].next != 0 && p + node[p].next == m
    ensures Chains(Moved(node, p, m, f, k), ReachMoved(reach, m, f)) && OneWay(Moved(node, p, m, f, k)) && p != m
      && p != f
  {
    var node', reach' := Moved(node, p, m, f, k), ReachMoved(reach, m, f);
    ReachSelf(node, reach, p);
    FreeNode(node, reach, f);
    assert node[f].next == 0;
    forall i | 0 <= i < |node'| ensures ReachAt(node', reach', i) {
      MovedAt(node, reach, p, m, f, k, i);
    }
    MovedBounds(node, reach, m, f);
    MovedOneWay(node, reach, p, m, f, k);
  }

  lemma MovedOneWay(node: seq<Node>, reach: seq<set<int>>, p: int, m: int, f: int, k: Key)
    requires Chains(node, reach) && OneWay(node) && FreeOk(node, reach)
    requires 0 <= m < |node| && 0 <= f < |node| && 0 <= p < |node| && m != f && node[f].key == KNil
    requires node[p].next != 0 && p + node[p].next == m
    ensures OneWay(Moved(node, p, m, f, k))
  {
    FreeNode(node, reach, f);
    ReachSelf(node, reach, p);
    var node' := Moved(node, p, m, f, k);
    forall i, j | 0 <= i < |node'| && 0 <= j < |node'| && i != j && node'[i].next != 0 && node'[j].next != 0
      ensures i + node'[i].next != j + node'[j].next
    {
      var x, y := if i == f then m else i, if j == f then m else j;
      assert i != p && j != p ==> x + node[x].next != y + node[y].next;
    }
  }

  lemma InsertMoved(node: seq<Node>, reach: seq<set<int>>, hash: Hash, k: Key, p: int, m: int, f: int)
    requires NodesOk(node, reach, hash) && k != KNil && !Present(node, k) && m == MainPosition(k, |node|, hash)
    requires node[m].val != VNil && MainPosition(node[m].key, |node|, hash) != m && 0 <= f < |node|
      && node[f].key == KNil
    requires 0 <= p < |node| && node[p].next != 0 && p + node[p].next == m
    ensures NodesOk(Moved(node, p, m, f, k), ReachMoved(reach, m, f), hash) && At(Moved(node, p, m, f, k), k, m)
    ensures forall k' :: Find(Moved(node, p, m, f, k), k') == Find(node, k')
  {
    var node', reach' := Moved(node, p, m, f, k), ReachMoved(reach, m, f);
    assert m != f;
    MovedChains(node, reach, p, m, f, k);
    MovedKeys(node, p, m, f, k);
    FreeNode(node, reach, f);
    ReachSelf(node, reach, m);
    hide Find, MainPosition, KeysOk, OneWay, Chains;
    assert PlacedAt(node, reach, hash, m);
    forall i | 0 <= i < |node'| ensures PlacedAt(node', reach', hash, i) {
      assert PlacedAt(node, reach, hash, i);
    }
    MovedFree(node, reach, p, m, f, k);
    MovedDead(node, reach, hash, p, m, f, k);
  }

  lemma MovedDead(node: seq<Node>, reach: seq<set<int>>, hash: Hash, p: int, m: int, f: int, k: Key)
    requires |reach| == |node| && Placed(node, reach, hash) && DeadBehind(node, reach) && k != KNil
      && m == MainPosition(k, |node|, hash)
    requires !node[m].dead && node[m].key != KNil && MainPosition(node[m].key, |node|, hash) != m
    requires 0 <= f < |node| && 0 <= p < |node| && m != f && p != m && p != f && !node[f].dead
    ensures DeadBehind(Moved(node, p, m, f, k), ReachMoved(reach, m, f))
  {
    var node', reach' := Moved(node, p, m, f, k), ReachMoved(reach, m, f);
    forall x, y, q | q != KNil && 0 <= x < |node'| && node'[x].dead && node'[x].key == q && At(node', q, y)
      ensures x in reach'[y]
    {
      assert PlacedAt(node, reach, hash, x);
      assert y != m;
      assert At(node, q, if y == f then m else y);
    }
  }

  lemma MovedFree(node: seq<Node>, reach: seq<set<int>>, p: int, m: int, f: int, k: Key)
    requires |reach| == |node| && FreeOk(node, reach) && k != KNil && 0 <= m < |node| && 0 <= f < |node|
      && 0 <= p < |node|
    requires node[m].key != KNil && node[f].key == KNil && p != m && p != f && node[p].next != 0
    ensures FreeOk(Moved(node, p, m, f, k), ReachMoved(reach, m, f))
  {
    var node', reach' := Moved(node, p, m, f, k), ReachMoved(reach, m, f);
    forall i, j | 0 <= i < |node'| && j in reach'[i] && j != i ensures 0 <= j < |node'| && node'[j].key != KNil {
      if j != f {
        var x := if i == f then m else i;
        assert j in reach[x] && j != x && j != m;
        assert 0 <= j < |node| && node[j].key != KNil;
      }
    }
  }

  lemma MovedKeys(node: seq<Node>, p: int, m: int, f: int, k: Key)
    requires KeysOk(node) && k != KNil && !Present(node, k) && 0 <= m < |node| && 0 <= f < |node| && 0 <= p < |node|
    requires m != f && p != m && p != f && node[f].key == KNil
    ensures KeysOk(Moved(node, p, m, f, k)) && At(Moved(node, p, m, f, k), k, m)
    ensures forall k' :: Find(Moved(node, p, m, f, k), k') == Find(node, k')
  {
    var node' := Moved(node, p, m, f, k);
    forall k', i | k' != KNil
      ensures At(node', k', i) == (if i == m then k' == k else if i == f then At(node, k', m) else At(node, k', i))
    {
    }
    forall i, j, k' | k' != KNil && At(node', k', i) && At(node', k', j) ensures i == j {
      assert i == m || At(node, k', if i == f then m else i);
      assert j == m || At(node, k', if j == f then m else j);
    }
    forall k', i | k' != KNil && At(node, k', i) && node[i].val != VNil
      ensures exists j :: At(node', k', j) && node'[j].val == node[i].val
    {
      assert At(node', k', if i == m then f else i);
    }
    forall k', i | k' != KNil && At(node', k', i) && node'[i].val != VNil
      ensures exists j :: At(node, k', j) && node[j].val == node'[i].val
    {
      assert At(node, k', if i == f then m else i);
    }
    FindSame(node, node');
  }

  /** The value of a node is written. */
  lemma StoreNode(node: seq<Node>, reach: seq<set<int>>, hash: Hash, k: Key, i: int, v: Value)
    requires NodesOk(node, reach, hash) && At(node, k, i) && k != KNil
    ensures
      var node' := node[i := node[i].(val := v)];
      NodesOk(node', reach, hash) && forall k' :: Find(node', k') == if k' == k then v else Find(node, k')
  {
    var node' := node[i := node[i].(val := v)];
    SameLinks(node, reach, i, node[i].(val := v), node');
    assert forall k', j :: At(node', k', j) == At(node, k', j);
    hide OneWay, Chains, MainPosition;
    assert DeadBehind(node', reach);
    forall j | 0 <= j < |node'| ensures PlacedAt(node', reach, hash, j) {
      assert PlacedAt(node, reach, hash, j);
    }
    FindAt(node', k, i);
    forall k' | k' != k && k' != KNil ensures Find(node', k') == Find(node, k') {
      if Present(node, k') {
        var j :| At(node, k', j);
        FindAt(node, k', j);
        FindAt(node', k', j);
      }
    }
  }

  // ---------- the order of a chain ----------

  /** The chain of a later node is a part of the chain. */
  lemma {:induction false} ReachTail(node: seq<Node>, reach: seq<set<int>>, i: int, j: int)
    requires Chains(node, reach) && 0 <= i < |node| && j in reach[i]
    ensures 0 <= j < |node| && reach[j] <= reach[i] && (j != i ==> i !in reach[j])
    decreases |reach[i]|
  {
    ReachSelf(node, reach, i);
    if j != i {
      var n := i + node[i].next;
      ReachSmaller(reach[n], reach[i], i);
      ReachTail(node, reach, n, j);
    }
  }

  lemma ReachSmaller(a: set<int>, b: set<int>, x: int)
    requires b == {x} + a && x !in a
    ensures |a| < |b|
  {
  }

  /** The key of an entry without value is marked dead when its object is collected. */
  lemma KillNode(node: seq<Node>, reach: seq<set<int>>, hash: Hash, i: int)
    requires NodesOk(node, reach, hash) && 0 <= i < |node| && node[i].key != KNil && node[i].val == VNil
    ensures
      var node' := node[i := node[i].(dead := true)];
      NodesOk(node', reach, hash) && forall k :: Find(node', k) == Find(node, k)
  {
    var node' := node[i := node[i].(dead := true)];
    SameLinks(node, reach, i, node[i].(dead := true), node');
    forall k, j ensures At(node', k, j) == (At(node, k, j) && j != i) {
    }
    hide OneWay, Chains, MainPosition, Find;
    forall j | 0 <= j < |node'| ensures PlacedAt(node', reach, hash, j) {
      assert PlacedAt(node, reach, hash, j);
    }
    forall x, y, q | q != KNil && 0 <= x < |node'| && node'[x].dead && node'[x].key == q && At(node', q, y)
      ensures x in reach[y]
    {
      assert At(node, q, y);
      assert x == i && !node[x].dead ==> At(node, q, x);
    }
    forall k, j | k != KNil && At(node, k, j) && node[j].val != VNil
      ensures exists l :: At(node', k, l) && node'[l].val == node[j].val
    {
      assert At(node', k, j);
    }
    forall k, j | k != KNil && At(node', k, j) && node'[j].val != VNil
      ensures exists l :: At(node, k, l) && node[l].val == node'[j].val
    {
      assert At(node, k, j);
    }
    FindSame(node, node');
  }

  /** On a chain, the first node with the key of a live entry is that entry. */
  lemma FirstMatch(node: seq<Node>, reach: seq<set<int>>, k: Key, n: int, x: int)
    requires Chains(node, reach) && KeysOk(node) && DeadBehind(node, reach) && k != KNil
    requires 0 <= n < |node| && node[n].key == k && At(node, k, x) && x in reach[n]
    ensures x == n
  {
    ReachTail(node, reach, n, x);
    hide Chains, ReachAt;
    if !node[n].dead {
      assert At(node, k, n);
    }
  }

  /** The keys of the nodes are on the chains of their main positions. */
  lemma OnChain(node: seq<Node>, reach: seq<set<int>>, hash: Hash, k: Key)
    requires |reach| == |node| && Placed(node, reach, hash) && k != KNil
    ensures forall x :: At(node, k, x) ==> x in reach[MainPosition(k, |node|, hash)]
  {
    hide MainPosition;
    forall x | At(node, k, x) ensures x in reach[MainPosition(k, |node|, hash)] {
      assert PlacedAt(node, reach, hash, x);
    }
  }

  /** One step along a chain that has not met its key yet. */
  lemma ChainStep(node: seq<Node>, reach: seq<set<int>>, k: Key, n: int)
    requires Chains(node, reach) && 0 <= n < |node| && !At(node, k, n) && forall x :: At(node, k, x) ==> x in reach[n]
    ensures if node[n].next == 0 then !Present(node, k) else
      var m := n + node[n].next;
      0 <= m < |node| && |reach[m]| < |reach[n]| && forall x :: At(node, k, x) ==> x in reach[m]
  {
    ReachSelf(node, reach, n);
    if node[n].next != 0 {
      ReachSmaller(reach[n + node[n].next], reach[n], n);
    }
  }
}
