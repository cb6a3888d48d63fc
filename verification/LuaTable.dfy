/** Lua tables: an array part and a hash part with Brent's variation, which grow when a
    new key finds no free node. */
module LuaTable {
  import opened Options
  import opened TableNodes
  import opened TableSizes
  import opened TableContents

  /** Where the value of a key is stored. */
  datatype Cell = ArrayCell(i: nat) | NodeCell(i: nat)

  const MAXINT := 0x7fff_ffff

  /** A table index must not be nil. */
  datatype Outcome = Ok(cell: Cell) | IndexIsNil

  class Table {
    var arr: seq<Value>
    var node: seq<Node>
    var lastfree: nat
    var dummy: bool
    ghost var reach: seq<set<int>>
    const hash: Hash

    ghost predicate Base()
      reads this`node, this`reach, this`arr, this`dummy
    {
      && NodesOk(node, reach, hash)
      && (exists n: nat :: |node| == Pow2(n))
      && (dummy ==> node == [EMPTY])
      && Apart(|arr|, node) && |arr| <= Pow2(MAXABITS)
    }

    /** All nodes from `c` on have keys. */
    ghost predicate CursorOk(c: nat)
      reads this`node, this`dummy
    {
      c <= |node| && (!dummy ==> forall i :: c <= i < |node| ==> node[i].key != KNil)
    }

    ghost predicate Valid()
      reads this
    {
      Base() && CursorOk(lastfree)
    }

    /** The value of a key, which is nil for keys that are not in the table. */
    ghost function Lookup(k: Key): Value
      reads this`arr, this`node
    {
      LookupIn(arr, node, k)
    }

    /** An empty table. */
    constructor (strhash: Hash)
      ensures Valid() && hash == strhash && forall k :: Lookup(k) == VNil
    {
      arr, node, lastfree, dummy := [], [EMPTY], 0, true;
      reach := Alone(1);
      hash := strhash;
      new;
      EmptyNodes([EMPTY], hash);
      assert Pow2(0) == 1;
    }

    /** The cell `c` holds the value of `k`. */
    ghost predicate Holds(c: Cell, k: Key)
      reads this
    {
      match c
      case ArrayCell(i) => InArray(|arr|, k) && i == k.i - 1
      case NodeCell(i) => !InArray(|arr|, k) && At(node, k, i)
    }

    function CellValue(c: Cell): Value
      reads this
    {
      match c
      case ArrayCell(i) => if i < |arr| then arr[i] else VNil
      case NodeCell(i) => if i < |node| then node[i].val else VNil
    }

    lemma HoldsValue(c: Cell, k: Key)
      requires Valid() && k != KNil && Holds(c, k)
      ensures CellValue(c) == Lookup(k)
    {
      if c.NodeCell? {
        FindAt(node, k, c.i);
      }
    }

    // ---------- searching ----------

    /** Searches the chain of a key from its main position. */
    method SearchChain(k: Key) returns (r: Option<nat>)
      requires Valid() && k != KNil
      ensures if r.Some? then At(node, k, r.value) else !Present(node, k)
    {
      hide MainPosition, NodesOk;
      NodesParts();
      OnChain(node, reach, hash, k);
      var n := MainPosition(k, |node|, hash);
      hide Chains, KeysOk, Placed, DeadBehind;
      while true
        invariant 0 <= n < |node| && forall x :: At(node, k, x) ==> x in reach[n]
        decreases |reach[n]|
      {
        if node[n].key == k && !node[n].dead {
          return Some(n);
        }
        ChainStep(node, reach, k, n);
        var nx := node[n].next;
        if nx == 0 {
          return None;
        }
        n := n + nx;
      }
    }

    lemma NodesParts()
      requires Base()
      ensures |reach| == |node| > 0 && Chains(node, reach) && KeysOk(node) && Placed(node, reach, hash)
        && DeadBehind(node, reach)
    {
    }

    /** The cell of an integer key, if there is one. */
    method GetInt(key: int) returns (r: Option<Cell>)
      requires Valid()
      ensures if r.Some? then Holds(r.value, KInt(key)) else !InArray(|arr|, KInt(key)) && !Present(node, KInt(key))
    {
      if 1 <= key <= |arr| {
        return Some(ArrayCell(key - 1));
      }
      var n := SearchChain(KInt(key));
      return if n.Some? then Some(NodeCell(n.value)) else None;
    }

    /** The cell of a key, if there is one. */
    method Get(k: Key) returns (r: Option<Cell>)
      requires Valid()
      ensures if r.Some? then k != KNil && Holds(r.value, k) else k == KNil || (!InArray(|arr|, k) && !Present(node, k))
    {
      if k == KNil {
        return None;
      }
      if k.KInt? {
        r := GetInt(k.i);
      } else {
        var n := SearchChain(k);
        r := if n.Some? then Some(NodeCell(n.value)) else None;
      }
    }

    /** The value of a key. */
    method Read(k: Key) returns (v: Value)
      requires Valid()
      ensures v == Lookup(k)
    {
      var c := Get(k);
      if c == None {
        return VNil;
      }
      HoldsValue(c.value, k);
      return CellValue(c.value);
    }

    // ---------- free nodes ----------

    /** The next free node below the cursor; the cursor stops at it. */
    method GetFreePos() returns (r: Option<nat>)
      requires Valid()
      modifies this`lastfree
      ensures Base() && lastfree <= old(lastfree)
      ensures r.Some? ==> !dummy && r.value == lastfree < |node| && node[lastfree].key == KNil && CursorOk(lastfree + 1)
      ensures r == None ==> Valid() && (dummy || !Room(node))
    {
      hide Base;
      if !dummy {
        while lastfree > 0
          invariant Valid() && !dummy && lastfree <= old(lastfree)
          decreases lastfree
        {
          lastfree := lastfree - 1;
          if node[lastfree].key == KNil {
            return Some(lastfree);
          }
        }
      }
      return None;
    }

    // ---------- inserting ----------

    /** The node before `m` on the chain that starts at `othern`. */
    method Previous(othern: nat, m: nat) returns (p: nat)
      requires Base() && othern < |node| && m < |node| && othern != m && m in reach[othern]
      ensures p < |node| && node[p].next != 0 && p + node[p].next == m
    {
      hide OneWay, FreeOk, Placed, KeysOk;
      p := othern;
      ReachSelf(node, reach, p);
      while p + node[p].next != m
        invariant p < |node| && p != m && m in reach[p] && node[p].next != 0
        decreases |reach[p]|
      {
        ghost var n := p + node[p].next;
        ReachSelf(node, reach, p);
        SetSize(reach[n], reach[p] - {p});
        ReachSelf(node, reach, n);
        p := p + node[p].next;
      }
    }

    /** Moves the colliding node, which is out of its main position, to the free node, and
        puts the key in its place. */
    method MoveColliding(othern: nat, mp: nat, f: nat, k: Key)
      requires Base() && k != KNil && !InArray(|arr|, k) && !Present(node, k) && mp == MainPosition(k, |node|, hash)
      requires node[mp].val != VNil && othern == MainPosition(node[mp].key, |node|, hash) != mp
      requires f < |node| && node[f].key == KNil && !dummy
      modifies this`node, this`reach
      ensures Base() && At(node, k, mp) && node[mp].val == VNil && |node| == |old(node)|
      ensures forall k' :: Lookup(k') == old(Lookup(k'))
      ensures forall i :: 0 <= i < |node| && i != f ==> (node[i].key == KNil <==> old(node)[i].key == KNil)
      ensures node[f].key != KNil
    {
      hide Find, MainPosition, Pow2, MAXABITS, NodesOk;
      ghost var node0 := node;
      KeyAt(mp);
      var p := Previous(othern, mp);
      InsertMoved(node, reach, hash, k, p, mp, f);
      FreeLinks(f);
      reach := ReachMoved(reach, mp, f);
      node := node[p := node[p].(next := f - p)];
      node := node[f := node[mp]];
      if node[mp].next != 0 {
        node := node[f := node[f].(next := node[f].next + (mp - f))];
        node := node[mp := node[mp].(next := 0)];
      }
      node := node[mp := node[mp].(val := VNil)];
      node := node[mp := node[mp].(key := k, dead := false)];
      assert node == Moved(node0, p, mp, f, k);
    }

    /** Chains the free node behind the main position and puts the key there. */
    method ChainNew(mp: nat, f: nat, k: Key)
      requires Base() && k != KNil && !InArray(|arr|, k) && !Present(node, k) && mp == MainPosition(k, |node|, hash)
      requires node[mp].val != VNil && MainPosition(node[mp].key, |node|, hash) == mp
      requires f < |node| && node[f].key == KNil && !dummy
      modifies this`node, this`reach
      ensures Base() && At(node, k, f) && node[f].val == VNil && |node| == |old(node)|
      ensures forall k' :: Lookup(k') == old(Lookup(k'))
      ensures forall i :: 0 <= i < |node| && i != f ==> (node[i].key == KNil <==> old(node)[i].key == KNil)
    {
      hide Find, MainPosition, Pow2, MAXABITS, NodesOk;
      ghost var node0 := node;
      KeyAt(mp);
      FreeLinks(f);
      InsertChained(node, reach, hash, k, mp, f);
      reach := ReachAfter(reach, mp, f);
      if node[mp].next != 0 {
        node := node[f := node[f].(next := mp + node[mp].next - f)];
      } else {
        assert node[f].next == 0;
      }
      node := node[mp := node[mp].(next := f - mp)];
      node := node[f := node[f].(key := k, dead := false)];
      assert node == Chained(node0, mp, f, k);
    }

    /** A node with a value has a key, which is not dead. */
    lemma KeyAt(m: nat)
      requires Base() && m < |node| && node[m].val != VNil
      ensures node[m].key != KNil && !node[m].dead && |reach| == |node|
      ensures
        var o := MainPosition(node[m].key, |node|, hash);
        o < |node| && m in reach[o]
    {
      assert PlacedAt(node, reach, hash, m);
    }

    lemma FreeLinks(f: nat)
      requires Base() && f < |node| && node[f].key == KNil
      ensures node[f] == EMPTY
    {
    }

    /** The part of NewKey that finds a place without growing the table: a free main
        position, or a free node, to which the colliding key moves when it is not in its
        own main position. */
    method Place(k: Key) returns (r: Option<nat>)
      requires Valid() && k != KNil && !InArray(|arr|, k) && !Present(node, k)
      modifies this`node, this`lastfree, this`reach
      ensures Valid() && forall k' :: Lookup(k') == old(Lookup(k'))
      ensures r.Some? ==> At(node, k, r.value) && node[r.value].val == VNil && !dummy
      ensures r == None ==> node == old(node) && (dummy || !Room(node))
      ensures |node| == |old(node)| && |FreeNodes(node)| >= |FreeNodes(old(node))| - 1
    {
      hide Find, MainPosition, NodesOk, Pow2, MAXABITS;
      ghost var node0 := node;
      var mp := MainPosition(k, |node|, hash);
      if node[mp].val != VNil || dummy {
        var f := GetFreePos();
        if f == None {
          return None;
        }
        KeyAt(mp);
        var othern := MainPosition(node[mp].key, |node|, hash);
        if othern != mp {
          MoveColliding(othern, mp, f.value, k);
        } else {
          ChainNew(mp, f.value, k);
          mp := f.value;
        }
        FreeLess(node0, node, f.value);
        return Some(mp);
      }
      InsertFree(node, reach, hash, k, mp, node[mp := Node(k, false, VNil, node[mp].next)]);
      node := node[mp := Node(k, false, VNil, node[mp].next)];
      FreeLess(node0, node, mp);
      return Some(mp);
    }

    // ---------- counting ----------

    /** Counts a key when it can live in the array part. */
    method CountInt(k: Key, nums0: seq<nat>, ghost S: set<int>) returns (nums: seq<nat>, n: nat)
      requires Counts(nums0, S) && (InArray(Pow2(MAXABITS), k) ==> k.i !in S)
      ensures n == if InArray(Pow2(MAXABITS), k) then 1 else 0
      ensures Counts(nums, if n == 1 then S + {k.i} else S)
    {
      nums, n := nums0, 0;
      if InArray(Pow2(MAXABITS), k) {
        var lg := CeilLog2(k.i);
        SliceOf(k.i, lg);
        CountsAdd(nums, S, k.i, lg);
        nums, n := nums[lg := nums[lg] + 1], 1;
      }
    }

    /** Counts the keys of the array part, slice by slice. */
    method NumUseArray() returns (nums: seq<nat>, ause: nat)
      requires |arr| <= Pow2(MAXABITS)
      ensures Counts(nums, ArrayInts(arr)) && ause == |ArrayInts(arr)|
    {
      hide Pow2, InSlice, Between, Slice, ArrayInts, Counts;
      ghost var A := ArrayInts(arr);
      nums, ause := seq(MAXABITS + 1, i => 0), 0;
      var lg, ttlg, i := 0, 1, 1;
      BetweenNone(A, 0);
      PowZero();
      while lg <= MAXABITS
        invariant 0 <= lg <= MAXABITS + 1 && ttlg == Pow2(lg) && CountsBelow(nums, A, lg)
        invariant i - 1 == if lg == 0 then 0 else if Pow2(lg - 1) > |arr| then |arr| else Pow2(lg - 1)
        invariant ause == |Between(A, 0, i - 1)| && ause >= 0
      {
        var lim := ttlg;
        if lim > |arr| {
          lim := |arr|;
          if i > lim {
            break;
          }
        }
        ghost var lo := i - 1;
        var lc := 0;
        BetweenNone(A, lo);
        Double(lg);
        if lg > 0 {
          Double(lg - 1);
        }
        while i <= lim
          invariant lo < i <= lim + 1 && lc == |Between(A, lo, i - 1)| && lc >= 0
        {
          BetweenNext(arr, lo, i);
          if arr[i - 1] != VNil {
            lc := lc + 1;
          }
          i := i + 1;
        }
        BetweenSlice(arr, lg, lim);
        BetweenJoin(A, 0, lo, lim);
        CountsBelowNext(nums, A, lg, lc);
        nums := nums[lg := nums[lg] + lc];
        ause := ause + lc;
        lg, ttlg := lg + 1, ttlg * 2;
      }
      ArrayIntsUpTo(arr);
      BetweenAll(arr);
      CountsAll(nums, A, lg, |arr|);
    }

    /** Counts the key of one node. */
    method CountNode(i: nat, nums0: seq<nat>, ghost S: set<int>) returns (nums: seq<nat>, n: nat)
      requires Base() && i < |node| && node[i].val != VNil && S !! NodeInts(node, 0)
        && Counts(nums0, S + NodeInts(node, i + 1))
      ensures Counts(nums, S + NodeInts(node, i)) && |NodeInts(node, i)| == |NodeInts(node, i + 1)| + n
      ensures |NodeKeys(node, i)| == |NodeKeys(node, i + 1)| + 1
    {
      KeysFacts();
      NodeCountNext(node, i, S);
      hide Counts, NodesOk, NodeInts, NodeKeys, KeysOk;
      nums, n := CountInt(node[i].key, nums0, S + NodeInts(node, i + 1));
    }

    /** Counts the keys of the hash part. */
    method NumUseHash(nums0: seq<nat>, pna: nat, ghost S: set<int>) returns (nums: seq<nat>, na: nat, totaluse: nat)
      requires Base() && Counts(nums0, S) && S !! NodeInts(node, 0)
      ensures Counts(nums, S + NodeInts(node, 0)) && na == pna + |NodeInts(node, 0)| && totaluse == |NodeKeys(node, 0)|
    {
      hide Counts, NodesOk, NodeInts, NodeKeys, KeysOk;
      NodeNone(node);
      nums, na, totaluse := nums0, pna, 0;
      assert S + {} == S;
      for i := |node| downto 0
        invariant Counts(nums, S + NodeInts(node, i)) && na == pna + |NodeInts(node, i)|
          && totaluse == |NodeKeys(node, i)|
      {
        if node[i].val != VNil {
          var c: nat;
          nums, c := CountNode(i, nums, S);
          na := na + c;
          totaluse := totaluse + 1;
        } else {
          KeysFacts();
          NodeSkip(node, i);
        }
      }
    }

    lemma KeysFacts()
      requires Base()
      ensures KeysOk(node) && FreeEmpty(node) && forall i :: 0 <= i < |node| && node[i].val != VNil ==>
        node[i].key != KNil
    {
    }

    // ---------- storing ----------

    ghost function Live(): set<Key>
      reads this`arr, this`node
    {
      LiveKeys(arr, node)
    }

    /** Whether a key has no place in the array part, and no node is free for it. */
    ghost predicate Needs(k: Key)
      reads this`arr, this`node, this`dummy
    {
      !InArray(|arr|, k) && (dummy || !Room(node))
    }

    /** The limit on the number of keys: sizes do not overflow. */
    ghost predicate Small()
      reads this`arr, this`node
    {
      |Live()| + 1 < Pow2(MAXHBITS)
    }

    /** Writes the cell of a key. */
    method Store(c: Cell, k: Key, v: Value)
      requires Valid() && k != KNil && Holds(c, k) && (c.NodeCell? ==> !dummy)
      modifies this`arr, this`node
      ensures Valid() && |arr| == |old(arr)| && |node| == |old(node)| && FreeNodes(node) == FreeNodes(old(node))
      ensures forall k' :: Lookup(k') == if k' == k then v else old(Lookup(k'))
    {
      hide Find, MainPosition, Pow2, MAXABITS, NodesOk;
      match c
      case ArrayCell(i) =>
        arr := arr[i := v];
      case NodeCell(i) =>
        StoreNode(node, reach, hash, k, i, v);
        node := node[i := node[i].(val := v)];
    }

    /** The cell for a key, a new one if the key is not in the table. */
    method Set(k: Key) returns (r: Outcome)
      requires Valid() && (Needs(k) && k != KNil ==> Small())
      modifies this
      ensures Valid() && forall k' :: Lookup(k') == old(Lookup(k'))
      ensures if k == KNil then r.IndexIsNil? else r.Ok? && Holds(r.cell, k) && (r.cell.NodeCell? ==> !dummy)
      ensures !old(Needs(k)) ==> |arr| == |old(arr)| && |node| == |old(node)| && dummy == old(dummy)
      ensures !old(Needs(k)) ==> |FreeNodes(node)| >= |FreeNodes(old(node))| - (if InArray(|arr|, k) then 0 else 1)
      decreases if Needs(k) then 2 else 0, 2
    {
      hide Base, CursorOk, LookupIn, Small;
      var p := Get(k);
      if p.Some? {
        if p.value.NodeCell? {
          NotDummy(k, p.value.i);
        }
        return Ok(p.value);
      }
      r := NewKey(k);
    }

    /** Inserts a new key; the table grows when there is no free node for it. */
    method NewKey(k: Key) returns (r: Outcome)
      requires Valid() && (k != KNil ==> !InArray(|arr|, k) && !Present(node, k)) && (Needs(k) && k != KNil ==> Small())
      modifies this
      ensures Valid() && forall k' :: Lookup(k') == old(Lookup(k'))
      ensures if k == KNil then r.IndexIsNil? else r.Ok? && Holds(r.cell, k) && (r.cell.NodeCell? ==> !dummy)
      ensures !old(Needs(k)) ==> |arr| == |old(arr)| && |node| == |old(node)| && dummy == old(dummy)
      ensures !old(Needs(k)) ==> |FreeNodes(node)| >= |FreeNodes(old(node))| - 1
      decreases if Needs(k) then 2 else 0, 1
    {
      hide Base, CursorOk, LookupIn, Small;
      if k == KNil {
        return IndexIsNil;
      }
      var p := Place(k);
      if p == None {
        Rehash(k);
        r := Set(k);
      } else {
        return Ok(NodeCell(p.value));
      }
    }

    /** The integer keys, with `ek`, that decide the size of the array part. */
    ghost function WithKey(ek: Key): set<int>
      reads this`arr, this`node
    {
      LiveInts(arr, node) + if InArray(Pow2(MAXABITS), ek) then {ek.i} else {}
    }

    /** Grows the table for the key `ek`: counts the integer keys, chooses the best size
        for the array part and resizes, with room for all other keys and `ek`. */
    method Rehash(ek: Key)
      requires Valid() && ek != KNil && !InArray(|arr|, ek) && !Present(node, ek) && Small()
      modifies this
      ensures Valid() && (forall k :: Lookup(k) == old(Lookup(k))) && !Needs(ek)
      ensures Optimal(old(WithKey(ek)), |arr|)
      decreases 1, 3
    {
      hide Base, CursorOk, Find, Pow2, MAXABITS, MAXHBITS, NodesOk, Counts, Optimal, LiveKeys, ArrayInts, NodeInts,
           NodeKeys, UpTo, ArrayKeys, OutKeys, InArray, LookupIn, Sound;
      ghost var L, S := Live(), WithKey(ek);
      ValidFacts();
      CountFacts(arr, node, ek);
      var nums, na := NumUseArray();
      var totaluse := na;
      var hashuse: nat;
      nums, na, hashuse := NumUseHash(nums, na, ArrayInts(arr));
      totaluse := totaluse + hashuse;
      var c: nat;
      nums, c := CountInt(ek, nums, ArrayInts(arr) + NodeInts(node, 0));
      na := na + c;
      totaluse := totaluse + 1;
      CountedAll(nums, ArrayInts(arr) + NodeInts(node, 0), ek, c);
      SizeFacts(arr, node, ek, L, S, totaluse, na);
      var asize: nat;
      asize, na := ComputeSizes(nums, na, S);
      OutFacts(arr, node, ek, L, S, totaluse, asize, na);
      Resize(asize, totaluse - na);
      RoomSize(node);
    }

    /** A new vector of free nodes; without nodes the shared empty node is used. */
    method SetNodeVector(size: nat)
      requires size <= Pow2(MAXHBITS)
      modifies this`node, this`lastfree, this`dummy, this`reach
      ensures NodesOk(node, reach, hash) && (forall k :: Find(node, k) == VNil) && CursorOk(lastfree)
        && (exists n: nat :: |node| == Pow2(n))
      ensures forall i :: 0 <= i < |node| ==> node[i] == EMPTY
      ensures if size == 0 then dummy && node == [EMPTY] else !dummy && |node| >= size
      ensures |FreeNodes(node)| == |node|
    {
      hide Pow2, NodesOk, MAXHBITS, Find;
      var n := 1;
      if size == 0 {
        lastfree, dummy := 0, true;
        PowZero();
        node := [EMPTY];
      } else {
        var lsize := CeilLog2(size);
        n := Pow2(lsize);
        node := seq(n, i => EMPTY);
        lastfree, dummy := n, false;
      }
      reach := Alone(n);
      EmptyNodes(node, hash);
      AllFree(node);
    }

    /** A resize is under way: the keys in `done` have been inserted again, with their old
        values, and the others are still missing. */
    ghost predicate Inserting(arr0: seq<Value>, node0: seq<Node>, done: set<Key>, nasize: nat, nhsize: nat)
      reads this
    {
      && Valid() && |arr| == nasize
      && (forall k :: Lookup(k) == if k in done then LookupIn(arr0, node0, k) else VNil)
      && (if nhsize == 0 then dummy else !dummy && |node| >= nhsize)
      && |FreeNodes(node)| + |OutKeys(done, nasize)| >= |node|
      && |OutKeys(LiveKeys(arr0, node0), nasize)| <= nhsize && done <= LiveKeys(arr0, node0)
    }

    /** There is room for one more of the old keys. */
    lemma InsertRoom(arr0: seq<Value>, node0: seq<Node>, done: set<Key>, nasize: nat, nhsize: nat, k: Key)
      requires Inserting(arr0, node0, done, nasize, nhsize) && k in LiveKeys(arr0, node0) && k !in done
      ensures !Needs(k) && OutKeys(done + {k}, nasize) ==
        OutKeys(done, nasize) + (if InArray(nasize, k) then {} else {k})
      ensures !InArray(nasize, k) ==> |OutKeys(done + {k}, nasize)| == |OutKeys(done, nasize)| + 1
    {
      if !InArray(nasize, k) {
        var L := OutKeys(LiveKeys(arr0, node0), nasize);
        assert k in L && k !in OutKeys(done, nasize) && OutKeys(done, nasize) <= L;
        assert OutKeys(done + {k}, nasize) == OutKeys(done, nasize) + {k};
        SetSize(OutKeys(done, nasize) + {k}, L);
        RoomSize(node);
      } else {
        assert OutKeys(done + {k}, nasize) == OutKeys(done, nasize);
      }
    }

    /** Inserts one of the old keys again. */
    method Reinsert(k: Key, v: Value, ghost arr0: seq<Value>, ghost node0: seq<Node>, ghost done: set<Key>,
                    ghost nasize: nat, ghost nhsize: nat)
      requires Inserting(arr0, node0, done, nasize, nhsize) && k in LiveKeys(arr0, node0) && k !in done && k != KNil
      requires v == LookupIn(arr0, node0, k)
      modifies this
      ensures Inserting(arr0, node0, done + {k}, nasize, nhsize)
      decreases 1, 1
    {
      hide LookupIn, LiveKeys, OutKeys, Valid, Small, Needs, FreeNodes, InArray;
      InsertRoom(arr0, node0, done, nasize, nhsize, k);
      var c := Set(k);
      Store(c.cell, k, v);
    }
    lemma ValidFacts()
      requires Valid()
      ensures Sound(arr, node) && (dummy ==> node == [EMPTY])
    {
    }

    /** With the array part cut or extended, its remaining keys are all that is there. */
    lemma StartInserting(arr0: seq<Value>, node0: seq<Node>, nasize: nat, nhsize: nat)
      requires NodesOk(node, reach, hash) && (forall k :: Find(node, k) == VNil) && CursorOk(lastfree)
        && (exists n: nat :: |node| == Pow2(n))
      requires forall i :: 0 <= i < |node| ==> node[i] == EMPTY
      requires if nhsize == 0 then dummy && node == [EMPTY] else !dummy && |node| >= nhsize
      requires |FreeNodes(node)| == |node| && nasize <= Pow2(MAXABITS)
      requires arr == if nasize > |arr0| then arr0 + seq(nasize - |arr0|, i => VNil) else arr0[..nasize]
      requires |OutKeys(LiveKeys(arr0, node0), nasize)| <= nhsize
      ensures Inserting(arr0, node0, IntKeys(UpTo(ArrayInts(arr0), nasize)), nasize, nhsize)
    {
      var done := IntKeys(UpTo(ArrayInts(arr0), nasize));
      assert done <= LiveKeys(arr0, node0) by {
        hide Pow2, NodesOk, OutKeys, Find, ArrayInts;
      }
      hide Find, Pow2, NodesOk, MAXABITS, LookupIn, LiveKeys, OutKeys, IntKeys, UpTo, ArrayInts;
      forall k ensures Lookup(k) == if k in done then LookupIn(arr0, node0, k) else VNil {
        CutLookup(arr0, node0, arr, node, nasize, k);
      }
    }

    lemma InsertingDone(arr0: seq<Value>, node0: seq<Node>, done: set<Key>, nasize: nat, nhsize: nat)
      requires Inserting(arr0, node0, done, nasize, nhsize) && Sound(arr0, node0) && done == LiveKeys(arr0, node0)
      ensures Valid() && |arr| == nasize && (forall k :: Lookup(k) == LookupIn(arr0, node0, k))
      ensures if nhsize == 0 then dummy else !dummy && |node| >= nhsize
      ensures |FreeNodes(node)| + |OutKeys(LiveKeys(arr0, node0), nasize)| >= |node|
    {
      hide LookupIn, Find, Valid, LiveKeys;
      forall k ensures Lookup(k) == LookupIn(arr0, node0, k) {
        AllInserted(arr0, node0, k);
      }
    }

    /** Gives the array part the size `nasize` and the hash part room for `nhsize` keys,
        and inserts all keys again. */
    method Resize(nasize: nat, nhsize: nat)
      requires Valid() && nasize <= Pow2(MAXABITS) && nhsize <= Pow2(MAXHBITS) && |OutKeys(Live(), nasize)| <= nhsize
      modifies this
      ensures Valid() && |arr| == nasize && forall k :: Lookup(k) == old(Lookup(k))
      ensures if nhsize == 0 then dummy else !dummy && |node| >= nhsize
      ensures |FreeNodes(node)| + |OutKeys(old(Live()), nasize)| >= |node|
      decreases 1, 2
    {
      hide Base, CursorOk, LookupIn, Find, Pow2, MAXABITS, MAXHBITS, Inserting, NodesOk;
      ghost var arr0, node0, L := arr, node, Live();
      ValidFacts();
      var oldasize := |arr|;
      var nold, oldhsize := node, if dummy then 0 else |node|;
      if nasize > oldasize {
        arr := arr + seq(nasize - oldasize, i => VNil);
      }
      SetNodeVector(nhsize);
      var vanishing: seq<Value> := [];
      if nasize < oldasize {
        vanishing := arr[nasize..];
        arr := arr[..nasize];
      }
      ghost var done := IntKeys(UpTo(ArrayInts(arr0), nasize));
      StartInserting(arr0, node0, nasize, nhsize);
      for i := 0 to |vanishing|
        invariant nasize <= oldasize || vanishing == []
        invariant vanishing == if nasize < oldasize then arr0[nasize..] else []
        invariant done == IntKeys(UpTo(ArrayInts(arr0), nasize + i)) && Inserting(arr0, node0, done, nasize, nhsize)
      {
        VanishNext(arr0, node0, nasize + i + 1);
        if vanishing[i] != VNil {
          Reinsert(KInt(nasize + i + 1), vanishing[i], arr0, node0, done, nasize, nhsize);
          done := done + {KInt(nasize + i + 1)};
        }
      }
      VanishDone(arr0, node0, nasize + |vanishing|, oldhsize);
      for j := oldhsize downto 0
        invariant nold == node0 && (oldhsize == |node0| || oldhsize == 0)
        invariant done == IntKeys(ArrayInts(arr0)) + NodeKeys(node0, j) && Inserting(arr0, node0, done, nasize, nhsize)
      {
        HashNext(arr0, node0, j);
        if nold[j].val != VNil {
          Reinsert(nold[j].key, nold[j].val, arr0, node0, done, nasize, nhsize);
          done := done + {nold[j].key};
        }
      }
      InsertingDone(arr0, node0, done, nasize, nhsize);
    }

    /** A node that holds a key is not the shared empty node. */
    lemma NotDummy(k: Key, i: nat)
      requires Base() && At(node, k, i) && k != KNil
      ensures !dummy
    {
    }

    // ---------- the table as a map ----------

    /** Sets a key: the table agrees with the map that was updated at that key. */
    method Put(k: Key, v: Value) returns (ok: bool)
      requires Valid() && Small()
      modifies this
      ensures Valid() && ok == (k != KNil)
      ensures forall k' :: Lookup(k') == if ok && k' == k then v else old(Lookup(k'))
    {
      hide Base, CursorOk, LookupIn, Small;
      var c := Set(k);
      if c == IndexIsNil {
        return false;
      }
      Store(c.cell, k, v);
      return true;
    }

    predicate Collectable(k: Key) {
      k.KStr? || k.KPtr?
    }

    /** The collector marks the key of an empty entry as dead. */
    method KillKey(i: nat)
      requires Valid() && i < |node| && Collectable(node[i].key) && node[i].val == VNil
      modifies this`node
      ensures Valid() && forall k :: Lookup(k) == old(Lookup(k))
      ensures node == old(node)[i := old(node)[i].(dead := true)]
    {
      hide MainPosition, Find, NodesOk, Pow2, MAXABITS;
      KillNode(node, reach, hash, i);
      node := node[i := node[i].(dead := true)];
    }

    // ---------- traversal ----------

    /** The places of a table in the order of a traversal. */
    function KeyAtPlace(p: nat): Key
      requires p < |arr| + |node|
      reads this`arr, this`node
    {
      if p < |arr| then KInt(p + 1) else node[p - |arr|].key
    }

    function ValueAtPlace(p: nat): Value
      requires p < |arr| + |node|
      reads this`arr, this`node
    {
      if p < |arr| then arr[p] else node[p - |arr|].val
    }

    /** The place of a key is there: in the array part or in a node. */
    ghost predicate PlaceOf(k: Key, p: nat)
      reads this`arr, this`node
    {
      if InArray(|arr|, k) then p == k.i - 1 else |arr| <= p && At(node, k, p - |arr|)
    }

    /** `from` is the number of the place behind the key `k`. */
    ghost predicate Behind(k: Key, from: nat)
      reads this`arr, this`node
    {
      from <= |arr| + |node| && (k == KNil ==> from == 0)
        && forall p: nat :: k != KNil && PlaceOf(k, p) ==> from == p + 1
    }

    /** The place behind a key. A key that has a live entry is found there, even if a dead
        key with the same address is on its chain; a key without any entry is an error. */
    method FindIndex(k: Key) returns (r: Option<nat>)
      requires Valid()
      ensures if r.Some? then Behind(k, r.value) else k != KNil && Lookup(k) == VNil
    {
      if k == KNil {
        return Some(0);
      }
      if InArray(|arr|, k) {
        return Some(k.i);
      }
      hide MainPosition, NodesOk;
      NodesParts();
      OnChain(node, reach, hash, k);
      var n := MainPosition(k, |node|, hash);
      hide Chains, KeysOk, Placed, DeadBehind;
      while true
        invariant 0 <= n < |node| && forall x :: At(node, k, x) ==> x in reach[n]
        decreases |reach[n]|
      {
        if node[n].key == k && (!node[n].dead || Collectable(k)) {
          forall x | At(node, k, x) ensures x == n {
            FirstMatch(node, reach, k, n, x);
          }
          return Some(n + 1 + |arr|);
        }
        ChainStep(node, reach, k, n);
        var nx := node[n].next;
        if nx == 0 {
          return None;
        }
        n := n + nx;
      }
    }

    /** The first entry with a value behind the key `k`; none at the end of a traversal. */
    method Next(k: Key) returns (ok: bool, r: Option<nat>, ghost from: nat)
      requires Valid()
      ensures if ok then Behind(k, from) else k != KNil && Lookup(k) == VNil
      ensures ok ==> match r
        case Some(q) => from <= q < |arr| + |node| && ValueAtPlace(q) != VNil
          && forall p :: from <= p < q ==> ValueAtPlace(p) == VNil
        case None => forall p :: from <= p < |arr| + |node| ==> ValueAtPlace(p) == VNil
    {
      hide Base, LookupIn, Find;
      from := 0;
      var idx := FindIndex(k);
      if idx == None {
        return false, None, 0;
      }
      from := idx.value;
      ok := true;
      var i := idx.value;
      while i < |arr|
        invariant from <= i <= |arr| + |node| && forall p :: from <= p < i ==> ValueAtPlace(p) == VNil
      {
        if arr[i] != VNil {
          r := Some(i);
          return;
        }
        i := i + 1;
      }
      i := i - |arr|;
      while i < |node|
        invariant 0 <= i <= |node| && from <= i + |arr| && forall p :: from <= p < i + |arr| ==> ValueAtPlace(p) == VNil
      {
        if node[i].val != VNil {
          r := Some(i + |arr|);
          return;
        }
        i := i + 1;
      }
      r := None;
    }

    /** A place that holds a value is the place of its key. */
    lemma PlaceHolds(p: nat)
      requires Valid() && p < |arr| + |node| && ValueAtPlace(p) != VNil
      ensures KeyAtPlace(p) != KNil && PlaceOf(KeyAtPlace(p), p) && Lookup(KeyAtPlace(p)) == ValueAtPlace(p)
    {
      if p >= |arr| {
        KeyAt(p - |arr|);
        assert At(node, KeyAtPlace(p), p - |arr|);
        FindAt(node, KeyAtPlace(p), p - |arr|);
      }
    }

    /** A key with a value has a place. */
    lemma HasPlace(k: Key)
      requires Valid() && Lookup(k) != VNil
      ensures exists p: nat :: p < |arr| + |node| && PlaceOf(k, p) && KeyAtPlace(p) == k && ValueAtPlace(p) != VNil
    {
      if InArray(|arr|, k) {
        assert PlaceOf(k, k.i - 1) && KeyAtPlace(k.i - 1) == k && ValueAtPlace(k.i - 1) != VNil;
      } else {
        var i :| At(node, k, i) && node[i].val == Find(node, k);
        var p := |arr| + i;
        assert PlaceOf(k, p) && KeyAtPlace(p) == k && ValueAtPlace(p) != VNil;
      }
    }

    lemma PlaceUnique(k: Key, p: nat, q: nat)
      requires Valid() && k != KNil && PlaceOf(k, p) && PlaceOf(k, q)
      ensures p == q
    {
    }

    /** The entries visited by a traversal up to the place `last`. */
    ghost predicate Visited(keys: seq<Key>, places: seq<nat>, last: nat)
      reads this`arr, this`node
    {
      && |places| == |keys| && last <= |arr| + |node|
      && (forall i :: 0 <= i < |places| ==>
          places[i] < last && ValueAtPlace(places[i]) != VNil && KeyAtPlace(places[i]) == keys[i])
      && (forall i, j :: 0 <= i < j < |places| ==> places[i] < places[j])
      && (forall p :: 0 <= p < last && ValueAtPlace(p) != VNil ==> p in places)
    }

    lemma VisitedNext(keys: seq<Key>, places: seq<nat>, last: nat, q: nat)
      requires Valid() && Visited(keys, places, last) && last <= q < |arr| + |node| && ValueAtPlace(q) != VNil
      requires forall p :: last <= p < q ==> ValueAtPlace(p) == VNil
      ensures Visited(keys + [KeyAtPlace(q)], places + [q], q + 1) && Behind(KeyAtPlace(q), q + 1)
      ensures KeyAtPlace(q) != KNil && Lookup(KeyAtPlace(q)) != VNil && PlaceOf(KeyAtPlace(q), q)
    {
      PlaceHolds(q);
      var k := KeyAtPlace(q);
      forall p: nat | PlaceOf(k, p) ensures p == q {
        PlaceUnique(k, p, q);
      }
      hide Valid, PlaceOf;
    }

    lemma VisitedAll(keys: seq<Key>, places: seq<nat>, last: nat)
      requires Valid() && Visited(keys, places, last)
      requires forall p :: last <= p < |arr| + |node| ==> ValueAtPlace(p) == VNil
      ensures forall k :: k in keys <==> Lookup(k) != VNil
      ensures forall i, j :: 0 <= i < j < |keys| ==> keys[i] != keys[j]
    {
      forall k ensures k in keys <==> Lookup(k) != VNil {
        if k in keys {
          var i :| 0 <= i < |keys| && keys[i] == k;
          PlaceHolds(places[i]);
        }
        if Lookup(k) != VNil {
          HasPlace(k);
          var p: nat :| p < |arr| + |node| && PlaceOf(k, p) && KeyAtPlace(p) == k && ValueAtPlace(p) != VNil;
          assert p in places;
        }
      }
      forall i, j | 0 <= i < j < |keys| ensures keys[i] != keys[j] {
        PlaceHolds(places[i]);
        PlaceHolds(places[j]);
        if keys[i] == keys[j] {
          PlaceUnique(keys[i], places[i], places[j]);
        }
      }
    }

    /** A whole traversal: every key with a value is visited exactly once. */
    method Traverse() returns (keys: seq<Key>)
      requires Valid()
      ensures forall k :: k in keys <==> Lookup(k) != VNil
      ensures forall i, j :: 0 <= i < j < |keys| ==> keys[i] != keys[j]
    {
      hide Base, LookupIn, Find, PlaceOf, CursorOk, Visited;
      keys := [];
      ghost var places: seq<nat> := [];
      var k := KNil;
      ghost var last := 0;
      VisitedNone();
      while true
        invariant Visited(keys, places, last) && Behind(k, last) && last <= |arr| + |node|
        invariant k != KNil ==> last > 0 && PlaceOf(k, last - 1) && Lookup(k) != VNil
        decreases |arr| + |node| - last
      {
        var ok: bool;
        var r: Option<nat>;
        ghost var from;
        ok, r, from := Next(k);
        assert ok && from == last;
        if r == None {
          VisitedAll(keys, places, last);
          return;
        }
        var q := r.value;
        VisitedNext(keys, places, last, q);
        k := KeyAtPlace(q);
        keys := keys + [k];
        places := places + [q];
        last := q + 1;
      }
    }

    lemma VisitedNone()
      ensures Visited([], [], 0)
    {
    }

    // ---------- borders ----------

    /** A border: a key that has a value and whose successor has none, or 0 if 1 has none. */
    ghost predicate Border(n: nat)
      reads this`arr, this`node
    {
      (n == 0 || Lookup(KInt(n)) != VNil) && Lookup(KInt(n + 1)) == VNil
    }

    /** Searches between a key with a value, or 0, and one without. */
    method BinarySearch(i0: nat, j0: nat) returns (i: nat)
      requires Valid() && i0 < j0 && (i0 == 0 || Lookup(KInt(i0)) != VNil) && Lookup(KInt(j0)) == VNil
      ensures Border(i)
    {
      hide Valid, Lookup;
      i := i0;
      var j := j0;
      while j - i > 1
        invariant i < j && (i == 0 || Lookup(KInt(i)) != VNil) && Lookup(KInt(j)) == VNil
      {
        var m := (i + j) / 2;
        var v := Read(KInt(m));
        if v == VNil {
          j := m;
        } else {
          i := m;
        }
      }
    }

    /** Searches from 1 for the first key without a value. */
    method LinearSearch() returns (n: nat)
      requires Valid()
      ensures Border(n)
    {
      hide Valid, Lookup;
      var i := 1;
      ghost var L := Live();
      while true
        invariant i >= 1 && (i == 1 || Lookup(KInt(i - 1)) != VNil) && L <= Live()
          && forall k: int :: KInt(k) in Live() && k >= i ==> KInt(k) in L
        decreases |L|
      {
        var v := Read(KInt(i));
        if v == VNil {
          return i - 1;
        }
        KeyIsLive(KInt(i));
        SetSmaller(L, KInt(i));
        L := L - {KInt(i)};
        i := i + 1;
      }
    }

    /** Searches for a border at or above `j`, doubling the key. */
    method UnboundSearch(j0: nat) returns (n: nat)
      requires Valid() && (j0 == 0 || Lookup(KInt(j0)) != VNil)
      ensures Border(n)
    {
      hide Valid, Lookup;
      var i, j := j0, j0 + 1;
      while true
        invariant 0 <= i < j && (i == 0 || Lookup(KInt(i)) != VNil)
        decreases MAXINT - j
      {
        var v := Read(KInt(j));
        if v == VNil {
          n := BinarySearch(i, j);
          return;
        }
        i := j;
        if j > MAXINT / 2 {
          n := LinearSearch();
          return;
        }
        j := j * 2;
      }
    }

    /** The length operator: some border of the table. */
    method GetN() returns (n: nat)
      requires Valid()
      ensures Border(n)
    {
      var j := |arr|;
      if j > 0 && arr[j - 1] == VNil {
        assert Lookup(KInt(j)) == VNil;
        n := 0;
        while j - n > 1
          invariant 0 <= n < j <= |arr| && (n == 0 || arr[n - 1] != VNil) && arr[j - 1] == VNil
        {
          var m := (n + j) / 2;
          if arr[m - 1] == VNil {
            j := m;
          } else {
            n := m;
          }
        }
      } else if dummy {
        n := j;
        DummyEmpty(KInt(j + 1));
      } else {
        n := UnboundSearch(j);
      }
    }

    lemma DummyEmpty(k: Key)
      requires Valid() && dummy && !InArray(|arr|, k)
      ensures Lookup(k) == VNil
    {
    }

    // ---------- all runs ----------

    /** The keys with a value are those that the assignments left one. */
    lemma LiveModel(ops: seq<(Key, Value)>)
      requires Valid() && forall k :: Lookup(k) == Model(ops, k)
      ensures Live() == Valued(ops)
    {
      hide Valid, Lookup, Live, LookupIn;
      forall k ensures k in Live() <==> k in Valued(ops) {
        KeyIsLive(k);
        ModelAssigned(ops, k);
      }
    }

    lemma KeyIsLive(k: Key)
      requires Valid()
      ensures k in Live() <==> Lookup(k) != VNil
    {
      LiveIsLookup(arr, node, k);
    }

    /** Any sequence of assignments to an empty table, through any number of rehashes,
        leaves it in agreement with the map they describe, if there are never too many
        keys with a value at the same time. */
    method Run(ops: seq<(Key, Value)>)
      requires Valid() && (forall k :: Lookup(k) == VNil) && Fits(ops)
      modifies this
      ensures Valid() && forall k :: Lookup(k) == Model(ops, k)
    {
      hide Lookup, Pow2, MAXHBITS, Base, CursorOk, Live;
      for i := 0 to |ops|
        invariant Valid() && forall k :: Lookup(k) == Model(ops[..i], k)
      {
        LiveModel(ops[..i]);
        assert ops[..i + 1][..i] == ops[..i];
        var _ := Put(ops[i].0, ops[i].1);
      }
      assert ops[..|ops|] == ops;
    }
  }

  /** The value of a key after some assignments; assignments to nil keys are refused. */
  function Model(ops: seq<(Key, Value)>, k: Key): Value {
    if ops == [] then VNil
    else
      var last := ops[|ops| - 1];
      if last.0 == k && k != KNil then last.1 else Model(ops[..|ops| - 1], k)
  }

  /** The keys that the assignments leave with a value. */
  ghost function Valued(ops: seq<(Key, Value)>): set<Key> {
    set i | 0 <= i < |ops| && Model(ops, ops[i].0) != VNil :: ops[i].0
  }

  /** Before each of the assignments there is room for one more key. */
  ghost predicate Fits(ops: seq<(Key, Value)>) {
    forall i :: 0 <= i < |ops| ==> |Valued(ops[..i])| + 1 < Pow2(MAXHBITS)
  }

  lemma {:induction false} ModelAssigned(ops: seq<(Key, Value)>, k: Key)
    ensures Model(ops, k) != VNil <==> k in Valued(ops)
    decreases |ops|
  {
    if ops != [] && Model(ops, k) != VNil && ops[|ops| - 1].0 != k {
      var before := ops[..|ops| - 1];
      ModelAssigned(before, k);
      var i :| 0 <= i < |before| && before[i].0 == k;
      assert ops[i].0 == k;
    }
  }

  /** A run over few keys fits, however long it is. */
  lemma FewKeys(ops: seq<(Key, Value)>)
    requires |set i | 0 <= i < |ops| :: ops[i].0| + 1 < Pow2(MAXHBITS)
    ensures Fits(ops)
  {
    hide Pow2, Model;
    var K := set i | 0 <= i < |ops| :: ops[i].0;
    forall i | 0 <= i < |ops| ensures |Valued(ops[..i])| + 1 < Pow2(MAXHBITS) {
      forall k | k in Valued(ops[..i]) ensures k in K {
        var j :| 0 <= j < i && ops[..i][j].0 == k;
        assert ops[j].0 == k;
      }
      SetSize(Valued(ops[..i]), K);
    }
  }

  lemma SetSmaller(L: set<Key>, k: Key)
    requires k in L
    ensures |L - {k}| < |L|
  {
  }

  /** Every chain has one node. */
  ghost function Alone(n: nat): seq<set<int>> {
    seq(n, i => {i})
  }

  lemma EmptyNodes(node: seq<Node>, hash: Hash)
    requires |node| > 0 && forall i :: 0 <= i < |node| ==> node[i] == EMPTY
    ensures NodesOk(node, Alone(|node|), hash) && forall k :: Find(node, k) == VNil
  {
  }
}
