/** What a table holds: an array part for the keys 1 to its size, and the nodes for all
    other keys; and how many keys each part holds. */
module TableContents {
  import opened TableNodes
  import opened TableSizes

  predicate InArray(n: nat, k: Key) {
    k.KInt? && 1 <= k.i <= n
  }

  /** The value of a key. */
  ghost function LookupIn(arr: seq<Value>, node: seq<Node>, k: Key): Value {
    if InArray(|arr|, k) then arr[k.i - 1] else Find(node, k)
  }

  /** No node holds a key of the array part. */
  ghost predicate Apart(n: nat, node: seq<Node>) {
    forall i :: 0 <= i < |node| ==> !InArray(n, node[i].key)
  }

  // ---------- sets of keys ----------

  predicate Used(arr: seq<Value>, i: int) {
    1 <= i <= |arr| && arr[i - 1] != VNil
  }

  ghost function ArrayInts(arr: seq<Value>): set<int> {
    set i | 1 <= i <= |arr| && Used(arr, i)
  }

  ghost function NodeKeys(node: seq<Node>, from: nat): set<Key> {
    set i | from <= i < |node| && node[i].val != VNil :: node[i].key
  }

  /** The integer keys in the nodes that could live in an array part. */
  ghost function NodeInts(node: seq<Node>, from: nat): set<int> {
    set i | from <= i < |node| && node[i].val != VNil && InArray(Pow2(MAXABITS), node[i].key) :: node[i].key.i
  }

  function IntKeys(S: set<int>): set<Key> {
    set i | i in S :: KInt(i)
  }

  ghost function LiveKeys(arr: seq<Value>, node: seq<Node>): set<Key> {
    IntKeys(ArrayInts(arr)) + NodeKeys(node, 0)
  }

  ghost function LiveInts(arr: seq<Value>, node: seq<Node>): set<int> {
    ArrayInts(arr) + NodeInts(node, 0)
  }

  /** The keys that an array part of size `n` does not hold. */
  ghost function OutKeys(L: set<Key>, n: nat): set<Key> {
    set k | k in L && !InArray(n, k)
  }

  lemma ArrayIntsSmall(arr: seq<Value>)
    requires |arr| <= Pow2(MAXABITS)
    ensures ArrayKeys(ArrayInts(arr))
  {
  }

  lemma NodeIntsSmall(node: seq<Node>, from: nat)
    ensures ArrayKeys(NodeInts(node, from))
  {
  }

  lemma NonEmpty(S: set<int>)
    ensures |S| > 0 ==> exists x: int :: x in S
  {
    if forall x: int :: x !in S {
      assert S == {};
    }
  }

  lemma {:induction false} IntKeysSize(S: set<int>)
    ensures |IntKeys(S)| == |S|
    decreases S
  {
    if |S| == 0 {
      assert IntKeys(S) == {};
    } else {
      assert exists x: int :: x in S by {
        NonEmpty(S);
      }
      var x: int :| x in S;
      IntKeysSize(S - {x});
      assert IntKeys(S) == IntKeys(S - {x}) + {KInt(x)};
      assert KInt(x) !in IntKeys(S - {x});
    }
  }

  /** One more node. */
  lemma NodeKeysNext(node: seq<Node>, i: nat)
    requires KeysOk(node) && i < |node|
    ensures node[i].val == VNil ==>
      NodeKeys(node, i) == NodeKeys(node, i + 1) && NodeInts(node, i) == NodeInts(node, i + 1)
    ensures node[i].val != VNil && node[i].key != KNil ==>
      NodeKeys(node, i) == NodeKeys(node, i + 1) + {node[i].key} && node[i].key !in NodeKeys(node, i + 1)
    ensures node[i].val != VNil && node[i].key != KNil && InArray(Pow2(MAXABITS), node[i].key) ==>
      NodeInts(node, i) == NodeInts(node, i + 1) + {node[i].key.i} && node[i].key.i !in NodeInts(node, i + 1)
    ensures !InArray(Pow2(MAXABITS), node[i].key) ==> NodeInts(node, i) == NodeInts(node, i + 1)
  {
    if node[i].val != VNil && node[i].key != KNil {
      var k := node[i].key;
      assert At(node, k, i);
      assert forall j :: i + 1 <= j < |node| && node[j].val != VNil ==> At(node, node[j].key, j);
    }
  }

  lemma FoundKeys(node: seq<Node>, k: Key)
    requires KeysOk(node) && FreeEmpty(node)
    ensures k in NodeKeys(node, 0) <==> Find(node, k) != VNil
  {
    if k in NodeKeys(node, 0) {
      var i :| 0 <= i < |node| && node[i].val != VNil && node[i].key == k;
      assert At(node, k, i);
      FindAt(node, k, i);
    }
    if Find(node, k) != VNil {
      var i :| At(node, k, i) && node[i].val == Find(node, k);
      assert node[i].key in NodeKeys(node, 0);
    }
  }

  /** Live keys are those with a value. */
  lemma LiveIsLookup(arr: seq<Value>, node: seq<Node>, k: Key)
    requires KeysOk(node) && Apart(|arr|, node) && FreeEmpty(node)
    ensures k in LiveKeys(arr, node) <==> LookupIn(arr, node, k) != VNil
  {
    FoundKeys(node, k);
    if InArray(|arr|, k) {
      assert k in IntKeys(ArrayInts(arr)) <==> k.i in ArrayInts(arr);
    }
  }

  ghost predicate FreeEmpty(node: seq<Node>) {
    forall i :: 0 <= i < |node| && node[i].key == KNil ==> node[i].val == VNil
  }

  /** Of the live keys, those above an array part of size `n` are in the nodes. */
  lemma OutSize(L: set<Key>, S: set<int>, n: nat)
    requires forall i :: i in S <==> KInt(i) in L && 1 <= i <= Pow2(MAXABITS)
    requires n <= Pow2(MAXABITS)
    ensures |OutKeys(L, n)| == |L| - |UpTo(S, n)|
  {
    hide OutKeys, UpTo, IntKeys, Pow2, InArray;
    IntKeysSize(UpTo(S, n));
    InsideKeys(L, S, n);
  }

  lemma InsideKeys(L: set<Key>, S: set<int>, n: nat)
    requires forall i :: i in S <==> KInt(i) in L && 1 <= i <= Pow2(MAXABITS)
    requires n <= Pow2(MAXABITS)
    ensures L == OutKeys(L, n) + IntKeys(UpTo(S, n)) && OutKeys(L, n) !! IntKeys(UpTo(S, n))
  {
    hide Pow2;
    forall k ensures k in IntKeys(UpTo(S, n)) <==> k in L && InArray(n, k) {
      if k in IntKeys(UpTo(S, n)) {
        var i :| i in UpTo(S, n) && k == KInt(i);
      }
      if k in L && InArray(n, k) {
        assert k.i in UpTo(S, n);
      }
    }
  }

  // ---------- free nodes ----------

  ghost function FreeNodes(node: seq<Node>): set<int> {
    set i | 0 <= i < |node| && node[i].key == KNil
  }

  ghost predicate Room(node: seq<Node>) {
    exists i :: 0 <= i < |node| && node[i].key == KNil
  }

  lemma RoomSize(node: seq<Node>)
    ensures Room(node) <==> |FreeNodes(node)| > 0
  {
    if Room(node) {
      var i :| 0 <= i < |node| && node[i].key == KNil;
      assert i in FreeNodes(node);
    } else {
      assert FreeNodes(node) == {};
    }
  }

  lemma {:induction false} AllFree(node: seq<Node>)
    requires forall i :: 0 <= i < |node| ==> node[i] == EMPTY
    ensures |FreeNodes(node)| == |node|
    decreases |node|
  {
    if |node| > 0 {
      var n := |node| - 1;
      AllFree(node[..n]);
      assert FreeNodes(node) == FreeNodes(node[..n]) + {n};
    }
  }

  /** One node more than before may have a key. */
  lemma FreeLess(node: seq<Node>, node': seq<Node>, f: int)
    requires FreeNodes(node) - {f} <= FreeNodes(node')
    ensures |FreeNodes(node')| >= |FreeNodes(node)| - 1
  {
    SetSize(FreeNodes(node) - {f}, FreeNodes(node'));
  }

  lemma SetSize<T>(a: set<T>, b: set<T>)
    requires a <= b
    ensures |a| <= |b|
  {
    assert b == a + (b - a);
  }

  // ---------- counting loops ----------

  /** `nums` counts `S` in the slices below `n`, and nothing yet in the others. */
  ghost predicate CountsBelow(nums: seq<nat>, S: set<int>, n: nat) {
    && |nums| == MAXABITS + 1
    && (forall m :: 0 <= m <= MAXABITS ==> nums[m] == if m < n then |Slice(S, m)| else 0)
  }

  lemma CountsBelowNext(nums: seq<nat>, S: set<int>, n: nat, c: nat)
    requires CountsBelow(nums, S, n) && n <= MAXABITS && c == |Slice(S, n)|
    ensures CountsBelow(nums[n := nums[n] + c], S, n + 1)
  {
  }

  /** The keys of an array part of size at most 2^(n-1) are in the slices below `n`. */
  lemma CountsAll(nums: seq<nat>, S: set<int>, n: nat, limit: nat)
    requires CountsBelow(nums, S, n) && (n > MAXABITS || (n > 0 && limit <= Pow2(n - 1)) || limit == 0)
    requires forall k :: k in S ==> 1 <= k <= limit
    ensures Counts(nums, S)
  {
    forall m | n <= m <= MAXABITS ensures |Slice(S, m)| == 0 {
      if n > 0 && limit != 0 && m > 0 {
        Pow2Monotone(n - 1, m - 1);
      }
      assert Slice(S, m) == {};
    }
  }

  /** The keys of `S` above `lo` up to `hi`. */
  ghost function Between(S: set<int>, lo: int, hi: int): set<int> {
    set k | k in S && lo < k <= hi
  }

  lemma BetweenNext(arr: seq<Value>, lo: int, i: nat)
    requires lo < i <= |arr| && i > 0
    ensures |Between(ArrayInts(arr), lo, i)| == |Between(ArrayInts(arr), lo, i - 1)|
      + (if arr[i - 1] != VNil then 1 else 0)
  {
    var S := ArrayInts(arr);
    if arr[i - 1] != VNil {
      assert Used(arr, i);
      assert Between(S, lo, i) == Between(S, lo, i - 1) + {i as int};
    } else {
      assert Between(S, lo, i) == Between(S, lo, i - 1);
    }
  }

  lemma BetweenNone(S: set<int>, lo: int)
    ensures |Between(S, lo, lo)| == 0
  {
    assert Between(S, lo, lo) == {};
  }

  /** The keys of slice `n` of an array part. */
  lemma BetweenSlice(arr: seq<Value>, n: nat, hi: int)
    requires hi == if Pow2(n) > |arr| then |arr| else Pow2(n)
    ensures Between(ArrayInts(arr), if n == 0 then 0 else Pow2(n - 1), hi) == Slice(ArrayInts(arr), n)
  {
  }

  lemma BetweenJoin(S: set<int>, lo: int, mid: int, hi: int)
    requires lo <= mid <= hi
    ensures |Between(S, lo, hi)| == |Between(S, lo, mid)| + |Between(S, mid, hi)|
  {
    assert Between(S, lo, hi) == Between(S, lo, mid) + Between(S, mid, hi);
    assert Between(S, lo, mid) !! Between(S, mid, hi);
  }

  lemma BetweenAll(arr: seq<Value>)
    ensures Between(ArrayInts(arr), 0, |arr|) == ArrayInts(arr)
  {
  }

  lemma SliceOf(k: int, n: nat)
    requires 1 <= k <= Pow2(MAXABITS) && k <= Pow2(n) && (n > 0 ==> Pow2(n - 1) < k)
    ensures InSlice(k, n) && n <= MAXABITS
  {
    if n > MAXABITS {
      Pow2Monotone(MAXABITS, n - 1);
    }
  }

  lemma PowZero()
    ensures Pow2(0) == 1
  {
  }

  lemma ArrayIntsUpTo(arr: seq<Value>)
    ensures forall k :: k in ArrayInts(arr) ==> 1 <= k <= |arr|
  {
  }

  lemma NodeNone(node: seq<Node>)
    ensures NodeInts(node, |node|) == {} && NodeKeys(node, |node|) == {}
  {
  }

  lemma NodeIntsIn(node: seq<Node>, i: nat)
    requires 0 < i <= |node|
    ensures NodeInts(node, i) <= NodeInts(node, 0)
    ensures node[i - 1].val != VNil && InArray(Pow2(MAXABITS), node[i - 1].key) ==>
      node[i - 1].key.i in NodeInts(node, 0)
  {
  }

  /** One more node counted, when its keys are not in `S`. */
  lemma NodeCountNext(node: seq<Node>, i: nat, S: set<int>)
    requires KeysOk(node) && FreeEmpty(node) && i < |node| && S !! NodeInts(node, 0)
    ensures
      var k := node[i].key;
      var c := node[i].val != VNil && InArray(Pow2(MAXABITS), k);
      && (c ==> k.i !in S + NodeInts(node, i + 1))
      && S + NodeInts(node, i) == (if c then S + NodeInts(node, i + 1) + {k.i} else S + NodeInts(node, i + 1))
      && |NodeInts(node, i)| == |NodeInts(node, i + 1)| + (if c then 1 else 0)
      && |NodeKeys(node, i)| == |NodeKeys(node, i + 1)| + (if node[i].val != VNil then 1 else 0)
  {
    NodeKeysNext(node, i);
    NodeIntsIn(node, i + 1);
    hide KeysOk, NodeKeys, NodeInts, Pow2;
  }

  lemma NodeSkip(node: seq<Node>, i: nat)
    requires KeysOk(node) && i < |node| && node[i].val == VNil
    ensures NodeKeys(node, i) == NodeKeys(node, i + 1) && NodeInts(node, i) == NodeInts(node, i + 1)
  {
    NodeKeysNext(node, i);
  }

  // ---------- inserting all keys again ----------

  /** The parts of a valid table. */
  ghost predicate Sound(arr: seq<Value>, node: seq<Node>) {
    KeysOk(node) && FreeEmpty(node) && Apart(|arr|, node) && |arr| <= Pow2(MAXABITS)
  }

  /** The array key `i` comes next. */
  lemma VanishNext(arr: seq<Value>, node: seq<Node>, i: nat)
    requires 1 <= i <= |arr|
    ensures arr[i - 1] == VNil ==> IntKeys(UpTo(ArrayInts(arr), i)) == IntKeys(UpTo(ArrayInts(arr), i - 1))
    ensures arr[i - 1] != VNil ==>
      && IntKeys(UpTo(ArrayInts(arr), i)) == IntKeys(UpTo(ArrayInts(arr), i - 1)) + {KInt(i)}
      && KInt(i) in LiveKeys(arr, node) && KInt(i) !in IntKeys(UpTo(ArrayInts(arr), i - 1))
      && LookupIn(arr, node, KInt(i)) == arr[i - 1]
  {
    var S := ArrayInts(arr);
    if arr[i - 1] != VNil {
      assert Used(arr, i) && i in S;
      assert UpTo(S, i) == UpTo(S, i - 1) + {i as int};
      assert IntKeys(UpTo(S, i)) == IntKeys(UpTo(S, i - 1)) + {KInt(i)};
      assert KInt(i) in IntKeys(S);
    } else {
      assert UpTo(S, i) == UpTo(S, i - 1);
    }
  }

  lemma VanishDone(arr: seq<Value>, node: seq<Node>, n: nat, from: nat)
    requires n >= |arr| && (from >= |node| || (from == 0 && node == [EMPTY]))
    ensures IntKeys(UpTo(ArrayInts(arr), n)) == IntKeys(ArrayInts(arr)) + NodeKeys(node, from)
  {
    assert UpTo(ArrayInts(arr), n) == ArrayInts(arr);
    assert NodeKeys(node, from) == {};
  }

  /** The key of node `j` comes next. */
  lemma HashNext(arr: seq<Value>, node: seq<Node>, j: nat)
    requires Sound(arr, node) && j < |node|
    ensures node[j].val == VNil ==> NodeKeys(node, j) == NodeKeys(node, j + 1)
    ensures
      var done := IntKeys(ArrayInts(arr)) + NodeKeys(node, j + 1);
      var k := node[j].key;
      node[j].val != VNil ==>
        && IntKeys(ArrayInts(arr)) + NodeKeys(node, j) == done + {k}
        && k in LiveKeys(arr, node) && k !in done && k != KNil && LookupIn(arr, node, k) == node[j].val
  {
    NodeKeysNext(node, j);
    if node[j].val != VNil {
      var k := node[j].key;
      assert !InArray(|arr|, k);
      FindAt(node, k, j);
      assert k in NodeKeys(node, 0);
    }
  }

  /** All keys are in. */
  lemma AllInserted(arr: seq<Value>, node: seq<Node>, k: Key)
    requires Sound(arr, node)
    ensures k !in LiveKeys(arr, node) ==> LookupIn(arr, node, k) == VNil
  {
    LiveIsLookup(arr, node, k);
  }

  /** Of the keys that stay in the array part, none is in the nodes. */
  /** With the array part cut or extended, only its remaining keys are there. */
  lemma CutLookup(arr0: seq<Value>, node0: seq<Node>, arr: seq<Value>, node: seq<Node>, n: nat, k: Key)
    requires arr == if n > |arr0| then arr0 + seq(n - |arr0|, i => VNil) else arr0[..n]
    requires Find(node, k) == VNil
    ensures LookupIn(arr, node, k) ==
      if k in IntKeys(UpTo(ArrayInts(arr0), n)) then LookupIn(arr0, node0, k) else VNil
  {
    hide Find;
    if InArray(n, k) {
      assert k in IntKeys(UpTo(ArrayInts(arr0), n)) <==> k.i in UpTo(ArrayInts(arr0), n);
      assert k.i in ArrayInts(arr0) <==> Used(arr0, k.i);
    }
  }

  // ---------- the sizes for a rehash ----------

  /** Array keys and node keys are different. */
  lemma CountFacts(arr: seq<Value>, node: seq<Node>, ek: Key)
    requires Sound(arr, node) && !InArray(|arr|, ek) && !Present(node, ek)
    ensures ArrayInts(arr) !! NodeInts(node, 0)
    ensures IntKeys(ArrayInts(arr)) !! NodeKeys(node, 0)
    ensures InArray(Pow2(MAXABITS), ek) ==> ek.i !in ArrayInts(arr) && ek.i !in NodeInts(node, 0)
  {
    forall i | 0 <= i < |node| && node[i].val != VNil ensures node[i].key != ek {
      assert At(node, node[i].key, i);
    }
    forall k | k in NodeKeys(node, 0) ensures !InArray(|arr|, k) {
    }
  }

  lemma SizeFacts(arr: seq<Value>, node: seq<Node>, ek: Key, L: set<Key>, S: set<int>, totaluse: nat, na: nat)
    requires Sound(arr, node) && !InArray(|arr|, ek) && !Present(node, ek)
    requires L == LiveKeys(arr, node) && S == LiveInts(arr, node) + if InArray(Pow2(MAXABITS), ek) then {ek.i} else {}
    requires totaluse == |ArrayInts(arr)| + |NodeKeys(node, 0)| + 1
    requires na == |ArrayInts(arr)| + |NodeInts(node, 0)| + if InArray(Pow2(MAXABITS), ek) then 1 else 0
    ensures totaluse == |L| + 1 && na == |S| && ArrayKeys(S) && |S| <= |L| + 1
  {
    hide Sound, ArrayInts, NodeInts, NodeKeys, IntKeys, Pow2, Present;
    CountFacts(arr, node, ek);
    SoundSmall(arr, node);
    ArrayIntsSmall(arr);
    NodeIntsSmall(node, 0);
    IntKeysSize(ArrayInts(arr));
    IntKeysSize(LiveInts(arr, node));
    IntsAreKeys(arr, node);
    SetSize(IntKeys(LiveInts(arr, node)), L);
    assert |LiveInts(arr, node)| == |ArrayInts(arr)| + |NodeInts(node, 0)|;
  }

  lemma SoundSmall(arr: seq<Value>, node: seq<Node>)
    requires Sound(arr, node)
    ensures |arr| <= Pow2(MAXABITS)
  {
  }

  lemma IntsAreKeys(arr: seq<Value>, node: seq<Node>)
    ensures IntKeys(LiveInts(arr, node)) <= LiveKeys(arr, node)
  {
    hide ArrayInts;
    forall k | k in IntKeys(LiveInts(arr, node)) ensures k in LiveKeys(arr, node) {
      var i :| i in LiveInts(arr, node) && k == KInt(i);
      assert i in ArrayInts(arr) ==> k in IntKeys(ArrayInts(arr));
    }
  }

  /** The nodes get room for all keys that do not go to the array part, and for `ek`. */
  lemma OutFacts(arr: seq<Value>, node: seq<Node>, ek: Key, L: set<Key>, S: set<int>, totaluse: nat, asize: nat,
                 na: nat)
    requires Sound(arr, node) && !InArray(|arr|, ek) && !Present(node, ek) && ek != KNil
    requires L == LiveKeys(arr, node) && S == LiveInts(arr, node) + if InArray(Pow2(MAXABITS), ek) then {ek.i} else {}
    requires totaluse == |L| + 1 && asize <= Pow2(MAXHBITS) && na == |UpTo(S, asize)|
    ensures asize <= Pow2(MAXABITS) && na <= totaluse
    ensures totaluse - na == |OutKeys(L, asize)| + if InArray(asize, ek) then 0 else 1
  {
    Pow2Monotone(MAXHBITS, MAXABITS);
    CountFacts(arr, node, ek);
    var I := LiveInts(arr, node);
    LiveIntKeys(arr, node);
    OutSize(L, I, asize);
    assert InArray(Pow2(MAXABITS), ek) ==> ek.i !in I;
    assert InArray(asize, ek) ==> InArray(Pow2(MAXABITS), ek);
    hide Sound, LiveInts, LiveKeys, Pow2, Present, UpTo, OutKeys;
    if InArray(Pow2(MAXABITS), ek) {
      UpToAdd(I, ek.i, asize);
    } else {
      assert S == I;
    }
  }

  lemma UpToAdd(S: set<int>, k: int, n: int)
    requires k !in S
    ensures |UpTo(S + {k}, n)| == |UpTo(S, n)| + if k <= n then 1 else 0
  {
    if k <= n {
      assert UpTo(S + {k}, n) == UpTo(S, n) + {k};
    } else {
      assert UpTo(S + {k}, n) == UpTo(S, n);
    }
  }

  lemma LiveIntKeys(arr: seq<Value>, node: seq<Node>)
    requires |arr| <= Pow2(MAXABITS)
    ensures forall i :: i in LiveInts(arr, node) <==> KInt(i) in LiveKeys(arr, node) && 1 <= i <= Pow2(MAXABITS)
  {
    forall i: int ensures i in LiveInts(arr, node) <==> KInt(i) in LiveKeys(arr, node) && 1 <= i <= Pow2(MAXABITS) {
      assert i in ArrayInts(arr) <==> KInt(i) in IntKeys(ArrayInts(arr));
      if KInt(i) in NodeKeys(node, 0) {
        var j :| 0 <= j < |node| && node[j].val != VNil && node[j].key == KInt(i);
      }
    }
  }

  lemma CountedAll(nums: seq<nat>, A: set<int>, ek: Key, c: nat)
    requires c == if InArray(Pow2(MAXABITS), ek) then 1 else 0
    requires Counts(nums, if c == 1 then A + {ek.i} else A)
    ensures Counts(nums, A + if InArray(Pow2(MAXABITS), ek) then {ek.i} else {})
  {
    assert A + {} == A;
  }
}
