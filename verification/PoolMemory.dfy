/** The memory of the pool allocator: who owns each byte, and the free lists. */
module PoolMemory {
  const ALIGN: nat := 8
  const MAX_BYTES: nat := 128
  const NFREELISTS: nat := 16

  type Addr = nat

  function RoundUp(n: nat): (r: nat)
    ensures n <= r < n + ALIGN && r % ALIGN == 0
  {
    (n + ALIGN - 1) / ALIGN * ALIGN
  }

  function FreelistIndex(n: nat): nat
    requires n > 0
  {
    (n + ALIGN - 1) / ALIGN - 1
  }

  /** A byte belongs to a block that a client has, to a block in a free list, to the pool,
      or to a chunk that was just cut off the pool. */
  datatype Owner = Live(b: Addr, s: nat) | Free(b: Addr, s: nat) | Pool | Loose

  type Heap = map<Addr, Owner>

  predicate SizeOk(s: nat) {
    0 < s <= MAX_BYTES && s % ALIGN == 0
  }

  predicate Aligned(b: Addr) {
    b > 0 && b % ALIGN == 0
  }

  /** All bytes of the block have the same owner. */
  ghost predicate Filled(o: Heap, b: Addr, s: nat, w: Owner) {
    forall v :: b <= v < b + s ==> v in o && o[v] == w
  }

  /** The byte `v` is in a whole block. */
  ghost predicate WholeAt(o: Heap, v: Addr)
    requires v in o
  {
    (o[v].Live? || o[v].Free?) ==>
      SizeOk(o[v].s) && Aligned(o[v].b) && o[v].b <= v < o[v].b + o[v].s && Filled(o, o[v].b, o[v].s, o[v])
  }

  ghost predicate Whole(o: Heap) {
    forall v :: v in o ==> WholeAt(o, v)
  }

  /** Exactly the bytes from `lo` to `hi` have the owner `w`. */
  ghost predicate Range(o: Heap, lo: Addr, hi: Addr, w: Owner) {
    lo <= hi && Filled(o, lo, hi - lo, w) && forall v :: v in o && o[v] == w ==> lo <= v < hi
  }

  /** The bytes of a block get a new owner. */
  function Paint(o: Heap, b: Addr, s: nat, w: Owner): (r: Heap)
    ensures r.Keys == o.Keys
  {
    map v | v in o :: if b <= v < b + s then w else o[v]
  }

  /** Nothing of a block that stays has been painted over. */
  lemma PaintWhole(o: Heap, b: Addr, s: nat, w: Owner)
    requires Whole(o) && (forall v :: b <= v < b + s ==> v in o)
    requires (w.Live? || w.Free?) ==> w.b == b && w.s == s && SizeOk(s) && Aligned(b)
    requires forall v :: b <= v < b + s && (o[v].Live? || o[v].Free?) ==> o[v].b == b && o[v].s == s
    ensures Whole(Paint(o, b, s, w))
  {
    var o' := Paint(o, b, s, w);
    forall v | v in o' ensures WholeAt(o', v) {
      assert WholeAt(o, v);
      if !(b <= v < b + s) && (o[v].Live? || o[v].Free?) {
        forall u | o[v].b <= u < o[v].b + o[v].s ensures u in o' && o'[u] == o[v] {
          assert u in o && o[u] == o[v];
        }
      }
    }
  }

  // ---------- free lists ----------

  ghost predicate Distinct(l: seq<Addr>) {
    forall i, j :: 0 <= i < j < |l| ==> l[i] != l[j]
  }

  /** The links in memory lead from `head` through the blocks of the list to `tail`. */
  ghost predicate Chain(link: map<Addr, Addr>, head: Addr, l: seq<Addr>, tail: Addr)
    decreases |l|
  {
    if l == [] then head == tail
    else head == l[0] && head != 0 && head in link && Chain(link, link[head], l[1..], tail)
  }

  lemma {:induction false} ChainFrame(link: map<Addr, Addr>, link': map<Addr, Addr>, head: Addr, l: seq<Addr>,
                                      tail: Addr)
    requires Chain(link, head, l, tail) && forall b :: b in l && b in link ==> b in link' && link'[b] == link[b]
    ensures Chain(link', head, l, tail)
    decreases |l|
  {
    if l != [] {
      assert forall b :: b in l[1..] ==> b in l;
      ChainFrame(link, link', link[head], l[1..], tail);
    }
  }

  /** The chain goes on over the block `c`. */
  lemma {:induction false} ChainAppend(link: map<Addr, Addr>, head: Addr, l: seq<Addr>, c: Addr, tail: Addr)
    requires Chain(link, head, l, c) && c !in l && c != 0
    ensures Chain(link[c := tail], head, l + [c], tail)
    decreases |l|
  {
    if l != [] {
      assert (l + [c])[1..] == l[1..] + [c];
      ChainAppend(link, link[head], l[1..], c, tail);
    } else {
      assert ([] + [c])[1..] == [];
    }
  }

  /** Each list has the blocks of its own size, once, and each free block is in its list. */
  ghost predicate Listed(o: Heap, lists: seq<seq<Addr>>) {
    && |lists| == NFREELISTS
    && (forall k, b {:trigger b in lists[k]} :: 0 <= k < NFREELISTS && b in lists[k] ==>
        b in o && o[b] == Free(b, ALIGN * (k + 1)))
    && (forall k :: 0 <= k < NFREELISTS ==> Distinct(lists[k]))
    && forall v :: v in o && o[v].Free? ==> InList(lists, o[v].b, o[v].s)
  }

  ghost predicate InList(lists: seq<seq<Addr>>, b: Addr, s: nat) {
    SizeOk(s) && s / ALIGN - 1 < |lists| && b in lists[s / ALIGN - 1]
  }

  /** All lists end with 0, except that the one at index `k0` ends with `tail`. */
  ghost predicate ChainedTo(link: map<Addr, Addr>, heads: seq<Addr>, lists: seq<seq<Addr>>, k0: nat, tail: Addr) {
    |heads| == |lists| == NFREELISTS && forall k :: 0 <= k < NFREELISTS ==>
      Chain(link, heads[k], lists[k], if k == k0 then tail else 0)
  }

  ghost predicate Chained(link: map<Addr, Addr>, heads: seq<Addr>, lists: seq<seq<Addr>>) {
    ChainedTo(link, heads, lists, 0, 0)
  }

  /** A block becomes free and is added to its list. */
  lemma AddListed(o: Heap, lists: seq<seq<Addr>>, b: Addr, k0: nat, l: seq<Addr>)
    requires Listed(o, lists) && k0 < NFREELISTS
    requires forall v :: b <= v < b + ALIGN * (k0 + 1) ==> v in o && !o[v].Free?
    requires Distinct(l) && forall c :: c in l <==> c == b || c in lists[k0]
    ensures
      var s := ALIGN * (k0 + 1);
      Listed(Paint(o, b, s, Free(b, s)), lists[k0 := l])
  {
    var s := ALIGN * (k0 + 1);
    var o', lists' := Paint(o, b, s, Free(b, s)), lists[k0 := l];
    assert SizeOk(s) && s / ALIGN - 1 == k0;
    forall k, c | 0 <= k < NFREELISTS && c in lists'[k] ensures c in o' && o'[c] == Free(c, ALIGN * (k + 1)) {
      if c in lists[k] {
        assert o[c].Free?;
      } else {
        assert o'[b] == Free(b, s);
      }
    }
    forall v | v in o' && o'[v].Free? ensures InList(lists', o'[v].b, o'[v].s) {
      if !(b <= v < b + s) {
        assert InList(lists, o[v].b, o[v].s);
      }
    }
  }

  /** A block is in no list before it is free. */
  lemma NotYetListed(o: Heap, lists: seq<seq<Addr>>, b: Addr, s: nat)
    requires Listed(o, lists) && SizeOk(s) && (forall v :: b <= v < b + s ==> v in o && !o[v].Free?)
    ensures s / ALIGN - 1 < NFREELISTS && s == ALIGN * (s / ALIGN) && b !in lists[s / ALIGN - 1]
  {
    assert b in o && !o[b].Free?;
  }

  /** It becomes the first of its list. */
  lemma PushListed(o: Heap, lists: seq<seq<Addr>>, b: Addr, s: nat)
    requires Listed(o, lists) && SizeOk(s) && (forall v :: b <= v < b + s ==> v in o && !o[v].Free?)
    ensures Listed(Paint(o, b, s, Free(b, s)), lists[s / ALIGN - 1 := [b] + lists[s / ALIGN - 1]])
  {
    var k0 := s / ALIGN - 1;
    NotYetListed(o, lists, b, s);
    assert Distinct(lists[k0]);
    hide Listed, Paint;
    AddListed(o, lists, b, k0, [b] + lists[k0]);
  }

  /** The first block of a list gets another owner. */
  lemma PopListed(o: Heap, lists: seq<seq<Addr>>, k0: nat, w: Owner)
    requires Listed(o, lists) && Whole(o) && k0 < NFREELISTS && lists[k0] != [] && !w.Free?
    ensures
      var b, s := lists[k0][0], ALIGN * (k0 + 1);
      && Listed(Paint(o, b, s, w), lists[k0 := lists[k0][1..]]) && b in o && o[b] == Free(b, s)
      && Filled(o, b, s, Free(b, s))
      && Aligned(b) && SizeOk(s)
  {
    var b, s := lists[k0][0], ALIGN * (k0 + 1);
    var o', lists' := Paint(o, b, s, w), lists[k0 := lists[k0][1..]];
    assert b in lists[k0] && WholeAt(o, b);
    forall k, c | 0 <= k < NFREELISTS && c in lists'[k] ensures c in o' && o'[c] == Free(c, ALIGN * (k + 1)) {
      assert c in lists[k];
      assert c != b;
      assert !(b <= c < b + s) by {
        assert o[c] == Free(c, ALIGN * (k + 1));
      }
    }
    forall v | v in o' && o'[v].Free? ensures InList(lists', o'[v].b, o'[v].s) {
      assert InList(lists, o[v].b, o[v].s);
      assert WholeAt(o, v);
    }
  }

  lemma PushChained(link: map<Addr, Addr>, heads: seq<Addr>, lists: seq<seq<Addr>>, b: Addr, k0: nat)
    requires Chained(link, heads, lists) && k0 < NFREELISTS && b > 0
      && forall k :: 0 <= k < NFREELISTS ==> b !in lists[k]
    ensures Chained(link[b := heads[k0]], heads[k0 := b], lists[k0 := [b] + lists[k0]])
  {
    var link', heads', lists' := link[b := heads[k0]], heads[k0 := b], lists[k0 := [b] + lists[k0]];
    forall k | 0 <= k < NFREELISTS ensures Chain(link', heads'[k], lists'[k], 0) {
      assert Chain(link, heads[k], lists[k], 0);
      ChainFrame(link, link', heads[k], lists[k], 0);
      assert ([b] + lists[k0])[1..] == lists[k0];
    }
  }

  lemma PopChained(link: map<Addr, Addr>, heads: seq<Addr>, lists: seq<seq<Addr>>, k0: nat)
    requires Chained(link, heads, lists) && k0 < NFREELISTS
    ensures heads[k0] == 0 <==> lists[k0] == []
    ensures lists[k0] != [] ==>
      && heads[k0] == lists[k0][0] && heads[k0] in link
      && Chained(link, heads[k0 := link[heads[k0]]], lists[k0 := lists[k0][1..]])
  {
    assert Chain(link, heads[k0], lists[k0], 0);
  }

  // ---------- growth ----------

  predicate Between(lo: Addr, v: Addr, hi: Addr) {
    lo <= v < hi
  }

  function Span(lo: Addr, hi: Addr): set<Addr> {
    set v | lo <= v < hi && Between(lo, v, hi)
  }

  lemma {:induction false} SpanSize(lo: Addr, n: nat)
    ensures |Span(lo, lo + n)| == n
    decreases n
  {
    if n > 0 {
      SpanSize(lo, n - 1);
      assert Span(lo, lo + n) == Span(lo, lo + n - 1) + {lo + n - 1};
    } else {
      assert Span(lo, lo) == {};
    }
  }

  /** The bytes of a new region belong to the pool. */
  function Grown(o: Heap, lo: Addr, n: nat): Heap {
    o + AllPool(Span(lo, lo + n))
  }

  function AllPool(s: set<Addr>): Heap {
    map v | v in s :: Pool
  }

  /** A region that no byte of the heap is in. */
  ghost predicate Unused(o: Heap, lo: Addr, n: nat) {
    forall v :: lo <= v < lo + n ==> v !in o
  }

  lemma GrownSize(o: Heap, lo: Addr, n: nat)
    requires Unused(o, lo, n)
    ensures |Grown(o, lo, n)| == |o| + n
  {
    SpanSize(lo, n);
    assert Grown(o, lo, n).Keys == o.Keys + Span(lo, lo + n);
    assert o.Keys !! Span(lo, lo + n);
    hide Grown, Span, Unused;
    UnionSize(o.Keys, Span(lo, lo + n));
    assert |Grown(o, lo, n)| == |Grown(o, lo, n).Keys|;
  }

  lemma UnionSize(a: set<Addr>, b: set<Addr>)
    requires a !! b
    ensures |a + b| == |a| + |b|
  {
  }

  lemma GrownWhole(o: Heap, lo: Addr, n: nat)
    requires Whole(o) && Unused(o, lo, n)
    ensures Whole(Grown(o, lo, n))
  {
    var o' := Grown(o, lo, n);
    forall v | v in o' ensures WholeAt(o', v) {
      if v in o {
        assert WholeAt(o, v) && o'[v] == o[v];
        if o[v].Live? || o[v].Free? {
          forall u | o[v].b <= u < o[v].b + o[v].s ensures u in o' && o'[u] == o[v] {
            assert u in o && o[u] == o[v];
          }
        }
      }
    }
  }

  lemma GrownListed(o: Heap, lists: seq<seq<Addr>>, lo: Addr, n: nat)
    requires Listed(o, lists) && Unused(o, lo, n)
    ensures Listed(Grown(o, lo, n), lists)
  {
    var o' := Grown(o, lo, n);
    forall v | v in o' && o'[v].Free? ensures InList(lists, o'[v].b, o'[v].s) {
      assert v in o && o[v] == o'[v];
    }
  }
}
