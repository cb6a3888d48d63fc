/** The allocator with free lists for small blocks and a pool. */
module PoolAllocator {
  import opened Options
  import opened PoolMemory
  import opened PoolSupply

  /** The pool is from `start` to `end`, the chunk cut off it from `lo` to `hi`; all other
      bytes belong to whole blocks, and the free ones are in the lists. */
  ghost predicate Inv(o: Heap, lists: seq<seq<Addr>>, start: Addr, end: Addr, size: nat, lo: Addr, hi: Addr) {
    && Whole(o) && Listed(o, lists) && Range(o, start, end, Pool) && Range(o, lo, hi, Loose)
    && start % ALIGN == 0 && end % ALIGN == 0 && lo % ALIGN == 0 && hi % ALIGN == 0 && |o| == size && 0 !in o
  }

  /** The blocks of the clients are the same. */
  ghost predicate SameLive(o: Heap, o': Heap) {
    && (forall v :: v in o && o[v].Live? ==> v in o' && o'[v] == o[v])
    && (forall v :: v in o' && o'[v].Live? ==> v in o && o'[v] == o[v])
  }

  /** The block of `s` bytes at `p` is new; the other blocks of the clients are the same. */
  ghost predicate NewLive(o: Heap, o': Heap, p: Addr, s: nat) {
    && Filled(o', p, s, Live(p, s)) && (forall v :: p <= v < p + s && v in o ==> !o[v].Live?)
    && (forall v :: v in o && o[v].Live? ==> v in o' && o'[v] == o[v])
    && (forall v :: v in o' && o'[v].Live? && !(p <= v < p + s) ==> v in o && o'[v] == o[v])
  }

  // ---------- steps ----------

  lemma PaintSize(o: Heap, b: Addr, s: nat, w: Owner)
    ensures |Paint(o, b, s, w)| == |o| && (0 !in o ==> 0 !in Paint(o, b, s, w))
  {
    assert |o.Keys| == |o| && |Paint(o, b, s, w).Keys| == |Paint(o, b, s, w)|;
  }

  /** Painting other bytes does not change a range. */
  lemma RangeStays(o: Heap, b: Addr, s: nat, w: Owner, lo: Addr, hi: Addr, x: Owner)
    requires Range(o, lo, hi, x) && w != x && forall v :: b <= v < b + s ==> v in o && o[v] != x
    ensures Range(Paint(o, b, s, w), lo, hi, x)
  {
  }

  /** Painting the first bytes of a range makes it shorter. */
  lemma RangeShrinks(o: Heap, s: nat, w: Owner, lo: Addr, hi: Addr, x: Owner)
    requires Range(o, lo, hi, x) && w != x && lo + s <= hi
    ensures Range(Paint(o, lo, s, w), lo + s, hi, x) && forall v :: lo <= v < lo + s ==> v in o && o[v] == x
  {
  }

  /** The first byte of a range that is not free. */
  lemma RangeFirst(o: Heap, lists: seq<seq<Addr>>, lo: Addr, hi: Addr, x: Owner)
    requires Listed(o, lists) && Range(o, lo, hi, x) && lo < hi && !x.Free? && 0 !in o
    ensures |lists| == NFREELISTS && lo > 0 && forall k :: 0 <= k < NFREELISTS ==> lo !in lists[k]
  {
    assert lo in o && o[lo] == x;
    NotListed(o, lists, lo);
  }

  lemma RangeStarts(o: Heap, b: Addr, s: nat, lo: Addr, x: Owner)
    requires Range(o, lo, lo, x) && forall v :: b <= v < b + s ==> v in o
    ensures Range(Paint(o, b, s, x), b, b + s, x)
  {
  }

  /** Painting a block that no client has. */
  lemma LiveStays(o: Heap, b: Addr, s: nat, w: Owner)
    requires !w.Live? && forall v :: b <= v < b + s ==> v in o && !o[v].Live?
    ensures SameLive(o, Paint(o, b, s, w))
  {
  }

  lemma LiveStarts(o: Heap, b: Addr, s: nat)
    requires forall v :: b <= v < b + s ==> v in o && !o[v].Live?
    ensures NewLive(o, Paint(o, b, s, Live(b, s)), b, s)
  {
  }

  lemma LiveEnds(o: Heap, b: Addr, s: nat, w: Owner)
    requires !w.Live? && Filled(o, b, s, Live(b, s))
    ensures NewLive(Paint(o, b, s, w), o, b, s)
  {
  }

  lemma ListedStays(o: Heap, lists: seq<seq<Addr>>, b: Addr, s: nat, w: Owner)
    requires Listed(o, lists) && !w.Free? && forall v :: b <= v < b + s ==> v in o && !o[v].Free?
    ensures Listed(Paint(o, b, s, w), lists)
  {
    var o' := Paint(o, b, s, w);
    forall v | v in o' && o'[v].Free? ensures InList(lists, o'[v].b, o'[v].s) {
      assert o[v] == o'[v];
    }
  }

  lemma Cut(o: Heap, lists: seq<seq<Addr>>, start: Addr, end: Addr, size: nat, lo: Addr, n: nat)
    requires Inv(o, lists, start, end, size, lo, lo) && n % ALIGN == 0 && start + n <= end
    ensures Inv(Paint(o, start, n, Loose), lists, start + n, end, size, start, start + n)
    ensures SameLive(o, Paint(o, start, n, Loose))
  {
    hide Whole, Listed, Range, SameLive, Paint;
    RangeShrinks(o, n, Loose, start, end, Pool);
    RangeStarts(o, start, n, lo, Loose);
    PaintWhole(o, start, n, Loose);
    PaintSize(o, start, n, Loose);
    ListedStays(o, lists, start, n, Loose);
    LiveStays(o, start, n, Loose);
  }

  lemma AlignAdd(a: nat, b: nat)
    requires a % ALIGN == 0 && b % ALIGN == 0
    ensures (a + b) % ALIGN == 0
  {
  }

  lemma BlockAligned(o: Heap, lo: Addr, hi: Addr, s: nat)
    requires Range(o, lo, hi, Loose) && 0 !in o && SizeOk(s) && lo + s <= hi && lo % ALIGN == 0
    ensures Aligned(lo) && (lo + s) % ALIGN == 0
  {
    assert lo in o;
  }

  /** The first bytes of the chunk become a block of a client. */
  lemma Give(o: Heap, lists: seq<seq<Addr>>, start: Addr, end: Addr, size: nat, lo: Addr, hi: Addr, s: nat)
    requires Inv(o, lists, start, end, size, lo, hi) && SizeOk(s) && lo + s <= hi
    ensures Inv(Paint(o, lo, s, Live(lo, s)), lists, start, end, size, lo + s, hi)
    ensures NewLive(o, Paint(o, lo, s, Live(lo, s)), lo, s)
  {
    hide Whole, Listed, Range, NewLive, Paint;
    BlockAligned(o, lo, hi, s);
    RangeShrinks(o, s, Live(lo, s), lo, hi, Loose);
    RangeStays(o, lo, s, Live(lo, s), start, end, Pool);
    PaintWhole(o, lo, s, Live(lo, s));
    PaintSize(o, lo, s, Live(lo, s));
    ListedStays(o, lists, lo, s, Live(lo, s));
    LiveStarts(o, lo, s);
  }

  /** The first bytes of the chunk become the last block of a free list. */
  lemma Chop(o: Heap, lists: seq<seq<Addr>>, start: Addr, end: Addr, size: nat, lo: Addr, hi: Addr, s: nat)
    requires Inv(o, lists, start, end, size, lo, hi) && SizeOk(s) && lo + s <= hi
    ensures
      var k0 := s / ALIGN - 1;
      && |lists| == NFREELISTS && (forall k :: 0 <= k < NFREELISTS ==> lo !in lists[k]) && lo > 0
      && Inv(Paint(o, lo, s, Free(lo, s)), lists[k0 := lists[k0] + [lo]], start, end, size, lo + s, hi)
    ensures SameLive(o, Paint(o, lo, s, Free(lo, s)))
  {
    hide Whole, Listed, Range, SameLive, Paint;
    RangeFirst(o, lists, lo, hi, Loose);
    RangeShrinks(o, s, Free(lo, s), lo, hi, Loose);
    BlockAligned(o, lo, hi, s);
    RangeStays(o, lo, s, Free(lo, s), start, end, Pool);
    PaintWhole(o, lo, s, Free(lo, s));
    PaintSize(o, lo, s, Free(lo, s));
    AppendListed(o, lists, lo, s);
    LiveStays(o, lo, s, Free(lo, s));
  }

  lemma AppendListed(o: Heap, lists: seq<seq<Addr>>, b: Addr, s: nat)
    requires Listed(o, lists) && SizeOk(s) && (forall v :: b <= v < b + s ==> v in o && !o[v].Free?)
    ensures
      var k0 := s / ALIGN - 1;
      b !in lists[k0] && Listed(Paint(o, b, s, Free(b, s)), lists[k0 := lists[k0] + [b]])
  {
    var k0 := s / ALIGN - 1;
    NotYetListed(o, lists, b, s);
    assert Distinct(lists[k0]);
    hide Listed, Paint;
    AddListed(o, lists, b, k0, lists[k0] + [b]);
  }

  /** What is left of the pool becomes the first block of a free list. */
  lemma KeepLeft(o: Heap, lists: seq<seq<Addr>>, start: Addr, end: Addr, size: nat, lo: Addr)
    requires Inv(o, lists, start, end, size, lo, lo) && start < end && SizeOk(end - start)
    ensures
      var s := end - start;
      var k0 := s / ALIGN - 1;
      && |lists| == NFREELISTS && start > 0 && (forall k :: 0 <= k < NFREELISTS ==> start !in lists[k])
      && Inv(Paint(o, start, s, Free(start, s)), lists[k0 := [start] + lists[k0]], end, end, size, lo, lo)
    ensures SameLive(o, Paint(o, start, end - start, Free(start, end - start)))
  {
    hide Whole, Listed, Range, SameLive, Paint;
    var s := end - start;
    RangeFirst(o, lists, start, end, Pool);
    RangeShrinks(o, s, Free(start, s), start, end, Pool);
    RangeStays(o, start, s, Free(start, s), lo, lo, Loose);
    PaintWhole(o, start, s, Free(start, s));
    PaintSize(o, start, s, Free(start, s));
    PushListed(o, lists, start, s);
    LiveStays(o, start, s, Free(start, s));
  }

  lemma NotListed(o: Heap, lists: seq<seq<Addr>>, b: Addr)
    requires Listed(o, lists) && b in o && !o[b].Free?
    ensures forall k :: 0 <= k < NFREELISTS ==> b !in lists[k]
  {
  }

  /** An empty pool can be said to be anywhere. */
  lemma MovePool(o: Heap, lists: seq<seq<Addr>>, start: Addr, size: nat, lo: Addr, x: Addr)
    requires Inv(o, lists, start, start, size, lo, lo) && x % ALIGN == 0
    ensures Inv(o, lists, x, x, size, lo, lo)
  {
  }

  /** A free block becomes the block of a client. */
  lemma Take(o: Heap, lists: seq<seq<Addr>>, start: Addr, end: Addr, size: nat, lo: Addr, k0: nat)
    requires Inv(o, lists, start, end, size, lo, lo) && k0 < NFREELISTS && |lists| == NFREELISTS && lists[k0] != []
    ensures
      var b, s := lists[k0][0], ALIGN * (k0 + 1);
      && Inv(Paint(o, b, s, Live(b, s)), lists[k0 := lists[k0][1..]], start, end, size, lo, lo)
      && NewLive(o, Paint(o, b, s, Live(b, s)), b, s)
  {
    var b, s := lists[k0][0], ALIGN * (k0 + 1);
    PopListed(o, lists, k0, Live(b, s));
    BlockBytes(o, b, s);
    hide Whole, Listed, Range, NewLive, Paint;
    RangeStays(o, b, s, Live(b, s), start, end, Pool);
    RangeStays(o, b, s, Live(b, s), lo, lo, Loose);
    PaintWhole(o, b, s, Live(b, s));
    PaintSize(o, b, s, Live(b, s));
    LiveStarts(o, b, s);
  }

  lemma BlockBytes(o: Heap, b: Addr, s: nat)
    requires Filled(o, b, s, Free(b, s))
    ensures forall v :: b <= v < b + s ==>
      v in o && o[v] != Pool && o[v] != Loose && !o[v].Live? && o[v].Free? && o[v].b == b && o[v].s == s
  {
  }

  /** A free block becomes the pool. */
  lemma Reuse(o: Heap, lists: seq<seq<Addr>>, start: Addr, size: nat, lo: Addr, k0: nat, b: Addr, s: nat)
    requires Inv(o, lists, start, start, size, lo, lo) && k0 < NFREELISTS && |lists| == NFREELISTS && lists[k0] != []
    requires b == lists[k0][0] && s == ALIGN * (k0 + 1)
    ensures Inv(Paint(o, b, s, Pool), lists[k0 := lists[k0][1..]], b, b + s, size, lo, lo)
    ensures SameLive(o, Paint(o, b, s, Pool))
  {
    PopListed(o, lists, k0, Pool);
    BlockBytes(o, b, s);
    AlignAdd(b, s);
    hide Whole, Listed, Range, SameLive, Paint, Filled;
    PaintWhole(o, b, s, Pool);
    PaintSize(o, b, s, Pool);
    LiveStays(o, b, s, Pool);
    RangeStarts(o, b, s, start, Pool);
    RangeStays(o, b, s, Pool, lo, lo, Loose);
  }

  /** A new region becomes the pool. */
  lemma Grow(o: Heap, lists: seq<seq<Addr>>, start: Addr, size: nat, lo: Addr, m: Addr, n: nat)
    requires Inv(o, lists, start, start, size, lo, lo) && Aligned(m) && n % ALIGN == 0 && Unused(o, m, n)
    ensures Inv(Grown(o, m, n), lists, m, m + n, size + n, lo, lo) && SameLive(o, Grown(o, m, n))
  {
    GrownWhole(o, m, n);
    GrownListed(o, lists, m, n);
    GrownSize(o, m, n);
    GrownRanges(o, m, n, start, lo);
    AlignAdd(m, n);
    hide Whole, Listed, Range, SameLive, Grown, Unused;
  }

  lemma GrownRanges(o: Heap, m: Addr, n: nat, start: Addr, lo: Addr)
    requires Range(o, start, start, Pool) && Range(o, lo, lo, Loose) && Unused(o, m, n) && m > 0 && 0 !in o
    ensures Range(Grown(o, m, n), m, m + n, Pool) && Range(Grown(o, m, n), lo, lo, Loose)
      && SameLive(o, Grown(o, m, n)) && 0 !in Grown(o, m, n)
  {
    var o' := Grown(o, m, n);
    forall v ensures v in o' <==> v in o || m <= v < m + n {
    }
  }

  /** The block of a client becomes the first block of its free list. */
  lemma Release(o: Heap, lists: seq<seq<Addr>>, start: Addr, end: Addr, size: nat, lo: Addr, p: Addr, s: nat)
    requires Inv(o, lists, start, end, size, lo, lo) && p in o && o[p] == Live(p, s)
    ensures
      var k0 := s / ALIGN - 1;
      && |lists| == NFREELISTS && SizeOk(s) && p > 0 && (forall k :: 0 <= k < NFREELISTS ==> p !in lists[k])
      && Inv(Paint(o, p, s, Free(p, s)), lists[k0 := [p] + lists[k0]], start, end, size, lo, lo)
      && NewLive(Paint(o, p, s, Free(p, s)), o, p, s)
  {
    assert |lists| == NFREELISTS && WholeAt(o, p);
    NotListed(o, lists, p);
    hide Whole, Listed, Range, NewLive, Paint;
    RangeStays(o, p, s, Free(p, s), start, end, Pool);
    RangeStays(o, p, s, Free(p, s), lo, lo, Loose);
    PaintWhole(o, p, s, Free(p, s));
    PaintSize(o, p, s, Free(p, s));
    PushListed(o, lists, p, s);
    LiveEnds(o, p, s, Free(p, s));
  }

  // ---------- what the invariant means ----------

  ghost function SizeSum(blocks: seq<Owner>): nat
    requires forall i :: 0 <= i < |blocks| ==> blocks[i].Live? || blocks[i].Free?
  {
    if blocks == [] then 0 else blocks[0].s + SizeSum(blocks[1..])
  }

  /** The sequence has all blocks of the heap, once. */
  ghost predicate Enumerates(o: Heap, blocks: seq<Owner>) {
    && (forall i :: 0 <= i < |blocks| ==>
        (blocks[i].Live? || blocks[i].Free?) && blocks[i].b in o && o[blocks[i].b] == blocks[i])
    && (forall i, j :: 0 <= i < j < |blocks| ==> blocks[i] != blocks[j])
    && (forall v :: v in o && (o[v].Live? || o[v].Free?) ==> o[v] in blocks)
  }

  lemma {:induction false} Listing(S: set<Owner>) returns (s: seq<Owner>)
    ensures (forall w :: w in S <==> w in s) && forall i, j :: 0 <= i < j < |s| ==> s[i] != s[j]
    decreases |S|
  {
    if S == {} {
      s := [];
    } else {
      var w :| w in S;
      var rest := Listing(S - {w});
      s := [w] + rest;
    }
  }

  /** The blocks of a heap can be listed. */
  lemma AllBlocks(o: Heap) returns (blocks: seq<Owner>)
    requires Whole(o)
    ensures Enumerates(o, blocks)
  {
    var S := set v | v in o && (o[v].Live? || o[v].Free?) :: o[v];
    blocks := Listing(S);
    forall i | 0 <= i < |blocks|
      ensures (blocks[i].Live? || blocks[i].Free?) && blocks[i].b in o && o[blocks[i].b] == blocks[i]
    {
      assert blocks[i] in S;
      var v :| v in o && (o[v].Live? || o[v].Free?) && o[v] == blocks[i];
      assert WholeAt(o, v);
    }
  }

  /** The blocks and the pool together are as large as what was got from the system. */
  lemma {:induction false} Conservation(o: Heap, blocks: seq<Owner>, start: Addr, end: Addr)
    requires Whole(o) && Range(o, start, end, Pool) && (forall v :: v in o ==> o[v] != Loose) && Enumerates(o, blocks)
    ensures SizeSum(blocks) + end - start == |o|
    decreases |blocks|
  {
    if blocks == [] {
      AllInPool(o, start, end);
    } else {
      var w := blocks[0];
      assert WholeAt(o, w.b);
      var o' := o - Span(w.b, w.b + w.s);
      RemoveBlock(o, o', blocks);
      PoolStays(o, o', start, end);
      LessBlock(o, o', w.b, w.s, w);
      hide Whole, Range, Enumerates;
      Conservation(o', blocks[1..], start, end);
    }
  }

  lemma AllInPool(o: Heap, start: Addr, end: Addr)
    requires Range(o, start, end, Pool) && forall v :: v in o ==> o[v] == Pool
    ensures |o| == end - start
  {
    forall v ensures v in o <==> v in Span(start, end) {
    }
    assert o.Keys == Span(start, end);
    SpanSize(start, end - start);
  }

  lemma PoolStays(o: Heap, o': Heap, start: Addr, end: Addr)
    requires Range(o, start, end, Pool) && forall v :: v in o && o[v] == Pool ==> v in o' && o'[v] == Pool
    requires forall v :: v in o' ==> v in o && o'[v] == o[v]
    ensures Range(o', start, end, Pool)
  {
  }

  lemma LessBlock(o: Heap, o': Heap, b: Addr, s: nat, w: Owner)
    requires Filled(o, b, s, w) && o' == o - Span(b, b + s)
    ensures |o'| + s == |o|
  {
    SpanSize(b, s);
    assert forall v :: v in Span(b, b + s) ==> v in o;
    assert Span(b, b + s) <= o.Keys;
    assert o'.Keys == o.Keys - Span(b, b + s);
    assert |o'| == |o'.Keys| && |o| == |o.Keys|;
  }

  lemma RemoveBlock(o: Heap, o': Heap, blocks: seq<Owner>)
    requires Whole(o) && blocks != [] && Enumerates(o, blocks) && o' == o - Span(blocks[0].b, blocks[0].b + blocks[0].s)
    ensures Whole(o') && Enumerates(o', blocks[1..])
    ensures forall v :: v in o && o[v] == Pool ==> v in o' && o'[v] == Pool
  {
    var w := blocks[0];
    assert WholeAt(o, w.b);
    forall v ensures v in o' <==> v in o && o[v] != w {
      if v in o && o[v] == w {
        assert WholeAt(o, v);
      }
    }
    forall v | v in o' ensures WholeAt(o', v) {
      assert WholeAt(o, v);
      if o[v].Live? || o[v].Free? {
        forall u | o[v].b <= u < o[v].b + o[v].s ensures u in o' && o'[u] == o[v] {
          assert u in o && o[u] == o[v];
        }
      }
    }
    forall v | v in o' && (o'[v].Live? || o'[v].Free?) ensures o'[v] in blocks[1..] {
      assert o[v] in blocks && o[v] != w;
      var i :| 0 <= i < |blocks| && blocks[i] == o[v];
      assert blocks[1..][i - 1] == o[v];
    }
  }

  // ---------- the allocator ----------

  lemma IndexOf(s: nat)
    requires SizeOk(s)
    ensures FreelistIndex(s) == s / ALIGN - 1 < NFREELISTS && s == ALIGN * (s / ALIGN)
  {
  }

  lemma RoundUpOk(n: nat)
    requires 0 < n <= MAX_BYTES
    ensures SizeOk(RoundUp(n)) && FreelistIndex(n) == FreelistIndex(RoundUp(n)) == RoundUp(n) / ALIGN - 1
  {
  }

  /** What `malloc` may deliver: nothing, or a region outside of the heap. */
  ghost predicate Grant(o: Heap, m: Addr, n: nat) {
    m == 0 || (Aligned(m) && Unused(o, m, n))
  }

  /** Neither the pool nor a list has a block of the size. */
  ghost predicate Starved(lists: seq<seq<Addr>>, left: int, size: nat)
    requires |lists| == NFREELISTS
  {
    left < size && forall k :: 0 <= k < NFREELISTS && size / ALIGN - 1 <= k ==> lists[k] == []
  }

  lemma MoveLoose(o: Heap, lists: seq<seq<Addr>>, start: Addr, end: Addr, size: nat, lo: Addr, x: Addr)
    requires Inv(o, lists, start, end, size, lo, lo) && x % ALIGN == 0
    ensures Inv(o, lists, start, end, size, x, x)
  {
  }

  lemma SameLiveTrans(o: Heap, o1: Heap, o2: Heap)
    requires SameLive(o, o1) && SameLive(o1, o2)
    ensures SameLive(o, o2)
  {
  }

  lemma SameThenNew(o: Heap, o1: Heap, o2: Heap, p: Addr, s: nat)
    requires SameLive(o, o1) && NewLive(o1, o2, p, s)
    ensures NewLive(o, o2, p, s)
  {
    assert forall v :: p <= v < p + s ==> v in o2 && o2[v] == Live(p, s);
  }

  lemma NewThenSame(o: Heap, o1: Heap, o2: Heap, p: Addr, s: nat)
    requires NewLive(o, o1, p, s) && SameLive(o1, o2)
    ensures NewLive(o, o2, p, s)
  {
    assert forall v :: p <= v < p + s ==> v in o1 && o1[v] == Live(p, s);
  }

  /** A multiple of the alignment. */
  lemma Multiple(s: nat, n: nat)
    requires s % ALIGN == 0
    ensures s * n % ALIGN == 0
  {
    var q := s / ALIGN;
    assert s * n == ALIGN * q * n == ALIGN * (q * n);
    EightTimes(q * n);
  }

  lemma EightTimes(k: nat)
    ensures ALIGN * k % ALIGN == 0
  {
  }

  /** How many objects fit into what is left. */
  lemma Fitting(left: nat, size: nat, n: nat)
    requires 0 < size <= left < size * n
    ensures 0 < left / size < n && size * (left / size) <= left
  {
    assert left == size * (left / size) + left % size;
  }

  lemma AlignLeft(start: nat, end: nat, size: nat)
    requires start % ALIGN == 0 && end % ALIGN == 0 && start < end < start + size && SizeOk(size)
    ensures SizeOk(end - start) && FreelistIndex(end - start) < FreelistIndex(size)
  {
  }

  class Allocator {
    var startFree: Addr
    var endFree: Addr
    var heapSize: nat
    var freeList: seq<Addr>
    var link: map<Addr, Addr>
    ghost var owner: Heap
    ghost var lists: seq<seq<Addr>>

    /** The chunk from `lo` to `hi` was cut off the pool and is not yet used. */
    ghost predicate State(lo: Addr, hi: Addr)
      reads this
    {
      Inv(owner, lists, startFree, endFree, heapSize, lo, hi) && Chained(link, freeList, lists)
        && |lists| == NFREELISTS && startFree <= endFree
    }

    ghost predicate Valid()
      reads this
    {
      State(0, 0)
    }

    ghost function Now(): Arena
      reads this
    {
      Arena(lists, startFree, endFree, heapSize)
    }

    constructor ()
      ensures Valid() && owner == map[]
    {
      startFree, endFree, heapSize := 0, 0, 0;
      freeList, link := seq(NFREELISTS, i => 0), map[];
      owner, lists := map[], seq(NFREELISTS, i => []);
    }

    /** The blocks in the free lists, those of the clients and the pool are together as
        large as all memory that was got from the system. */
    lemma Accounts()
      requires Valid()
      ensures exists blocks :: Enumerates(owner, blocks)
      ensures forall blocks :: Enumerates(owner, blocks) ==> SizeSum(blocks) + endFree - startFree == heapSize
    {
      var all := AllBlocks(owner);
      forall blocks | Enumerates(owner, blocks) ensures SizeSum(blocks) + endFree - startFree == heapSize {
        Conservation(owner, blocks, startFree, endFree);
      }
    }

    /** Cuts `n` bytes off the pool. */
    method CutOff(n: nat) returns (result: Addr)
      requires State(0, 0) && n % ALIGN == 0 && startFree + n <= endFree
      modifies this`startFree, this`owner
      ensures State(result, result + n) && SameLive(old(owner), owner) && owner.Keys == old(owner).Keys
      ensures result == old(startFree) && startFree == result + n
    {
      hide Inv, SameLive, Chained;
      Cut(owner, lists, startFree, endFree, heapSize, 0, n);
      result := startFree;
      owner := Paint(owner, startFree, n, Loose);
      startFree := startFree + n;
    }

    /** Puts what is left of the pool into a free list. */
    method SaveLeftOver(size: nat)
      requires State(0, 0) && SizeOk(size) && endFree - startFree < size
      modifies this`link, this`freeList, this`owner, this`lists
      ensures |lists| == NFREELISTS && Inv(owner, lists, endFree, endFree, heapSize, 0, 0)
        && Chained(link, freeList, lists)
      ensures SameLive(old(owner), owner) && owner.Keys == old(owner).Keys
      ensures forall k :: FreelistIndex(size) <= k < NFREELISTS ==> lists[k] == old(lists)[k]
      ensures lists == Saved(old(Now()))
    {
      hide Inv, SameLive, Chained, FreelistIndex;
      var left := endFree - startFree;
      if left > 0 {
        InvAligned(owner, lists, startFree, endFree, heapSize);
        AlignLeft(startFree, endFree, size);
        IndexOf(left);
        KeepLeft(owner, lists, startFree, endFree, heapSize, 0);
        IndexOf(size);
        var i := FreelistIndex(left);
        PushChained(link, freeList, lists, startFree, i);
        assert |freeList| == NFREELISTS by {
          ChainedSize(link, freeList, lists);
        }
        link := link[startFree := freeList[i]];
        freeList := freeList[i := startFree];
        owner, lists := Paint(owner, startFree, left, Free(startFree, left)), lists[i := [startFree] + lists[i]];
      } else {
        SameLiveRefl(owner);
      }
    }

    /** Looks for a free block of at least the size and makes it the pool. */
    method FindFree(size: nat) returns (found: bool)
      requires |lists| == NFREELISTS && Inv(owner, lists, endFree, endFree, heapSize, 0, 0)
        && Chained(link, freeList, lists) && SizeOk(size)
      modifies this`startFree, this`endFree, this`freeList, this`owner, this`lists
      ensures SameLive(old(owner), owner) && owner.Keys == old(owner).Keys
      ensures found ==> State(0, 0) && endFree - startFree >= size
      ensures !found ==>
        owner == old(owner) && lists == old(lists) && freeList == old(freeList) && endFree == old(endFree)
      ensures !found <==> forall k :: FreelistIndex(size) <= k < NFREELISTS ==> old(lists)[k] == []
      ensures forall k :: 0 <= k < NFREELISTS && old(lists)[k] == [] ==> lists[k] == []
      ensures
        match FirstFree(old(lists), size / 8 - 1)
        case None => !found
        case Some(k) =>
          found && startFree == old(lists)[k][0] && endFree == startFree + 8 * (k + 1)
            && lists == old(lists)[k := old(lists)[k][1..]]
    {
      hide Inv, Chained;
      ChainedSize(link, freeList, lists);
      IndexOf(size);
      found := false;
      var i: nat := size;
      while i <= MAX_BYTES
        invariant i % ALIGN == 0 && size <= i <= MAX_BYTES + ALIGN && |freeList| == NFREELISTS
        invariant owner == old(owner) && lists == old(lists) && freeList == old(freeList) && endFree == old(endFree)
        invariant forall k :: FreelistIndex(size) <= k < i / ALIGN - 1 ==> lists[k] == []
        decreases MAX_BYTES + ALIGN - i
      {
        IndexOf(i);
        var k0 := FreelistIndex(i);
        var p: Addr := freeList[k0];
        PopChained(link, freeList, lists, k0);
        if p != 0 {
          IsFirstFree(lists, size / 8 - 1, k0);
          Reuse(owner, lists, endFree, heapSize, 0, k0, p, i);
          freeList := freeList[k0 := link[p]];
          startFree := p;
          endFree := p + i;
          owner, lists := Paint(owner, p, i, Pool), lists[k0 := lists[k0][1..]];
          return true;
        }
        i := i + ALIGN;
      }
    }

    /** Makes a region from the system the pool, which is empty. */
    method GrowPool(m: Addr, bytes: nat)
      requires |lists| == NFREELISTS && Inv(owner, lists, endFree, endFree, heapSize, 0, 0)
        && Chained(link, freeList, lists)
      requires bytes % ALIGN == 0 && m != 0 && Grant(owner, m, bytes)
      modifies this`startFree, this`endFree, this`heapSize, this`owner
      ensures State(0, 0) && SameLive(old(owner), owner) && endFree - startFree == bytes
      ensures Now() == Arena(old(lists), m, m + bytes, old(heapSize) + bytes)
    {
      hide Inv, Chained, SameLive;
      Grow(owner, lists, endFree, heapSize, 0, m, bytes);
      owner := Grown(owner, m, bytes);
      startFree := m;
      heapSize := heapSize + bytes;
      endFree := startFree + bytes;
    }

    /** Replaces a pool that is too small: by a region from `malloc`, whose result is `m1`,
        or by a free block, or by the result `m2` of a second attempt, which may throw. */
    method Replenish(size: nat, total: nat, m1: Addr, m2: Addr) returns (thrown: bool)
      requires State(0, 0) && SizeOk(size) && endFree - startFree < size <= total && total % ALIGN == 0
      requires Grant(owner, m1, BytesToGet(total, heapSize)) && Grant(owner, m2, BytesToGet(total, heapSize))
      modifies this
      ensures thrown <==> m1 == 0 && m2 == 0 && Starved(old(lists), old(endFree) - old(startFree), size)
      ensures State(0, 0) && SameLive(old(owner), owner) && (!thrown ==> endFree - startFree >= size)
      ensures forall k :: FreelistIndex(size) <= k < NFREELISTS && old(lists)[k] == [] ==> lists[k] == []
      ensures
        match Supplied(old(Now()), size, total, m1, m2)
        case Some(a) => !thrown && Now() == a
        case None => thrown && Now() == Arena(Saved(old(Now())), 0, 0, old(heapSize))
    {
      hide Inv, Chained, SameLive, FreelistIndex, Grant, RoundUp, BytesToGet, Saved;
      ghost var left := endFree - startFree;
      var bytes := BytesToGet(total, heapSize);
      BytesAligned(total, heapSize);
      SaveLeftOver(size);
      ghost var o1, l1 := owner, lists;
      GrantLater(old(owner), owner, m1, bytes);
      GrantLater(old(owner), owner, m2, bytes);
      SearchDone(old(lists), l1, size, left);
      SameLiveRefl(owner);
      if m1 != 0 {
        GrowPool(m1, bytes);
        SameLiveTrans(old(owner), o1, owner);
        return false;
      }
      var end := endFree;
      var found := FindFree(size);
      SameLiveTrans(old(owner), o1, owner);
      if found {
        return false;
      }
      startFree, endFree := 0, 0;
      MovePool(owner, lists, end, heapSize, 0, 0);
      if m2 == 0 {
        return true;
      }
      GrowPool(m2, bytes);
      SameLiveTrans(old(owner), o1, owner);
      thrown := false;
    }

    /** Delivers a chunk for up to `nobjs0` objects; when the pool is too small for one, it
        is replaced first. */
    method ChunkAlloc(size: nat, nobjs0: nat, m1: Addr, m2: Addr) returns (result: Addr, nobjs: nat, thrown: bool)
      requires State(0, 0) && SizeOk(size) && nobjs0 > 0
      requires Grant(owner, m1, BytesToGet(size * nobjs0, heapSize))
        && Grant(owner, m2, BytesToGet(size * nobjs0, heapSize))
      modifies this
      ensures thrown <==> m1 == 0 && m2 == 0 && Starved(old(lists), old(endFree) - old(startFree), size)
      ensures thrown ==> State(0, 0)
      ensures !thrown ==> 0 < nobjs <= nobjs0 && State(result, result + size * nobjs)
      ensures SameLive(old(owner), owner) && |lists| == NFREELISTS
      ensures forall k :: FreelistIndex(size) <= k < NFREELISTS && old(lists)[k] == [] ==> lists[k] == []
      ensures
        match Supplied(old(Now()), size, size * nobjs0, m1, m2)
        case Some(a) =>
          !thrown && result == a.start && nobjs == Fit(a.end - a.start, size, nobjs0)
            && Now() == a.(start := result + size * nobjs)
        case None => thrown && Now() == Arena(Saved(old(Now())), 0, 0, old(heapSize))
      decreases endFree - startFree < size
    {
      hide Inv, Chained, SameLive, BytesToGet, FreelistIndex, Grant, Saved, FirstFree, Supplied;
      var total := size * nobjs0;
      var left := endFree - startFree;
      nobjs := nobjs0;
      InvAligned(owner, lists, startFree, endFree, heapSize);
      Multiple(size, nobjs0);
      Times(size, nobjs0);
      if left >= size {
        SuppliedAgain(Now(), size, total, m1, m2);
      }
      if left >= total {
        result := CutOff(total);
        thrown := false;
      } else if left >= size {
        Fitting(left, size, nobjs0);
        nobjs := left / size;
        Multiple(size, nobjs);
        total := size * nobjs;
        result := CutOff(total);
        thrown := false;
      } else {
        thrown := Replenish(size, total, m1, m2);
        if thrown {
          result := 0;
          return;
        }
        ghost var o1 := owner;
        NoGrant(owner, BytesToGet(total, heapSize));
        SuppliedAgain(Now(), size, total, 0, 0);
        result, nobjs, thrown := ChunkAlloc(size, nobjs0, 0, 0);
        SameLiveTrans(old(owner), o1, owner);
      }
    }

    /** Delivers one block of `n` bytes and puts the others of a chunk into the free list of
        that size, which must be empty. */
    method Refill(n: nat, m1: Addr, m2: Addr) returns (result: Addr, thrown: bool)
      requires Valid() && SizeOk(n) && lists[FreelistIndex(n)] == []
      requires Grant(owner, m1, BytesToGet(n * NOBJS, heapSize)) && Grant(owner, m2, BytesToGet(n * NOBJS, heapSize))
      modifies this
      ensures Valid()
      ensures thrown <==> m1 == 0 && m2 == 0 && Starved(old(lists), old(endFree) - old(startFree), n)
      ensures thrown ==> SameLive(old(owner), owner)
      ensures !thrown ==> NewLive(old(owner), owner, result, n)
      ensures
        match Supplied(old(Now()), n, n * NOBJS, m1, m2)
        case Some(a) => !thrown && result == a.start <= a.end && Now() == Dealt(a, n)
        case None => thrown && Now() == Arena(Saved(old(Now())), 0, 0, old(heapSize))
    {
      hide Inv, Chained, SameLive, NewLive, BytesToGet, Grant, Starved, Saved, Supplied, Row;
      IndexOf(n);
      var nobjs;
      result, nobjs, thrown := ChunkAlloc(n, NOBJS, m1, m2);
      if thrown {
        return;
      }
      ghost var o1, end := owner, result + n * nobjs;
      Times(n, nobjs);
      Give(owner, lists, startFree, endFree, heapSize, result, end, n);
      owner := Paint(owner, result, n, Live(result, n));
      SameThenNew(old(owner), o1, owner, result, n);
      if nobjs == 1 {
        Loosen(owner, lists, startFree, endFree, heapSize, end);
        return;
      }
      ghost var o2 := owner;
      BuildList(n, result, nobjs);
      NewThenSame(old(owner), o2, owner, result, n);
    }

    /** Links the objects of a chunk after the first one into the free list. */
    method BuildList(n: nat, chunk: Addr, nobjs: nat)
      requires State(chunk + n, chunk + n * nobjs) && SizeOk(n) && nobjs > 1 && lists[FreelistIndex(n)] == []
      modifies this`link, this`freeList, this`owner, this`lists
      ensures Valid() && SameLive(old(owner), owner)
      ensures lists == old(lists)[n / 8 - 1 := Row(chunk + n, n, nobjs - 1)]
    {
      hide Inv, Chained, ChainedTo, SameLive, FreelistIndex, SizeOk, Paint, Bytes, Row;
      IndexOf(n);
      var k0 := FreelistIndex(n);
      ghost var end := chunk + n * nobjs;
      ChainedSize(link, freeList, lists);
      var next: nat := chunk + n;
      StartChain(link, freeList, lists, k0, next);
      freeList := freeList[k0 := next];
      SameLiveRefl(owner);
      var i: nat := 1;
      Remaining(n, nobjs);
      Remaining(n, 1);
      NoRow(chunk + n, n);
      while true
        invariant 1 <= i < nobjs && |lists| == |freeList| == NFREELISTS && startFree <= endFree
        invariant Inv(owner, lists, startFree, endFree, heapSize, next, end)
          && ChainedTo(link, freeList, lists, k0, next)
        invariant next + Bytes(n, nobjs - i) == end && SameLive(old(owner), owner)
        invariant next == chunk + n + Bytes(n, i - 1)
        invariant lists == old(lists)[k0 := Row(chunk + n, n, i - 1)]
        decreases nobjs - i
      {
        var current := next;
        next := next + n;
        Remaining(n, nobjs - i);
        Remaining(n, i);
        RowNext(chunk + n, n, i - 1);
        LinkNext(owner, lists, startFree, endFree, heapSize, current, end, link, freeList, n,
          if nobjs - 1 == i then 0 else next);
        ghost var o1 := owner;
        owner, lists := Paint(owner, current, n, Free(current, n)), lists[k0 := lists[k0] + [current]];
        SameLiveTrans(old(owner), o1, owner);
        if nobjs - 1 == i {
          link := link[current := 0];
          break;
        } else {
          link := link[current := next];
        }
        i := i + 1;
      }
      Loosen(owner, lists, startFree, endFree, heapSize, end);
      AnyTail(link, freeList, lists, k0);
    }

    /** Delivers the first block of a free list. */
    method TakeFirst(k0: nat, s: nat) returns (p: Addr)
      requires Valid() && k0 < NFREELISTS && s == ALIGN * (k0 + 1) && lists[k0] != []
      modifies this`freeList, this`owner, this`lists
      ensures Valid() && NewLive(old(owner), owner, p, s)
      ensures p == old(lists)[k0][0] && lists == old(lists)[k0 := old(lists)[k0][1..]]
    {
      hide Inv, ChainedTo, NewLive;
      ChainedSize(link, freeList, lists);
      PopChained(link, freeList, lists, k0);
      TakeBlock(owner, lists, startFree, endFree, heapSize, k0, lists[k0][0], s);
      p := freeList[k0];
      freeList := freeList[k0 := link[p]];
      owner, lists := Paint(owner, p, s, Live(p, s)), lists[k0 := lists[k0][1..]];
    }

    /** Delivers a block for `n` bytes. Larger requests go to the system, whose result is
        `m1`, or `m2` after its handler was called; small ones fail only when there is no
        memory left and no block of at least the size. */
    method Allocate(n: nat, m1: Addr, m2: Addr) returns (p: Addr, thrown: bool)
      requires Valid() && n > 0
      requires n <= MAX_BYTES ==>
        Grant(owner, m1, BytesToGet(RoundUp(n) * NOBJS, heapSize))
          && Grant(owner, m2, BytesToGet(RoundUp(n) * NOBJS, heapSize))
      modifies this
      ensures Valid()
      ensures n > MAX_BYTES ==>
        owner == old(owner) && (thrown <==> m1 == 0 && m2 == 0) && p == if m1 != 0 then m1 else m2
      ensures n <= MAX_BYTES ==>
        && SizeOk(RoundUp(n))
        && (thrown <==> m1 == 0 && m2 == 0 && Starved(old(lists), old(endFree) - old(startFree), RoundUp(n)))
        && (if thrown then SameLive(old(owner), owner) else NewLive(old(owner), owner, p, RoundUp(n)))
      ensures n > MAX_BYTES ==> Now() == old(Now())
      ensures n <= MAX_BYTES ==>
        var list := old(lists)[FreelistIndex(n)];
        if list != [] then
          !thrown && p == list[0] && Now() == old(Now()).(lists := old(lists)[FreelistIndex(n) := list[1..]])
        else
          match Supplied(old(Now()), RoundUp(n), RoundUp(n) * NOBJS, m1, m2)
          case Some(a) => !thrown && p == a.start <= a.end && Now() == Dealt(a, RoundUp(n))
          case None => thrown && Now() == Arena(Saved(old(Now())), 0, 0, old(heapSize))
    {
      hide Inv, ChainedTo, SameLive, NewLive, BytesToGet, Grant, RoundUp, FreelistIndex, Starved, Supplied, Saved,
        Dealt;
      thrown := false;
      if n > MAX_BYTES {
        p := m1;
        if p == 0 {
          p := m2;
          thrown := p == 0;
        }
      } else {
        RoundUpOk(n);
        ChainedSize(link, freeList, lists);
        var k0 := FreelistIndex(n);
        IndexOf(RoundUp(n));
        PopChained(link, freeList, lists, k0);
        if freeList[k0] == 0 {
          p, thrown := Refill(RoundUp(n), m1, m2);
        } else {
          NotStarved(lists, endFree - startFree, RoundUp(n), k0);
          p := TakeFirst(k0, RoundUp(n));
        }
      }
    }

    /** Takes back a block that was allocated for `n` bytes. */
    method Deallocate(p: Addr, n: nat)
      requires Valid() && 0 < n && (n <= MAX_BYTES ==> p in owner && owner[p] == Live(p, RoundUp(n)))
      modifies this
      ensures Valid()
      ensures owner.Keys == old(owner).Keys
      ensures n > MAX_BYTES ==> owner == old(owner) && Now() == old(Now())
      ensures n <= MAX_BYTES ==>
        NewLive(owner, old(owner), p, RoundUp(n)) && FreelistIndex(n) < NFREELISTS
          && Now() == old(Now()).(lists := old(lists)[FreelistIndex(n) := [p] + old(lists)[FreelistIndex(n)]])
    {
      hide Inv, ChainedTo, NewLive, RoundUp, FreelistIndex;
      if n <= MAX_BYTES {
        RoundUpOk(n);
        IndexOf(RoundUp(n));
        GiveBack(p, RoundUp(n), FreelistIndex(n));
      }
    }

    /** A block that was given back is the next one of its size, and nothing else has changed. */
    method Renew(p: Addr, n: nat, m1: Addr, m2: Addr) returns (q: Addr, thrown: bool)
      requires Valid() && 0 < n <= MAX_BYTES && p in owner && owner[p] == Live(p, RoundUp(n))
      requires Grant(owner, m1, BytesToGet(RoundUp(n) * NOBJS, heapSize))
        && Grant(owner, m2, BytesToGet(RoundUp(n) * NOBJS, heapSize))
      modifies this
      ensures Valid() && !thrown && q == p && Now() == old(Now())
    {
      hide Inv, Chained, ChainedTo, RoundUp, FreelistIndex, BytesToGet, Supplied, Saved, Dealt, Grant;
      ghost var o := owner;
      Deallocate(p, n);
      GrantLater(o, owner, m1, BytesToGet(RoundUp(n) * NOBJS, heapSize));
      GrantLater(o, owner, m2, BytesToGet(RoundUp(n) * NOBJS, heapSize));
      q, thrown := Allocate(n, m1, m2);
      assert Now().lists == old(Now()).lists;
    }

    method GiveBack(p: Addr, ghost s: nat, k0: nat)
      requires Valid() && p in owner && owner[p] == Live(p, s) && k0 < NFREELISTS && s == ALIGN * (k0 + 1)
      modifies this`freeList, this`owner, this`lists, this`link
      ensures Valid() && NewLive(owner, old(owner), p, s) && owner.Keys == old(owner).Keys
      ensures lists == old(lists)[k0 := [p] + old(lists)[k0]]
    {
      hide Inv, ChainedTo, NewLive;
      ChainedSize(link, freeList, lists);
      ReleaseBlock(owner, lists, startFree, endFree, heapSize, k0, p, s);
      PushChained(link, freeList, lists, p, k0);
      link := link[p := freeList[k0]];
      freeList := freeList[k0 := p];
      owner, lists := Paint(owner, p, s, Free(p, s)), lists[k0 := [p] + lists[k0]];
    }

    /** A client that writes into its own block cannot harm the free lists. */
    method ClientWrite(p: Addr, x: Addr)
      requires Valid() && p in owner && owner[p].Live?
      modifies this`link
      ensures Valid() && link == old(link)[p := x]
    {
      ClientChained(owner, link, freeList, lists, p, x);
      hide Inv, ChainedTo;
      link := link[p := x];
    }
  }

  lemma NotStarved(lists: seq<seq<Addr>>, left: int, s: nat, k0: nat)
    requires |lists| == NFREELISTS && k0 < NFREELISTS && s / ALIGN - 1 == k0 && lists[k0] != []
    ensures !Starved(lists, left, s)
  {
  }

  lemma TakeBlock(o: Heap, lists: seq<seq<Addr>>, start: Addr, end: Addr, size: nat, k0: nat, b: Addr, s: nat)
    requires Inv(o, lists, start, end, size, 0, 0) && k0 < NFREELISTS && |lists| == NFREELISTS && lists[k0] != []
    requires b == lists[k0][0] && s == ALIGN * (k0 + 1)
    ensures Inv(Paint(o, b, s, Live(b, s)), lists[k0 := lists[k0][1..]], start, end, size, 0, 0)
    ensures NewLive(o, Paint(o, b, s, Live(b, s)), b, s)
  {
    Take(o, lists, start, end, size, 0, k0);
  }

  lemma ReleaseBlock(o: Heap, lists: seq<seq<Addr>>, start: Addr, end: Addr, size: nat, k0: nat, p: Addr, s: nat)
    requires Inv(o, lists, start, end, size, 0, 0) && k0 < NFREELISTS && |lists| == NFREELISTS && s == ALIGN * (k0 + 1)
    requires p in o && o[p] == Live(p, s)
    ensures p > 0 && (forall k :: 0 <= k < NFREELISTS ==> p !in lists[k])
    ensures Inv(Paint(o, p, s, Free(p, s)), lists[k0 := [p] + lists[k0]], start, end, size, 0, 0)
    ensures NewLive(Paint(o, p, s, Free(p, s)), o, p, s)
  {
    Release(o, lists, start, end, size, 0, p, s);
    assert s / ALIGN - 1 == k0;
  }

  lemma Loosen(o: Heap, lists: seq<seq<Addr>>, start: Addr, end: Addr, size: nat, lo: Addr)
    requires Inv(o, lists, start, end, size, lo, lo)
    ensures Inv(o, lists, start, end, size, 0, 0)
  {
    MoveLoose(o, lists, start, end, size, lo, 0);
  }

  lemma Remaining(n: nat, k: nat)
    requires k > 0
    ensures Bytes(n, k) == n * k == n + Bytes(n, k - 1) && Bytes(n, 0) == 0
  {
  }

  /** The next object of the chunk is linked to the end of the list. */
  lemma LinkNext(o: Heap, lists: seq<seq<Addr>>, start: Addr, end: Addr, size: nat, lo: Addr, hi: Addr,
                 link: map<Addr, Addr>, heads: seq<Addr>, n: nat, tail: Addr)
    requires Inv(o, lists, start, end, size, lo, hi) && SizeOk(n) && lo + n <= hi
      && ChainedTo(link, heads, lists, FreelistIndex(n), lo)
    ensures
      var k0 := FreelistIndex(n);
      && k0 < |lists| == NFREELISTS
      && Inv(Paint(o, lo, n, Free(lo, n)), lists[k0 := lists[k0] + [lo]], start, end, size, lo + n, hi)
      && ChainedTo(link[lo := tail], heads, lists[k0 := lists[k0] + [lo]], k0, tail)
    ensures SameLive(o, Paint(o, lo, n, Free(lo, n)))
  {
    hide Inv, ChainedTo, SameLive, FreelistIndex, Paint;
    IndexOf(n);
    Chop(o, lists, start, end, size, lo, hi, n);
    AppendChained(link, heads, lists, FreelistIndex(n), lo, tail);
  }

  /** The empty list gets a new head, to which the chain does not lead yet. */
  lemma StartChain(link: map<Addr, Addr>, heads: seq<Addr>, lists: seq<seq<Addr>>, k0: nat, next: Addr)
    requires Chained(link, heads, lists) && k0 < NFREELISTS && lists[k0] == []
    ensures ChainedTo(link, heads[k0 := next], lists, k0, next)
  {
    var heads' := heads[k0 := next];
    forall k | 0 <= k < NFREELISTS ensures Chain(link, heads'[k], lists[k], if k == k0 then next else 0) {
      assert Chain(link, heads[k], lists[k], 0);
    }
  }

  lemma AppendChained(link: map<Addr, Addr>, heads: seq<Addr>, lists: seq<seq<Addr>>, k0: nat, current: Addr,
                      tail: Addr)
    requires ChainedTo(link, heads, lists, k0, current) && k0 < NFREELISTS && current > 0
    requires forall k :: 0 <= k < NFREELISTS ==> current !in lists[k]
    ensures ChainedTo(link[current := tail], heads, lists[k0 := lists[k0] + [current]], k0, tail)
  {
    var link', lists' := link[current := tail], lists[k0 := lists[k0] + [current]];
    forall k | 0 <= k < NFREELISTS ensures Chain(link', heads[k], lists'[k], if k == k0 then tail else 0) {
      assert Chain(link, heads[k], lists[k], if k == k0 then current else 0);
      if k == k0 {
        ChainAppend(link, heads[k], lists[k], current, tail);
      } else {
        ChainFrame(link, link', heads[k], lists[k], 0);
      }
    }
  }

  lemma AnyTail(link: map<Addr, Addr>, heads: seq<Addr>, lists: seq<seq<Addr>>, k0: nat)
    requires ChainedTo(link, heads, lists, k0, 0)
    ensures Chained(link, heads, lists)
  {
    forall k | 0 <= k < NFREELISTS ensures Chain(link, heads[k], lists[k], 0) {
      assert Chain(link, heads[k], lists[k], if k == k0 then 0 else 0);
    }
  }

  lemma ClientChained(o: Heap, link: map<Addr, Addr>, heads: seq<Addr>, lists: seq<seq<Addr>>, p: Addr, x: Addr)
    requires Listed(o, lists) && Chained(link, heads, lists) && p in o && o[p].Live?
    ensures Chained(link[p := x], heads, lists)
  {
    forall k | 0 <= k < NFREELISTS ensures Chain(link[p := x], heads[k], lists[k], 0) {
      assert Chain(link, heads[k], lists[k], 0);
      ChainFrame(link, link[p := x], heads[k], lists[k], 0);
    }
  }

  lemma SameLiveRefl(o: Heap)
    ensures SameLive(o, o)
  {
  }

  lemma NoGrant(o: Heap, n: nat)
    ensures Grant(o, 0, n)
  {
  }

  lemma InvAligned(o: Heap, lists: seq<seq<Addr>>, start: Addr, end: Addr, size: nat)
    requires Inv(o, lists, start, end, size, 0, 0)
    ensures start % ALIGN == 0 && end % ALIGN == 0
  {
  }

  lemma ChainedSize(link: map<Addr, Addr>, heads: seq<Addr>, lists: seq<seq<Addr>>)
    requires Chained(link, heads, lists)
    ensures |heads| == |lists| == NFREELISTS
  {
  }

  lemma Times(size: nat, n: nat)
    requires n > 0
    ensures size * n >= size
  {
  }

  lemma BytesAligned(total: nat, heapSize: nat)
    requires total % ALIGN == 0
    ensures BytesToGet(total, heapSize) % ALIGN == 0 && BytesToGet(total, heapSize) >= 2 * total
  {
    hide RoundUp;
    SumAligned(total, RoundUp(heapSize / 16));
  }

  lemma SumAligned(a: nat, b: nat)
    requires a % ALIGN == 0 && b % ALIGN == 0
    ensures (2 * a + b) % ALIGN == 0
  {
    assert 2 * a + b == ALIGN * (2 * (a / ALIGN) + b / ALIGN);
  }

  /** What was granted outside of the heap is still outside when no bytes were added. */
  lemma GrantLater(o: Heap, o': Heap, m: Addr, n: nat)
    requires Grant(o, m, n) && o.Keys == o'.Keys
    ensures Grant(o', m, n)
  {
  }

  lemma SearchDone(lists: seq<seq<Addr>>, l1: seq<seq<Addr>>, size: nat, left: int)
    requires |lists| == |l1| == NFREELISTS && SizeOk(size) && left < size
    requires forall k :: FreelistIndex(size) <= k < NFREELISTS ==> l1[k] == lists[k]
    ensures Starved(lists, left, size) <==> forall k :: FreelistIndex(size) <= k < NFREELISTS ==> l1[k] == []
  {
    IndexOf(size);
  }
}
