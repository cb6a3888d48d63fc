/** Where the pool allocator gets the memory for a block from. */
module PoolSupply {
  import opened Options
  import opened PoolMemory

  const NOBJS: nat := 20

  /** The free lists, the pool from `start` to `end`, and all memory got from the system. */
  datatype Arena = Arena(lists: seq<seq<Addr>>, start: Addr, end: Addr, heap: nat)

  /** Twice what is needed, and one sixteenth of what there is. */
  function BytesToGet(total: nat, heapSize: nat): (r: nat)
    ensures 2 * total + heapSize / 16 <= r < 2 * total + heapSize / 16 + 8
  {
    2 * total + RoundUp(heapSize / 16)
  }

  /** The first list from `k` on that is not empty. */
  function FirstFree(lists: seq<seq<Addr>>, k: nat): (r: Option<nat>)
    ensures r.Some? ==>
      k <= r.value < |lists| && lists[r.value] != [] && forall j :: k <= j < r.value ==> lists[j] == []
    ensures r.None? ==> forall j :: k <= j < |lists| ==> lists[j] == []
    decreases |lists| - k
  {
    if k >= |lists| then None else if lists[k] != [] then Some(k) else FirstFree(lists, k + 1)
  }

  lemma IsFirstFree(lists: seq<seq<Addr>>, k: nat, j: nat)
    requires k <= j < |lists| && lists[j] != [] && forall i :: k <= i < j ==> lists[i] == []
    ensures FirstFree(lists, k) == Some(j)
  {
  }

  /** The lists with what is left of the pool, which is smaller than a block. */
  function Saved(a: Arena): seq<seq<Addr>> {
    var k := (a.end - a.start) / 8 - 1;
    if 0 <= k < |a.lists| then a.lists[k := [a.start] + a.lists[k]] else a.lists
  }

  /** The pool that has room for a block: the present one, or a new region from `malloc`,
      or the smallest free block that is large enough, or a region from the second attempt. */
  function Supplied(a: Arena, size: nat, total: nat, m1: Addr, m2: Addr): Option<Arena>
    requires SizeOk(size)
  {
    if a.start + size <= a.end then Some(a)
    else
      var lists, bytes := Saved(a), BytesToGet(total, a.heap);
      if m1 != 0 then Some(Arena(lists, m1, m1 + bytes, a.heap + bytes))
      else
        match FirstFree(lists, size / 8 - 1)
        case Some(k) =>
          var b := lists[k][0];
          Some(Arena(lists[k := lists[k][1..]], b, b + 8 * (k + 1), a.heap))
        case None => if m2 != 0 then Some(Arena(lists, m2, m2 + bytes, a.heap + bytes)) else None
  }

  /** A pool that has room stays. */
  lemma SuppliedAgain(a: Arena, size: nat, total: nat, m1: Addr, m2: Addr)
    requires SizeOk(size) && a.start + size <= a.end
    ensures Supplied(a, size, total, m1, m2) == Some(a)
  {
  }

  /** How many objects of a size are cut off the pool when `n` are wanted. */
  function Fit(left: nat, size: nat, n: nat): nat
    requires size > 0
  {
    if left >= size * n then n else left / size
  }

  /** They are the most that fit. */
  lemma FitsMost(left: nat, size: nat, n: nat)
    requires size > 0
    ensures
      var k := Fit(left, size, n);
      k <= n && size * k <= left && (k == n || left < size * k + size)
  {
    if left < size * n {
      assert left == size * (left / size) + left % size;
      Fewer(left, size, left / size, n);
    }
  }

  lemma Fewer(left: nat, size: nat, k: nat, n: nat)
    requires size * k <= left < size * n
    ensures k < n
  {
  }

  /** The bytes of `k` objects. */
  ghost function Bytes(n: nat, k: nat): nat {
    n * k
  }

  /** The addresses of `c` objects in a row. */
  ghost function Row(a: Addr, s: nat, c: nat): (r: seq<Addr>)
    ensures |r| == c
  {
    seq(c, i requires 0 <= i < c => a + Bytes(s, i))
  }

  lemma NoRow(a: Addr, s: nat)
    ensures Row(a, s, 0) == []
  {
  }

  lemma RowNext(a: Addr, s: nat, c: nat)
    ensures Row(a, s, c + 1) == Row(a, s, c) + [a + Bytes(s, c)]
  {
  }

  /** One object is for the client, at most 19 more are put into the empty list of the size. */
  ghost function Dealt(a: Arena, size: nat): Arena
    requires size > 0 && a.start <= a.end
  {
    var k, n := size / 8 - 1, Fit(a.end - a.start, size, NOBJS);
    if 0 <= k < |a.lists| && n > 0 then
      Arena(a.lists[k := Row(a.start + size, size, n - 1)], a.start + size * n, a.end, a.heap)
    else a
  }
}
