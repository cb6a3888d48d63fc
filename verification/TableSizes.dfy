/** How a table chooses the size of its array part: integer keys are counted in slices
    between powers of two, and the largest size is taken that is more than half used. */
module TableSizes {
  import opened TableNodes

  const MAXABITS: nat := 31
  const MAXHBITS: nat := 30

  // ---------- logarithms ----------

  function BitLength(x: nat): nat {
    if x == 0 then 0 else 1 + BitLength(x / 2)
  }

  lemma {:induction false} BitLengthRange(x: nat, n: nat)
    requires if n == 0 then x == 0 else Pow2(n - 1) <= x < Pow2(n)
    ensures BitLength(x) == n
    decreases n
  {
    if n == 1 {
      assert Pow2(0) == 1 && Pow2(1) == 2 && x == 1;
      assert BitLength(0) == 0;
    } else if n > 1 {
      assert Pow2(n) == 2 * Pow2(n - 1) && Pow2(n - 1) == 2 * Pow2(n - 2);
      BitLengthRange(x / 2, n - 1);
    }
  }

  lemma {:induction false} BitLengthBounds(x: nat)
    ensures x < Pow2(BitLength(x))
    ensures x > 0 ==> BitLength(x) > 0 && Pow2(BitLength(x) - 1) <= x
    decreases x
  {
    if x > 0 {
      BitLengthBounds(x / 2);
    }
  }

  lemma BitLengthByte(x: nat)
    requires x >= 256
    ensures BitLength(x) == 8 + BitLength(x / 256)
  {
    var a, b, c := x / 2, x / 4, x / 8;
    var d, e, f := x / 16, x / 32, x / 64;
    assert a / 2 == b && b / 2 == c && c / 2 == d && d / 2 == e && e / 2 == f && f / 2 == x / 128
      && (x / 128) / 2 == x / 256;
    assert BitLength(x) == 1 + BitLength(a) == 2 + BitLength(b) == 3 + BitLength(c) == 4 + BitLength(d);
    assert BitLength(d) == 1 + BitLength(e) == 2 + BitLength(f) == 3 + BitLength(x / 128);
  }

  lemma {:induction false} Pow2Monotone(i: nat, j: nat)
    requires i <= j
    ensures Pow2(i) <= Pow2(j)
    decreases j
  {
    if i < j {
      Pow2Monotone(i, j - 1);
    }
  }

  /** The table of the logarithms of the bytes. */
  function LogTable(x: nat): nat
    requires x < 256
  {
    if x < 1 then 0 else if x < 2 then 1 else if x < 4 then 2 else if x < 8 then 3 else if x < 16 then 4
    else if x < 32 then 5 else if x < 64 then 6 else if x < 128 then 7 else 8
  }

  lemma LogTableBits(x: nat)
    requires x < 256
    ensures LogTable(x) == BitLength(x)
  {
    assert Pow2(0) == 1 && Pow2(1) == 2 && Pow2(2) == 4 && Pow2(3) == 8 && Pow2(4) == 16;
    assert Pow2(5) == 32 && Pow2(6) == 64 && Pow2(7) == 128 && Pow2(8) == 256;
    BitLengthRange(x, LogTable(x));
  }

  /** The least power of two that is not below `x`. */
  method CeilLog2(x: nat) returns (l: nat)
    requires x > 0
    ensures x <= Pow2(l) && (l > 0 ==> Pow2(l - 1) < x)
  {
    var y: nat := x - 1;
    l := 0;
    while y >= 256
      invariant BitLength(x - 1) == l + BitLength(y)
    {
      BitLengthByte(y);
      l := l + 8;
      y := y / 256;
    }
    LogTableBits(y);
    BitLengthBounds(x - 1);
    l := l + LogTable(y);
  }

  // ---------- slices ----------

  /** Slice 0 is the key 1, slice `n` the keys above 2^(n-1) up to 2^n. */
  predicate InSlice(k: int, n: nat) {
    if n == 0 then k == 1 else Pow2(n - 1) < k <= Pow2(n)
  }

  ghost function Slice(S: set<int>, n: nat): set<int> {
    set k | k in S && InSlice(k, n)
  }

  ghost function UpTo(S: set<int>, n: int): set<int> {
    set k | k in S && k <= n
  }

  /** `nums` counts the keys of `S` in every slice. */
  ghost predicate Counts(nums: seq<nat>, S: set<int>) {
    |nums| == MAXABITS + 1 && forall n :: 0 <= n <= MAXABITS ==> nums[n] == |Slice(S, n)|
  }

  /** Keys that can live in an array part. */
  ghost predicate ArrayKeys(S: set<int>) {
    forall k :: k in S ==> 1 <= k <= Pow2(MAXABITS)
  }

  lemma SliceUnique(k: int, m: nat, n: nat)
    requires InSlice(k, m) && InSlice(k, n)
    ensures m == n
  {
    if m < n {
      Pow2Monotone(m, n - 1);
    } else if n < m {
      Pow2Monotone(n, m - 1);
    }
  }

  /** One more key. */
  lemma CountsAdd(nums: seq<nat>, S: set<int>, k: int, n: nat)
    requires Counts(nums, S) && k !in S && InSlice(k, n) && n <= MAXABITS
    ensures Counts(nums[n := nums[n] + 1], S + {k})
  {
    forall m | 0 <= m <= MAXABITS ensures nums[n := nums[n] + 1][m] == |Slice(S + {k}, m)| {
      if m == n {
        assert Slice(S + {k}, m) == Slice(S, m) + {k};
      } else {
        if InSlice(k, m) {
          SliceUnique(k, m, n);
        }
        assert Slice(S + {k}, m) == Slice(S, m);
      }
    }
  }

  lemma UpToNext(S: set<int>, n: nat)
    requires ArrayKeys(S)
    ensures n == 0 ==> |UpTo(S, Pow2(0))| == |Slice(S, 0)|
    ensures n > 0 ==> |UpTo(S, Pow2(n))| == |UpTo(S, Pow2(n - 1))| + |Slice(S, n)|
  {
    if n == 0 {
      assert UpTo(S, Pow2(0)) == Slice(S, 0);
    } else {
      assert UpTo(S, Pow2(n)) == UpTo(S, Pow2(n - 1)) + Slice(S, n);
      assert UpTo(S, Pow2(n - 1)) !! Slice(S, n);
    }
  }

  /** There are at most `n` keys from 1 to `n`. */
  lemma {:induction false} AtMost(S: set<int>, n: nat)
    requires ArrayKeys(S)
    ensures |UpTo(S, n)| <= n
    decreases n
  {
    if n == 0 {
      assert UpTo(S, 0) == {};
    } else {
      AtMost(S, n - 1);
      UpToStep(S, n);
    }
  }

  lemma UpToStep(S: set<int>, n: int)
    ensures |UpTo(S, n)| <= |UpTo(S, n - 1)| + 1
  {
    if n in S {
      assert UpTo(S, n) == UpTo(S, n - 1) + {n};
    } else {
      assert UpTo(S, n) == UpTo(S, n - 1);
    }
  }

  lemma UpToSize(S: set<int>, n: int)
    ensures |UpTo(S, n)| <= |S|
  {
    assert S == UpTo(S, n) + (S - UpTo(S, n));
  }

  /** `n` is used more than half by the keys up to it. */
  ghost predicate MoreThanHalf(S: set<int>, n: nat) {
    |UpTo(S, n)| > n / 2
  }

  /** `n` is 0 or the largest power of two that is more than half used. */
  ghost predicate Optimal(S: set<int>, n: nat) {
    && (n == 0 || (MoreThanHalf(S, n) && exists j: nat :: n == Pow2(j)))
    && forall j: nat :: MoreThanHalf(S, Pow2(j)) ==> Pow2(j) <= n
  }

  /** Sizes at least twice as large as the number of keys are not more than half used. */
  lemma TooLarge(S: set<int>, i: nat, j: nat)
    requires |S| <= Pow2(i) / 2 && i <= j
    ensures !MoreThanHalf(S, Pow2(j))
  {
    Pow2Monotone(i, j);
    UpToSize(S, Pow2(j));
  }

  lemma HalfGrows(i: nat, n: nat)
    ensures i > n ==> Pow2(i) / 2 >= Pow2(n)
    ensures i <= n ==> Pow2(i) <= Pow2(n)
  {
    if i > n {
      Pow2Monotone(n, i - 1);
      assert Pow2(i) == 2 * Pow2(i - 1);
    } else {
      Pow2Monotone(i, n);
    }
  }

  /** While more keys than half of 2^i are left, the size is in range. */
  lemma InRange(S: set<int>, pna: nat, i: nat)
    requires pna == |S| < Pow2(MAXHBITS) && pna > Pow2(i) / 2
    ensures i <= MAXHBITS && Pow2(i) <= Pow2(MAXHBITS)
  {
    HalfGrows(i, MAXHBITS);
  }

  /** A size whose last slice is empty is not more than half used. */
  lemma EmptySlice(S: set<int>, i: nat)
    requires ArrayKeys(S) && |Slice(S, i)| == 0
    ensures !MoreThanHalf(S, Pow2(i))
  {
    UpToNext(S, i);
    if i > 0 {
      AtMost(S, Pow2(i - 1));
    }
  }

  /** The best size below 2^i. */
  ghost predicate BestBelow(S: set<int>, i: nat, optimal: nat) {
    && (optimal == 0 || (MoreThanHalf(S, optimal) && exists j: nat :: optimal == Pow2(j)))
    && forall j: nat :: j < i && MoreThanHalf(S, Pow2(j)) ==> Pow2(j) <= optimal
  }

  lemma BestNext(S: set<int>, i: nat, optimal: nat)
    requires BestBelow(S, i, optimal)
    ensures MoreThanHalf(S, Pow2(i)) ==> BestBelow(S, i + 1, Pow2(i))
    ensures !MoreThanHalf(S, Pow2(i)) ==> BestBelow(S, i + 1, optimal)
  {
    forall j: nat | j < i ensures Pow2(j) <= Pow2(i) {
      Pow2Monotone(j, i);
    }
  }

  lemma BestIsOptimal(S: set<int>, i: nat, optimal: nat)
    requires BestBelow(S, i, optimal) && |S| <= Pow2(i) / 2
    ensures Optimal(S, optimal)
  {
    forall j: nat | j >= i ensures !MoreThanHalf(S, Pow2(j)) {
      TooLarge(S, i, j);
    }
  }

  /** The optimal size of the array part, and the number of keys that go to it. The
      number of integer keys is less than 2^30, so the size does not overflow. */
  method ComputeSizes(nums: seq<nat>, pna: nat, ghost S: set<int>) returns (optimal: nat, na: nat)
    requires Counts(nums, S) && ArrayKeys(S) && pna == |S| < Pow2(MAXHBITS)
    ensures Optimal(S, optimal) && na == |UpTo(S, optimal)| && na <= optimal <= Pow2(MAXHBITS)
    ensures optimal == 0 || optimal / 2 < na
  {
    hide Pow2, BestBelow, Optimal, ArrayKeys, InSlice, Slice, UpTo;
    var i, twotoi, a := 0, 1, 0;
    na, optimal := 0, 0;
    BestStart(S);
    while pna > twotoi / 2
      invariant 0 <= i && twotoi == Pow2(i) && a >= 0
      invariant a == if i == 0 then 0 else |UpTo(S, Pow2(i - 1))|
      invariant BestBelow(S, i, optimal) && na == |UpTo(S, optimal)| && 0 <= optimal <= Pow2(MAXHBITS)
      decreases MAXABITS - i
    {
      InRange(S, pna, i);
      UpToNext(S, i);
      BestNext(S, i, optimal);
      Double(i);
      if nums[i] > 0 {
        a := a + nums[i];
        if a > twotoi / 2 {
          optimal := twotoi;
          na := a;
        }
      } else {
        EmptySlice(S, i);
      }
      i, twotoi := i + 1, twotoi * 2;
    }
    BestIsOptimal(S, i, optimal);
    AtMost(S, optimal);
    OptimalHalf(S, optimal);
  }

  lemma BestStart(S: set<int>)
    requires ArrayKeys(S)
    ensures BestBelow(S, 0, 0) && |UpTo(S, 0)| == 0 && Pow2(0) == 1
  {
    AtMost(S, 0);
  }

  lemma Double(i: nat)
    ensures Pow2(i + 1) == 2 * Pow2(i)
  {
  }

  lemma OptimalHalf(S: set<int>, n: nat)
    requires Optimal(S, n)
    ensures n == 0 || n / 2 < |UpTo(S, n)|
  {
  }
}
