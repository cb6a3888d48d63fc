/** The table of interned short strings, with its resizing in place. */
module StringTable {
  type Byte = x: int | 0 <= x < 256

  type Ref = nat

  const MINSTRTABSIZE: nat := 128
  const MAX_INT: nat := 0x7FFFFFFF

  datatype TString = TString(hash: bv32, content: seq<Byte>, hnext: Ref, dead: bool)

  type Strings = map<Ref, TString>

  // ---------- the hash ----------

  /** One step of the hash, for the byte `c`. */
  function Mix(h: bv32, c: Byte): bv32 {
    h ^ ((h << 5) + (h >> 2) + (c as bv32))
  }

  function HashFrom(h: bv32, s: seq<Byte>, l: nat, step: nat): bv32
    requires l <= |s| && step > 0
    decreases l
  {
    if l < step then h else HashFrom(Mix(h, s[l - 1]), s, l - step, step)
  }

  function Hash(s: seq<Byte>, seed: bv32): bv32 {
    HashFrom(seed ^ ((|s| % 0x1_0000_0000) as bv32), s, |s|, |s| / 32 + 1)
  }

  /** The bytes of `b` are those of `s` below `l`, from the last one down, `step` apart. */
  ghost predicate Samples(s: seq<Byte>, l: nat, step: nat, b: seq<Byte>)
    requires l <= |s|
  {
    && |b| * step <= l < |b| * step + step
    && forall i :: 0 <= i < |b| ==> 0 <= i * step < l && b[i] == s[l - 1 - i * step]
  }

  /** Fewer than 32 bytes of the string, the last one first. */
  function Sampled(s: seq<Byte>): (b: seq<Byte>)
    ensures |b| < 32
  {
    var n, step := |s|, |s| / 32 + 1;
    FewSamples(n);
    seq(n / step, i requires 0 <= i < n / step => Within(n, step, i); s[n - 1 - i * step])
  }

  lemma SampledSamples(s: seq<Byte>)
    ensures Samples(s, |s|, |s| / 32 + 1, Sampled(s))
  {
    var n, step, b := |s|, |s| / 32 + 1, Sampled(s);
    forall i | 0 <= i < |b|
      ensures 0 <= i * step < n && b[i] == s[n - 1 - i * step]
    {
      Within(n, step, i);
    }
  }

  lemma FewSamples(n: nat)
    ensures n / (n / 32 + 1) < 32
  {
    var k := n / 32 + 1;
    Below(n, k, n / k);
  }

  lemma Below(n: nat, k: nat, q: nat)
    requires n < 32 * k && q * k <= n
    ensures q < 32
  {
    assert (32 - q) * k > 0;
  }

  lemma Within(l: nat, step: nat, i: nat)
    requires step > 0 && i < l / step
    ensures 0 <= i * step < l
  {
    assert i + 1 <= l / step;
    assert (i + 1) * step <= l / step * step <= l;
    assert (i + 1) * step == i * step + step;
  }

  /** A step of the hash in unsigned arithmetic of 32 bits. */
  function Stirred(h: bv32, c: Byte): bv32 {
    h ^ (h * 32 + h / 4 + (c as bv32))
  }

  function Folded(h: bv32, b: seq<Byte>): bv32
    decreases b
  {
    if b == [] then h else Folded(Stirred(h, b[0]), b[1..])
  }

  lemma Shifts(h: bv32)
    ensures h << 5 == h * 32 && h >> 2 == h / 4
  {
  }

  lemma MixStirs(h: bv32, c: Byte)
    ensures Mix(h, c) == Stirred(h, c)
  {
    Shifts(h);
  }

  lemma NextSamples(s: seq<Byte>, l: nat, step: nat, b: seq<Byte>)
    requires 0 < step <= l <= |s| && b != [] && Samples(s, l, step, b)
    ensures b[0] == s[l - 1] && Samples(s, l - step, step, b[1..])
  {
    assert 0 * step == 0 && (|b| - 1) * step == |b| * step - step;
    forall i | 0 <= i < |b| - 1
      ensures 0 <= i * step < l - step && b[1..][i] == s[l - step - 1 - i * step]
    {
      assert b[1..][i] == b[i + 1] && (i + 1) * step == i * step + step;
    }
  }

  lemma SomeSample(l: nat, step: nat, n: nat)
    requires n * step <= l < n * step + step
    ensures l >= step <==> n > 0
  {
    if n > 0 {
      assert n * step >= step;
    }
  }

  lemma {:induction false} FoldSamples(h: bv32, s: seq<Byte>, l: nat, step: nat, b: seq<Byte>)
    requires l <= |s| && step > 0 && Samples(s, l, step, b)
    ensures HashFrom(h, s, l, step) == Folded(h, b)
    decreases l
  {
    SomeSample(l, step, |b|);
    hide Mix, Stirred, Samples;
    if l >= step {
      NextSamples(s, l, step, b);
      MixStirs(h, s[l - 1]);
      FoldSamples(Mix(h, s[l - 1]), s, l - step, step, b[1..]);
    }
  }

  /** The hash depends on the seed, the length and the sampled bytes only. */
  lemma HashSamples(s: seq<Byte>, seed: bv32)
    ensures Hash(s, seed) == Folded(seed ^ ((|s| % 0x1_0000_0000) as bv32), Sampled(s))
  {
    hide HashFrom, Folded, Sampled, Samples;
    SampledSamples(s);
    FoldSamples(seed ^ ((|s| % 0x1_0000_0000) as bv32), s, |s|, |s| / 32 + 1, Sampled(s));
  }

  /** The hashes of three strings. */
  lemma HashVectors(seed: bv32)
    ensures Hash([], seed) == seed
    ensures Hash([97], 0) == 128
    ensures Hash([97, 98], 0) == 5161
  {
    assert HashFrom(2, [97, 98], 2, 1) == HashFrom(160, [97, 98], 1, 1);
  }

  method LuaHash(s: seq<Byte>, seed: bv32) returns (h: bv32)
    ensures h == Hash(s, seed)
  {
    h := seed ^ ((|s| % 0x1_0000_0000) as bv32);
    var l, step := |s|, |s| / 32 + 1;
    while l >= step
      invariant 0 <= l <= |s| && HashFrom(h, s, l, step) == Hash(s, seed)
      decreases l
    {
      h := Mix(h, s[l - 1]);
      l := l - step;
    }
  }

  // ---------- sizes ----------

  predicate IsPower2(n: nat) {
    n == 1 || (n > 1 && n % 2 == 0 && IsPower2(n / 2))
  }

  /** Of two powers of two the smaller one divides the larger one. */
  lemma {:induction false} PowerDivides(a: nat, b: nat)
    requires IsPower2(a) && IsPower2(b) && a <= b
    ensures a > 0 && b % a == 0
    decreases b
  {
    if a > 1 {
      PowerDivides(a / 2, b / 2);
      var k := b / 2 / (a / 2);
      Product(b / 2, a / 2);
      assert b == a * k;
      ProductMod(a, k);
    }
  }

  lemma Product(b: nat, a: nat)
    requires a > 0 && b % a == 0
    ensures b == a * (b / a)
  {
  }

  lemma ProductMod(a: nat, k: nat)
    requires a > 0
    ensures (a * k) % a == 0
  {
    Shift(a, k, 0);
  }

  /** Quotient and remainder are unique. */
  lemma Unique(a: nat, q: nat, r: nat, q': nat, r': nat)
    requires a > 0 && r < a && r' < a && a * q + r == a * q' + r'
    ensures q == q' && r == r'
  {
    if q < q' {
      StepsApart(a, q, q');
    } else if q' < q {
      StepsApart(a, q', q);
    }
  }

  lemma StepsApart(a: nat, q: nat, q': nat)
    requires q < q'
    ensures a * q' >= a * q + a
  {
    var k := q' - q - 1;
    Distribute(a, q, k + 1);
    Distribute(a, k, 1);
  }

  /** A remainder can be taken in two steps. */
  lemma TwoSteps(h: nat, small: nat, large: nat)
    requires small > 0 && large > 0 && large % small == 0
    ensures (h % large) % small == h % small
  {
    var k, q, r := large / small, h / large, h % large;
    assert large == small * k;
    assert h == large * q + r == small * (k * q) + r by {
      assert large * q == small * k * q == small * (k * q);
    }
    Shift(small, k * q, r);
  }

  lemma Shift(a: nat, k: nat, r: nat)
    requires a > 0
    ensures (a * k + r) % a == r % a
  {
    var x := a * k + r;
    var p, m, q, n := r / a, r % a, x / a, x % a;
    Division(r, a);
    Division(x, a);
    Distribute(a, k, p);
    Unique(a, k + p, m, q, n);
  }

  lemma Division(x: nat, a: nat)
    requires a > 0
    ensures x == a * (x / a) + x % a && x % a < a
  {
  }

  lemma Distribute(a: nat, k: nat, p: nat)
    ensures a * (k + p) == a * k + a * p
  {
  }

  // ---------- chains ----------

  ghost predicate Chain(m: Strings, head: Ref, l: seq<Ref>)
    decreases |l|
  {
    if l == [] then head == 0
    else head == l[0] && head != 0 && head in m && Chain(m, m[head].hnext, l[1..])
  }

  ghost predicate Distinct(l: seq<Ref>) {
    forall i, j :: 0 <= i < j < |l| ==> l[i] != l[j]
  }

  /** Other strings and the other fields of strings do not matter for a chain. */
  lemma {:induction false} ChainFrame(m: Strings, m': Strings, head: Ref, l: seq<Ref>)
    requires Chain(m, head, l) && forall r :: r in l && r in m ==> r in m' && m'[r].hnext == m[r].hnext
    ensures Chain(m', head, l)
    decreases |l|
  {
    if l != [] {
      assert forall r :: r in l[1..] ==> r in l;
      ChainFrame(m, m', m[head].hnext, l[1..]);
    }
  }

  ghost predicate Chained(m: Strings, heads: seq<Ref>, lists: seq<seq<Ref>>) {
    |heads| == |lists| && forall b :: 0 <= b < |lists| ==> Chain(m, heads[b], lists[b]) && Distinct(lists[b])
  }

  ghost predicate Held(lists: seq<seq<Ref>>, r: Ref) {
    exists b :: 0 <= b < |lists| && r in lists[b]
  }

  /** The bucket of a string for a table of size `n`. */
  function Bucket(m: Strings, r: Ref, n: nat): nat
    requires r in m && n > 0
  {
    (m[r].hash as nat) % n
  }

  /** A string is put in front of a list. */
  lemma PushChained(m: Strings, heads: seq<Ref>, lists: seq<seq<Ref>>, p: Ref, b: nat)
    requires Chained(m, heads, lists) && b < |lists| && p in m && p != 0 && !Held(lists, p)
    ensures Chained(m[p := m[p].(hnext := heads[b])], heads[b := p], lists[b := [p] + lists[b]])
  {
    var m', heads', lists' := m[p := m[p].(hnext := heads[b])], heads[b := p], lists[b := [p] + lists[b]];
    forall c | 0 <= c < |lists| ensures Chain(m', heads'[c], lists'[c]) && Distinct(lists'[c]) {
      assert Chain(m, heads[c], lists[c]) && p !in lists[c];
      ChainFrame(m, m', heads[c], lists[c]);
      assert ([p] + lists[b])[1..] == lists[b];
    }
  }

  // ---------- resizing ----------

  /** Bucket `b` has its strings already, or still, when bucket `i` is being rehashed. */
  function Modulus(b: int, i: int, osize: nat, nsize: nat): nat {
    if i < b < osize then osize else nsize
  }

  ghost predicate PlacedAt(m: Strings, lists: seq<seq<Ref>>, b: int, i: int, osize: nat, nsize: nat)
    requires 0 <= b < |lists| && osize > 0 && nsize > 0
  {
    forall r :: r in lists[b] ==> r in m && Bucket(m, r, Modulus(b, i, osize, nsize)) == b
  }

  /** Every list has the strings of its bucket. */
  ghost predicate Placed(m: Strings, lists: seq<seq<Ref>>, i: int, osize: nat, nsize: nat) {
    osize > 0 && nsize > 0 && forall b :: 0 <= b < |lists| ==> PlacedAt(m, lists, b, i, osize, nsize)
  }

  ghost predicate Rest(m: Strings, lists: seq<seq<Ref>>, rest: seq<Ref>, i: int, osize: nat) {
    osize > 0 && Distinct(rest) && forall r :: r in rest ==> r in m && Bucket(m, r, osize) == i && !Held(lists, r)
  }

  /** No string is in two lists. */
  ghost predicate Apart(lists: seq<seq<Ref>>) {
    forall b, c, r {:trigger r in lists[b], r in lists[c]} ::
      0 <= b < |lists| && 0 <= c < |lists| && r in lists[b] && r in lists[c] ==> b == c
  }

  ghost predicate Stored(lists: seq<seq<Ref>>, rest: seq<Ref>, stored: set<Ref>) {
    forall r :: r in stored <==> r in rest || Held(lists, r)
  }

  /** The nsize bucket of a string is not one that has still to be rehashed. */
  lemma NotAhead(h: nat, i: nat, osize: nat, nsize: nat)
    requires osize > 0 && nsize > 0 && (nsize % osize == 0 || osize % nsize == 0) && h % osize == i
    ensures !(i < h % nsize < osize) && h % nsize < nsize
  {
    if nsize % osize == 0 {
      TwoSteps(h, osize, nsize);
      SmallMod(h % nsize, osize);
    } else {
      TwoSteps(h, nsize, osize);
      ModLess(i, nsize);
    }
  }

  lemma SmallMod(x: nat, a: nat)
    requires a > 0
    ensures x < a ==> x % a == x
  {
  }

  lemma ModLess(x: nat, a: nat)
    requires a > 0
    ensures x % a <= x
  {
  }

  lemma HeldUpdate(lists: seq<seq<Ref>>, b: nat, l: seq<Ref>, r: Ref)
    requires b < |lists|
    ensures Held(lists[b := l], r) ==> r in l || Held(lists, r)
    ensures r in l ==> Held(lists[b := l], r)
    ensures Held(lists, r) && (r in lists[b] ==> r in l) ==> Held(lists[b := l], r)
    ensures (forall q :: q in l ==> q in lists[b]) && Held(lists[b := l], r) ==> Held(lists, r)
  {
    var lists' := lists[b := l];
    if Held(lists', r) {
      var c :| 0 <= c < |lists'| && r in lists'[c];
      assert c != b ==> r in lists[c];
    }
    assert lists'[b] == l;
    if Held(lists, r) {
      var c :| 0 <= c < |lists| && r in lists[c];
      assert c != b ==> lists'[c] == lists[c];
    }
  }

  /** The first string of the rest goes to its nsize bucket. */
  lemma MoveString(m: Strings, heads: seq<Ref>, lists: seq<seq<Ref>>, rest: seq<Ref>, i: nat, osize: nat, nsize: nat,
                   stored: set<Ref>)
    requires Chained(m, heads, lists) && Placed(m, lists, i, osize, nsize) && Rest(m, lists, rest, i, osize)
      && Stored(lists, rest, stored)
    requires rest != [] && Chain(m, rest[0], rest) && i < osize && (nsize % osize == 0 || osize % nsize == 0)
      && |lists| >= nsize && Apart(lists)
    ensures
      var p := rest[0];
      var h := Bucket(m, p, nsize);
      && h < |lists|
      && var m', heads', lists' := m[p := m[p].(hnext := heads[h])], heads[h := p], lists[h := [p] + lists[h]];
      && Chained(m', heads', lists') && Placed(m', lists', i, osize, nsize) && Rest(m', lists', rest[1..], i, osize)
      && Stored(lists', rest[1..], stored)
      && Chain(m', m[p].hnext, rest[1..]) && Apart(lists')
  {
    var p := rest[0];
    var h := Bucket(m, p, nsize);
    var m', heads', lists' := m[p := m[p].(hnext := heads[h])], heads[h := p], lists[h := [p] + lists[h]];
    var rest' := rest[1..];
    FirstOfRest(m, lists, rest, i, osize);
    MovePlaced(m, lists, p, heads[h], i, osize, nsize);
    PushChained(m, heads, lists, p, h);
    PushApart(lists, h, p);
    hide Chained, Distinct, Placed, Apart, Held;
    assert forall r :: r in rest' ==> Bucket(m', r, osize) == Bucket(m, r, osize);
    ChainFrame(m, m', m[p].hnext, rest');
  }

  /** The first string of the rest, and the others. */
  lemma FirstOfRest(m: Strings, lists: seq<seq<Ref>>, rest: seq<Ref>, i: nat, osize: nat)
    requires Rest(m, lists, rest, i, osize) && rest != []
    ensures rest[0] in m && Bucket(m, rest[0], osize) == i && !Held(lists, rest[0])
    ensures rest[0] !in rest[1..] && Distinct(rest[1..])
    ensures forall r :: r in rest <==> r == rest[0] || r in rest[1..]
  {
    hide Held;
    var p, rest' := rest[0], rest[1..];
    assert p in rest && rest == [p] + rest';
    assert forall j :: 0 <= j < |rest'| ==> rest'[j] == rest[j + 1];
  }

  lemma MovePlaced(m: Strings, lists: seq<seq<Ref>>, p: Ref, next: Ref, i: nat, osize: nat, nsize: nat)
    requires Placed(m, lists, i, osize, nsize) && p in m && Bucket(m, p, osize) == i
    requires i < osize && (nsize % osize == 0 || osize % nsize == 0) && |lists| >= nsize
    ensures
      var h := Bucket(m, p, nsize);
      h < |lists| && Placed(m[p := m[p].(hnext := next)], lists[h := [p] + lists[h]], i, osize, nsize)
  {
    NotAhead(m[p].hash as nat, i, osize, nsize);
    var h := Bucket(m, p, nsize);
    var m', lists' := m[p := m[p].(hnext := next)], lists[h := [p] + lists[h]];
    forall b | 0 <= b < |lists'| ensures PlacedAt(m', lists', b, i, osize, nsize) {
      assert PlacedAt(m, lists, b, i, osize, nsize);
    }
  }

  lemma PushApart(lists: seq<seq<Ref>>, h: nat, p: Ref)
    requires Apart(lists) && !Held(lists, p) && h < |lists|
    ensures Apart(lists[h := [p] + lists[h]])
    ensures forall r :: Held(lists[h := [p] + lists[h]], r) <==> r == p || Held(lists, r)
  {
    forall r ensures Held(lists[h := [p] + lists[h]], r) <==> r == p || Held(lists, r) {
      HeldUpdate(lists, h, [p] + lists[h], r);
    }
  }

  /** The strings of bucket `i` are taken out of the table. */
  lemma TakeBucket(m: Strings, heads: seq<Ref>, lists: seq<seq<Ref>>, i: nat, osize: nat, nsize: nat, stored: set<Ref>)
    requires Chained(m, heads, lists) && Placed(m, lists, i - 1, osize, nsize) && Stored(lists, [], stored)
      && Apart(lists)
    requires i < osize <= |lists|
    ensures
      var heads', lists' := heads[i := 0], lists[i := []];
      && Chained(m, heads', lists') && Placed(m, lists', i, osize, nsize) && Rest(m, lists', lists[i], i, osize)
      && Stored(lists', lists[i], stored) && Apart(lists') && Chain(m, heads[i], lists[i])
  {
    var heads', lists' := heads[i := 0], lists[i := []];
    forall b | 0 <= b < |lists'| ensures PlacedAt(m, lists', b, i, osize, nsize) {
      assert PlacedAt(m, lists, b, i - 1, osize, nsize);
    }
    assert PlacedAt(m, lists, i, i - 1, osize, nsize);
    forall r ensures Held(lists', r) <==> Held(lists, r) && r !in lists[i] {
      HeldUpdate(lists, i, [], r);
    }
    forall r ensures r in lists[i] ==> Held(lists, r) {
    }
  }

  /** After the last bucket all strings are where the new size wants them. */
  lemma AllMoved(m: Strings, heads: seq<Ref>, lists: seq<seq<Ref>>, osize: nat, nsize: nat, stored: set<Ref>)
    requires Chained(m, heads, lists) && Placed(m, lists, osize - 1, osize, nsize) && Stored(lists, [], stored)
      && |lists| >= nsize
    ensures forall b :: nsize <= b < |lists| ==> lists[b] == [] && heads[b] == 0
    ensures Chained(m, heads[..nsize], lists[..nsize]) && Placed(m, lists[..nsize], nsize, nsize, nsize)
      && Stored(lists[..nsize], [], stored)
  {
    forall b | nsize <= b < |lists| ensures lists[b] == [] && heads[b] == 0 {
      assert PlacedAt(m, lists, b, osize - 1, osize, nsize) && Chain(m, heads[b], lists[b]);
      FirstIn(lists[b]);
    }
    var lists' := lists[..nsize];
    forall b | 0 <= b < nsize ensures PlacedAt(m, lists', b, nsize, nsize, nsize) {
      assert PlacedAt(m, lists, b, osize - 1, osize, nsize);
    }
    forall r ensures Held(lists', r) <==> Held(lists, r) {
      if Held(lists, r) {
        var c :| 0 <= c < |lists| && r in lists[c];
        assert c < nsize && r in lists'[c];
      }
      if Held(lists', r) {
        var c :| 0 <= c < |lists'| && r in lists'[c];
        assert r in lists[c];
      }
    }
  }

  lemma FirstIn(l: seq<Ref>)
    ensures l != [] ==> l[0] in l
  {
  }

  /** New empty buckets at the end change nothing. */
  lemma Extended(m: Strings, heads: seq<Ref>, lists: seq<seq<Ref>>, osize: nat, nsize: nat, stored: set<Ref>, n: nat)
    requires Chained(m, heads, lists) && Placed(m, lists, osize, osize, osize) && Stored(lists, [], stored)
      && |lists| == osize && nsize > 0
    ensures
      var heads', lists' := heads + Zeros(n), lists + Empties(n);
      Chained(m, heads', lists') && Placed(m, lists', -1, osize, nsize) && Stored(lists', [], stored) && Apart(lists')
  {
    var heads', lists' := heads + Zeros(n), lists + Empties(n);
    forall b | 0 <= b < |lists'| ensures PlacedAt(m, lists', b, -1, osize, nsize) {
      assert b < osize ==> PlacedAt(m, lists, b, osize, osize, osize);
    }
    forall r ensures Held(lists', r) <==> Held(lists, r) {
      if Held(lists, r) {
        var c :| 0 <= c < |lists| && r in lists[c];
        assert r in lists'[c];
      }
      if Held(lists', r) {
        var c :| 0 <= c < |lists'| && r in lists'[c];
        assert r in lists[c];
      }
    }
    forall b, c, r | 0 <= b < |lists'| && 0 <= c < |lists'| && r in lists'[b] && r in lists'[c] ensures b == c {
      assert PlacedAt(m, lists', b, -1, osize, nsize) && PlacedAt(m, lists', c, -1, osize, nsize);
      assert b < osize && c < osize;
    }
  }

  function Zeros(n: nat): (z: seq<Ref>)
    ensures |z| == n && forall i :: 0 <= i < n ==> z[i] == 0
  {
    seq(n, i => 0)
  }

  ghost function Empties(n: nat): (z: seq<seq<Ref>>)
    ensures |z| == n && forall i :: 0 <= i < n ==> z[i] == []
  {
    seq(n, i => [])
  }

  /** The same strings, apart from their links. */
  ghost predicate SameStrings(m: Strings, m': Strings) {
    m.Keys == m'.Keys && forall r :: r in m ==> m'[r] == m[r].(hnext := m'[r].hnext)
  }

  /** Every stored string has the hash of its content, and no two have the same content. */
  ghost predicate NoTwins(m: Strings, stored: set<Ref>, seed: bv32) {
    && (forall r :: r in stored ==> r in m && m[r].hash == Hash(m[r].content, seed))
    && forall r, q :: r in stored && q in stored && m[r].content == m[q].content ==> r == q
  }

  class Table {
    var size: nat
    var nuse: nat
    var hash: seq<Ref>
    var strs: Strings
    var nextRef: Ref
    var seed: bv32
    ghost var lists: seq<seq<Ref>>
    ghost var stored: set<Ref>

    ghost predicate Linked()
      reads this
    {
      && |hash| == |lists| == size && Chained(strs, hash, lists) && Stored(lists, [], stored)
      && IsPower2(size) && Placed(strs, lists, size, size, size)
    }

    ghost predicate Valid()
      reads this
    {
      Linked() && nuse == |stored| && NoTwins(strs, stored, seed) && nextRef > 0
        && forall r :: r in strs ==> r < nextRef
    }

    constructor (seed: bv32)
      ensures Valid() && stored == {} && size == MINSTRTABSIZE && this.seed == seed
    {
      this.seed := seed;
      size, nuse, nextRef := MINSTRTABSIZE, 0, 1;
      hash, strs := Zeros(MINSTRTABSIZE), map[];
      lists, stored := Empties(MINSTRTABSIZE), {};
      new;
      assert IsPower2(4);
      assert IsPower2(16);
      assert IsPower2(64);
    }

    /** Halves the table when less than a quarter of it is used. */
    method CheckSizes()
      requires Valid()
      modifies this`size, this`hash, this`strs, this`lists
      ensures Valid() && SameStrings(old(strs), strs)
      ensures size == if nuse < old(size) / 4 then old(size) / 2 else old(size)
    {
      hide Chained, Placed, Stored, NoTwins;
      ghost var m := strs;
      if nuse < size / 4 {
        Resize(size / 2);
        SameTwins(m, strs, stored, seed);
      }
    }

    /** What the resizing keeps before bucket `i` is rehashed. */
    ghost predicate Moving(i: int, newsize: nat)
      reads this
    {
      && |hash| == |lists| && size <= |lists| && newsize <= |lists| && 0 < size && 0 < newsize
      && (newsize % size == 0 || size % newsize == 0)
      && Chained(strs, hash, lists) && Placed(strs, lists, i - 1, size, newsize) && Stored(lists, [], stored)
      && Apart(lists)
    }

    /** Rehashes the strings of one bucket. */
    method MoveBucket(i: nat, newsize: nat)
      requires Moving(i, newsize) && i < size
      modifies this`hash, this`strs, this`lists
      ensures Moving(i + 1, newsize) && |lists| == |old(lists)| && SameStrings(old(strs), strs)
    {
      hide Chained, Placed, Stored, Rest, Apart, Chain, Held, PlacedAt;
      TakeBucket(strs, hash, lists, i, size, newsize, stored);
      var p: Ref := hash[i];
      ghost var rest := lists[i];
      hash, lists := hash[i := 0], lists[i := []];
      ChainHead(strs, p, rest);
      while p != 0
        invariant |hash| == |lists| == |old(lists)| && SameStrings(old(strs), strs)
        invariant Chained(strs, hash, lists) && Placed(strs, lists, i, size, newsize) && Stored(lists, rest, stored)
          && Apart(lists)
        invariant Rest(strs, lists, rest, i, size) && Chain(strs, p, rest) && (p == 0 <==> rest == [])
          && (p != 0 ==> p == rest[0] && p in strs)
        decreases |rest|
      {
        MoveString(strs, hash, lists, rest, i, size, newsize, stored);
        var hnext: Ref := strs[p].hnext;
        var h := (strs[p].hash as nat) % newsize;
        strs := strs[p := strs[p].(hnext := hash[h])];
        hash, lists := hash[h := p], lists[h := [p] + lists[h]];
        p, rest := hnext, rest[1..];
        ChainHead(strs, p, rest);
      }
      assert rest == [];
    }

    /** Changes the number of buckets, in place. */
    method Resize(newsize: nat)
      requires Linked() && IsPower2(newsize)
      modifies this`size, this`hash, this`strs, this`lists
      ensures Linked() && size == newsize && SameStrings(old(strs), strs)
    {
      hide Chained, Placed, Stored, Rest, Apart, Chain, Held, PlacedAt, IsPower2;
      PowerOrder(size, newsize);
      ghost var osize := size;
      var grown := if newsize > size then newsize - size else 0;
      Extended(strs, hash, lists, size, newsize, stored, grown);
      hash, lists := hash + Zeros(grown), lists + Empties(grown);
      var i := 0;
      while i < size
        invariant 0 <= i <= size == osize && |lists| == size + grown && SameStrings(old(strs), strs)
          && Moving(i, newsize)
      {
        MoveBucket(i, newsize);
        i := i + 1;
      }
      AllMoved(strs, hash, lists, size, newsize, stored);
      if newsize < size {
        hash, lists := hash[..newsize], lists[..newsize];
      } else {
        assert hash == hash[..newsize] && lists == lists[..newsize];
      }
      size := newsize;
    }

    /** Looks for a string in its bucket. */
    method Search(str: seq<Byte>, h: bv32) returns (ts: Ref)
      requires Valid() && h == Hash(str, seed)
      ensures ts != 0 ==> ts in stored && ts in strs && strs[ts].content == str
      ensures ts == 0 ==> forall r :: r in stored ==> r in strs && strs[r].content != str
    {
      hide Chain, IsPower2, Hash, Distinct;
      var b := (h as nat) % size;
      ghost var l := lists[b];
      assert Chain(strs, hash[b], l) && PlacedAt(strs, lists, b, size, size, size);
      ts := hash[b];
      ghost var j := 0;
      assert l[0..] == l;
      ChainHead(strs, ts, l);
      while ts != 0
        invariant 0 <= j <= |l| && Chain(strs, ts, l[j..]) && (ts == 0 <==> l[j..] == [])
          && (ts != 0 ==> ts == l[j] && ts in strs)
        invariant forall k :: 0 <= k < j ==> strs[l[k]].content != str
        decreases |l| - j
      {
        assert l[j] in l && Held(lists, ts);
        if strs[ts].content == str {
          return;
        }
        ChainTail(strs, ts, l, j);
        ts := strs[ts].hnext;
        j := j + 1;
        ChainHead(strs, ts, l[j..]);
      }
      assert l[j..] == [] && j == |l|;
      NotInBucket(strs, lists, stored, seed, size, str, b);
    }

    /** Delivers the string with the given content: the one in the table, which is alive
        again, or a new one. The table doubles when it is full. */
    method InternShrStr(str: seq<Byte>) returns (ts: Ref)
      requires Valid()
      modifies this
      ensures Valid() && seed == old(seed)
      ensures ts in stored && ts in strs && strs[ts].content == str && !strs[ts].dead
      ensures stored == old(stored) + {ts}
      ensures (exists r :: r in old(stored) && r in old(strs) && old(strs)[r].content == str) <==> ts in old(stored)
      ensures ts in old(stored) ==> SameStrings(old(strs)[ts := old(strs)[ts].(dead := false)], strs)
      ensures ts !in old(stored) ==> ts !in old(strs) && SameStrings(old(strs), strs - {ts})
      ensures
        var full := ts !in old(stored) && old(nuse) >= old(size) && old(size) <= MAX_INT / 2;
        size == if full then 2 * old(size) else old(size)
    {
      hide Chained, Placed, Stored, Hash, IsPower2, NoTwins;
      var h := LuaHash(str, seed);
      ts := Search(str, h);
      if ts != 0 {
        if strs[ts].dead {
          Revived(strs, hash, lists, size, ts, stored, seed);
          strs := strs[ts := strs[ts].(dead := false)];
        }
        return;
      }
      ghost var m0 := strs;
      if nuse >= size && size <= MAX_INT / 2 {
        Doubled(size);
        Resize(size * 2);
      }
      SameTwins(m0, strs, stored, seed);
      ghost var m1 := strs;
      ts := Add(str, h);
      SameThenNew(m0, m1, strs, ts);
    }

    /** Puts a new string in front of its bucket. */
    method Add(str: seq<Byte>, h: bv32) returns (ts: Ref)
      requires Valid() && h == Hash(str, seed) && forall r :: r in stored ==> r in strs && strs[r].content != str
      modifies this`hash, this`strs, this`lists, this`nuse, this`stored, this`nextRef
      ensures Valid() && ts !in old(strs) && ts !in old(stored) && stored == old(stored) + {ts}
      ensures strs == old(strs)[ts := strs[ts]] && strs[ts].content == str && !strs[ts].dead
    {
      hide Chained, Placed, Stored, Hash, IsPower2, NoTwins;
      ghost var m1, s1 := strs, stored;
      ts := nextRef;
      nextRef := nextRef + 1;
      LinkedHeads(strs, hash, lists, size);
      var b := (h as nat) % size;
      InsertNew(strs, hash, lists, size, stored, ts, str, h);
      strs := strs[ts := TString(h, str, hash[b], false)];
      hash, lists := hash[b := ts], lists[b := [ts] + lists[b]];
      nuse := nuse + 1;
      stored := stored + {ts};
      NewContent(m1, strs, s1, seed, ts);
    }

    /** Makes the link to a string in its bucket skip it. */
    method Unlink(ts: Ref, b: nat, ghost l: seq<Ref>, ghost j: nat)
      requires b < |hash| && j < |l| && l[j] == ts && Chain(strs, hash[b], l) && Distinct(l) && ts in strs
      modifies this`hash, this`strs
      ensures j == 0 ==> strs == old(strs) && hash == old(hash)[b := strs[ts].hnext]
      ensures j > 0 ==>
        l[j - 1] in old(strs) && hash == old(hash)
          && strs == old(strs)[l[j - 1] := old(strs)[l[j - 1]].(hnext := old(strs)[ts].hnext)]
    {
      hide Chain, Distinct;
      HeadIs(strs, hash[b], l, j);
      if hash[b] == ts {
        hash := hash[b := strs[ts].hnext];
      } else {
        var prev: Ref := hash[b];
        ghost var i := 0;
        FirstOf(strs, hash[b], l, j);
        while strs[prev].hnext != ts
          invariant 0 <= i < j && prev == l[i] && prev in strs && NextOf(strs, l, i) && strs == old(strs)
            && hash == old(hash)
          decreases j - i
        {
          StepOn(strs, hash[b], l, i, j);
          prev := strs[prev].hnext;
          i := i + 1;
        }
        StepOn(strs, hash[b], l, i, j);
        strs := strs[prev := strs[prev].(hnext := strs[ts].hnext)];
      }
    }

    /** Takes a string out of the table. */
    method Remove(ts: Ref)
      requires Valid() && ts in stored
      modifies this
      ensures Valid() && stored == old(stored) - {ts} && SameStrings(old(strs), strs) && size == old(size)
    {
      hide Placed, IsPower2, Hash, NoTwins, Chained, Stored, Distinct, Chain, Held, SameStrings;
      ghost var m0, s0 := strs, stored;
      HeldAt(strs, lists, stored, size, ts);
      var b := (strs[ts].hash as nat) % size;
      ghost var l := lists[b];
      BucketChain(strs, hash, lists, b);
      ghost var j :| 0 <= j < |l| && l[j] == ts;
      RemoveLinked(strs, hash, lists, size, stored, b, j);
      Unlink(ts, b, l, j);
      lists := lists[b := l[..j] + l[j + 1..]];
      nuse := nuse - 1;
      stored := stored - {ts};
      FewerTwins(m0, strs, s0, seed, ts);
    }
  }

  lemma HeadIs(m: Strings, head: Ref, l: seq<Ref>, j: nat)
    requires Chain(m, head, l) && Distinct(l) && j < |l|
    ensures head == l[j] <==> j == 0
  {
    ChainNext(m, head, l, 0);
  }

  lemma BucketChain(m: Strings, heads: seq<Ref>, lists: seq<seq<Ref>>, b: nat)
    requires Chained(m, heads, lists) && b < |lists|
    ensures |heads| == |lists| && Chain(m, heads[b], lists[b]) && Distinct(lists[b])
  {
  }

  lemma FewerTwins(m: Strings, m': Strings, stored: set<Ref>, seed: bv32, ts: Ref)
    requires NoTwins(m, stored, seed) && SameStrings(m, m')
    ensures NoTwins(m', stored - {ts}, seed) && m'.Keys == m.Keys
  {
    SameTwins(m, m', stored, seed);
    hide Hash;
  }

  lemma ChainHead(m: Strings, p: Ref, l: seq<Ref>)
    requires Chain(m, p, l)
    ensures (p == 0 <==> l == []) && (p != 0 ==> p == l[0] && p in m)
  {
  }

  lemma ChainTail(m: Strings, p: Ref, l: seq<Ref>, j: nat)
    requires j < |l| && Chain(m, p, l[j..])
    ensures p in m && Chain(m, m[p].hnext, l[j + 1..])
  {
    assert l[j..][1..] == l[j + 1..];
  }

  lemma PowerOrder(a: nat, b: nat)
    requires IsPower2(a) && IsPower2(b)
    ensures a > 0 && b > 0 && (a % b == 0 || b % a == 0)
  {
    if a <= b {
      PowerDivides(a, b);
    } else {
      PowerDivides(b, a);
    }
  }

  lemma Doubled(n: nat)
    requires IsPower2(n)
    ensures IsPower2(n * 2)
  {
    assert n * 2 / 2 == n;
  }

  /** A string with the content would be in the bucket of its hash. */
  lemma NotInBucket(m: Strings, lists: seq<seq<Ref>>, stored: set<Ref>, seed: bv32, size: nat, str: seq<Byte>, b: nat)
    requires Placed(m, lists, size, size, size) && Stored(lists, [], stored) && NoTwins(m, stored, seed)
      && |lists| == size
    requires b == (Hash(str, seed) as nat) % size
      && forall k :: 0 <= k < |lists[b]| ==> lists[b][k] in m && m[lists[b][k]].content != str
    ensures forall r :: r in stored ==> r in m && m[r].content != str
  {
    hide Hash;
    forall r | r in stored ensures r in m && m[r].content != str {
      var c :| 0 <= c < |lists| && r in lists[c];
      assert PlacedAt(m, lists, c, size, size, size);
      assert m[r].content == str ==> c == b;
    }
  }

  lemma LinkedHeads(m: Strings, heads: seq<Ref>, lists: seq<seq<Ref>>, size: nat)
    requires Chained(m, heads, lists) && Placed(m, lists, size, size, size) && |lists| == size
    ensures |heads| == size > 0
  {
  }

  /** A mark on a string does not change the lists. */
  lemma Revived(m: Strings, heads: seq<Ref>, lists: seq<seq<Ref>>, size: nat, ts: Ref, stored: set<Ref>, seed: bv32)
    requires Chained(m, heads, lists) && Placed(m, lists, size, size, size) && ts in m && NoTwins(m, stored, seed)
    ensures
      var m' := m[ts := m[ts].(dead := false)];
      Chained(m', heads, lists) && Placed(m', lists, size, size, size) && NoTwins(m', stored, seed)
  {
    hide Hash;
    var m' := m[ts := m[ts].(dead := false)];
    forall b | 0 <= b < |lists|
      ensures Chain(m', heads[b], lists[b]) && Distinct(lists[b]) && PlacedAt(m', lists, b, size, size, size)
    {
      assert Chain(m, heads[b], lists[b]) && PlacedAt(m, lists, b, size, size, size);
      ChainFrame(m, m', heads[b], lists[b]);
    }
  }

  /** A new string is put in front of its bucket. */
  lemma InsertNew(m: Strings, heads: seq<Ref>, lists: seq<seq<Ref>>, size: nat, stored: set<Ref>, ts: Ref,
                  str: seq<Byte>, h: bv32)
    requires Chained(m, heads, lists) && Placed(m, lists, size, size, size) && Stored(lists, [], stored)
      && |lists| == |heads| == size
    requires ts !in m && ts != 0
    ensures
      var b := (h as nat) % size;
      var m', heads', lists' := m[ts := TString(h, str, heads[b], false)], heads[b := ts], lists[b := [ts] + lists[b]];
      Chained(m', heads', lists') && Placed(m', lists', size, size, size) && Stored(lists', [], stored + {ts})
        && ts !in stored
  {
    var b := (h as nat) % size;
    var m0 := m[ts := TString(h, str, 0, false)];
    var m', heads', lists' := m[ts := TString(h, str, heads[b], false)], heads[b := ts], lists[b := [ts] + lists[b]];
    forall c | 0 <= c < |lists| ensures Chain(m0, heads[c], lists[c]) && Distinct(lists[c]) && ts !in lists[c] {
      assert Chain(m, heads[c], lists[c]) && PlacedAt(m, lists, c, size, size, size);
      ChainFrame(m, m0, heads[c], lists[c]);
    }
    PushChained(m0, heads, lists, ts, b);
    assert m' == m0[ts := m0[ts].(hnext := heads[b])];
    forall c | 0 <= c < |lists'| ensures PlacedAt(m', lists', c, size, size, size) {
      assert PlacedAt(m, lists, c, size, size, size);
    }
    forall r ensures Held(lists', r) <==> r == ts || Held(lists, r) {
      HeldUpdate(lists, b, [ts] + lists[b], r);
    }
  }

  lemma NewContent(m: Strings, m': Strings, stored: set<Ref>, seed: bv32, ts: Ref)
    requires NoTwins(m, stored, seed) && ts !in m && ts !in stored
    requires ts in m' && m' == m[ts := m'[ts]] && m'[ts].hash == Hash(m'[ts].content, seed)
    requires forall r :: r in stored ==> r in m && m[r].content != m'[ts].content
    ensures NoTwins(m', stored + {ts}, seed)
  {
    hide Hash;
  }

  lemma SameTwins(m: Strings, m': Strings, stored: set<Ref>, seed: bv32)
    requires NoTwins(m, stored, seed) && SameStrings(m, m')
    ensures NoTwins(m', stored, seed) && forall r :: r in stored ==> r in m && r in m' && m'[r].content == m[r].content
  {
    hide Hash;
  }

  lemma SameThenNew(m0: Strings, m1: Strings, m2: Strings, ts: Ref)
    requires SameStrings(m0, m1) && ts !in m1 && ts in m2 && m2 == m1[ts := m2[ts]]
    ensures SameStrings(m0, m2 - {ts})
  {
  }

  /** A stored string is in the list of its bucket. */
  lemma HeldAt(m: Strings, lists: seq<seq<Ref>>, stored: set<Ref>, size: nat, ts: Ref)
    requires Placed(m, lists, size, size, size) && Stored(lists, [], stored) && |lists| == size && ts in stored
    ensures size > 0 && ts in m && ts in lists[(m[ts].hash as nat) % size]
  {
    var c :| 0 <= c < |lists| && ts in lists[c];
    assert PlacedAt(m, lists, c, size, size, size);
  }

  /** The links from index `i` of a list on. */
  ghost predicate NextOf(m: Strings, l: seq<Ref>, i: int) {
    0 <= i < |l| && l[i] in m && m[l[i]].hnext == if i + 1 < |l| then l[i + 1] else 0
  }

  lemma {:induction false} ChainNext(m: Strings, head: Ref, l: seq<Ref>, i: nat)
    requires Chain(m, head, l) && i < |l|
    ensures l[0] == head && NextOf(m, l, i) && l[i] != 0
    decreases i
  {
    if i > 0 {
      ChainNext(m, m[head].hnext, l[1..], i - 1);
    } else if |l| > 1 {
      assert l[1..][0] == l[1];
    }
  }

  lemma FirstOf(m: Strings, head: Ref, l: seq<Ref>, j: nat)
    requires Chain(m, head, l) && j < |l| && head != l[j]
    ensures j > 0 && head == l[0] && head in m && NextOf(m, l, 0)
  {
    ChainNext(m, head, l, 0);
  }

  lemma StepOn(m: Strings, head: Ref, l: seq<Ref>, i: nat, j: nat)
    requires Chain(m, head, l) && i < j < |l| && Distinct(l)
    ensures NextOf(m, l, i) && m[l[i]].hnext == l[i + 1] && (m[l[i]].hnext == l[j] <==> i + 1 == j)
      && NextOf(m, l, i + 1)
  {
    ChainNext(m, head, l, i);
    ChainNext(m, head, l, i + 1);
  }

  /** The string at index `j` of a list is unlinked. */
  lemma {:induction false} Unlinked(m: Strings, head: Ref, l: seq<Ref>, j: nat)
    requires Chain(m, head, l) && Distinct(l) && j < |l|
    ensures l[j] in m && (j > 0 ==> l[j - 1] in m)
    ensures
      var m' := if j == 0 then m else m[l[j - 1] := m[l[j - 1]].(hnext := m[l[j]].hnext)];
      Chain(m', if j == 0 then m[l[j]].hnext else head, l[..j] + l[j + 1..])
    decreases j
  {
    if j == 0 {
      assert l[..0] + l[1..] == l[1..];
    } else {
      var t := l[1..];
      ChainNext(m, head, l, j - 1);
      ChainNext(m, head, l, j);
      var m' := m[l[j - 1] := m[l[j - 1]].(hnext := m[l[j]].hnext)];
      Unlinked(m, m[head].hnext, t, j - 1);
      assert (l[..j] + l[j + 1..])[1..] == t[..j - 1] + t[j..];
      if j == 1 {
        assert t[..0] + t[1..] == t[1..];
        ChainFrame(m, m', m[l[1]].hnext, t[1..]);
      }
    }
  }

  /** The table without the string at index `j` of bucket `b`. */
  lemma RemoveLinked(m: Strings, heads: seq<Ref>, lists: seq<seq<Ref>>, size: nat, stored: set<Ref>, b: nat, j: nat)
    requires Chained(m, heads, lists) && Placed(m, lists, size, size, size) && Stored(lists, [], stored)
      && |lists| == size
    requires b < size && j < |lists[b]|
    ensures
      var l := lists[b];
      && l[j] in m && (j > 0 ==> l[j - 1] in m) && (j > 0 <==> heads[b] != l[j])
      && var m' := if j == 0 then m else m[l[j - 1] := m[l[j - 1]].(hnext := m[l[j]].hnext)];
      && var heads' := if j == 0 then heads[b := m[l[j]].hnext] else heads;
      && var lists' := lists[b := l[..j] + l[j + 1..]];
      && Chained(m', heads', lists') && Placed(m', lists', size, size, size) && Stored(lists', [], stored - {l[j]})
      && SameStrings(m, m')
  {
    var l := lists[b];
    assert Chain(m, heads[b], l) && Distinct(l);
    Unlinked(m, heads[b], l, j);
    ChainNext(m, heads[b], l, j);
    var m' := if j == 0 then m else m[l[j - 1] := m[l[j - 1]].(hnext := m[l[j]].hnext)];
    var heads' := if j == 0 then heads[b := m[l[j]].hnext] else heads;
    var l' := l[..j] + l[j + 1..];
    var lists' := lists[b := l'];
    WithoutOne(l, j);
    forall c | 0 <= c < |lists|
      ensures Chain(m', heads'[c], lists'[c]) && Distinct(lists'[c]) && PlacedAt(m', lists', c, size, size, size)
    {
      assert Chain(m, heads[c], lists[c]) && PlacedAt(m, lists, c, size, size, size)
        && PlacedAt(m, lists, b, size, size, size);
      if c != b {
        OtherBucket(m, m', heads[c], lists, b, c, j, size);
      }
    }
    forall r ensures Held(lists', r) <==> Held(lists, r) && r != l[j] {
      HeldUpdate(lists, b, l', r);
      if Held(lists', r) {
        NotTwice(m, lists, size, b, j, l');
      }
    }
  }

  lemma WithoutOne(l: seq<Ref>, j: nat)
    requires Distinct(l) && j < |l|
    ensures var l' := l[..j] + l[j + 1..]; Distinct(l') && forall r :: r in l' <==> r in l && r != l[j]
  {
    var l' := l[..j] + l[j + 1..];
    forall r ensures r in l' <==> r in l && r != l[j] {
      if r in l && r != l[j] {
        var i :| 0 <= i < |l| && l[i] == r;
        assert if i < j then l'[i] == r else l'[i - 1] == r;
      }
    }
  }

  lemma OtherBucket(m: Strings, m': Strings, head: Ref, lists: seq<seq<Ref>>, b: nat, c: nat, j: nat, size: nat)
    requires b < size && c < size && b != c && |lists| == size && Chain(m, head, lists[c]) && j < |lists[b]|
    requires PlacedAt(m, lists, b, size, size, size) && PlacedAt(m, lists, c, size, size, size)
    requires m'.Keys == m.Keys && forall r :: r in m && (j > 0 ==> r != lists[b][j - 1]) ==> m'[r] == m[r]
    requires j == 0 ==> m' == m
    ensures Chain(m', head, lists[c])
  {
    assert j > 0 ==> lists[b][j - 1] in lists[b];
    ChainFrame(m, m', head, lists[c]);
  }

  /** The removed string is in no other bucket. */
  lemma NotTwice(m: Strings, lists: seq<seq<Ref>>, size: nat, b: nat, j: nat, l': seq<Ref>)
    requires Placed(m, lists, size, size, size) && |lists| == size && b < size && j < |lists[b]| && lists[b][j] !in l'
    ensures !Held(lists[b := l'], lists[b][j])
  {
    var p := lists[b][j];
    assert p in lists[b] && PlacedAt(m, lists, b, size, size, size);
    var lists' := lists[b := l'];
    forall c | 0 <= c < size ensures p !in lists'[c] {
      assert c != b ==> PlacedAt(m, lists, c, size, size, size) && lists'[c] == lists[c];
    }
  }
}
