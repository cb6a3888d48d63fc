/** The codes of a Huffman tree, and texts as streams of bits. */
module PrefixCodes {
  import opened HuffmanHeap
  import opened HuffmanTree

  type Bits = seq<bool>

  /** No byte has two leaves. */
  ghost predicate Single(t: Huff) {
    forall c: Byte :: Bytes(t, c) <= 1
  }

  predicate InTree(t: Huff, c: Byte) {
    Bytes(t, c) > 0
  }

  /** The way from the root to the leaf of a byte; right is `true`. */
  function CodeOf(t: Huff, c: Byte): Bits
    requires InTree(t, c)
  {
    match t
    case Leaf(_, _) => []
    case Node(_, l, r) => if InTree(l, c) then [false] + CodeOf(l, c) else [true] + CodeOf(r, c)
  }

  /** No code is the beginning of another one. */
  lemma {:induction false} PrefixFree(t: Huff, c: Byte, d: Byte)
    requires InTree(t, c) && InTree(t, d) && c != d
    ensures !(CodeOf(t, c) <= CodeOf(t, d))
    decreases t
  {
    var x, y := CodeOf(t, c), CodeOf(t, d);
    if InTree(t.left, c) == InTree(t.left, d) {
      PrefixFree(if InTree(t.left, c) then t.left else t.right, c, d);
      Tails(x, y);
    } else {
      assert x[0] != y[0];
    }
  }

  lemma Tails(x: Bits, y: Bits)
    requires x != [] && y != []
    ensures x <= y ==> x[1..] <= y[1..]
  {
  }

  /** The subtree at the end of a way, if there is one. */
  function Follow(t: Huff, p: Bits): Huff
    requires Leads(t, p)
  {
    if p == [] then t else Follow(if p[0] then t.right else t.left, p[1..])
  }

  predicate Leads(t: Huff, p: Bits) {
    p == [] || (t.Node? && Leads(if p[0] then t.right else t.left, p[1..]))
  }

  lemma {:induction false} FollowStep(t: Huff, p: Bits, b: bool)
    requires Leads(t, p) && Follow(t, p).Node?
    ensures Leads(t, p + [b]) && Follow(t, p + [b]) == (if b then Follow(t, p).right else Follow(t, p).left)
    decreases |p|
  {
    if p != [] {
      FollowStep(if p[0] then t.right else t.left, p[1..], b);
      assert (p + [b])[1..] == p[1..] + [b];
    } else {
      var q := p + [b];
      assert q[0] == b && q[1..] == [];
    }
  }

  /** A way that ends at the leaf of a byte is its code. */
  lemma {:induction false} LeafCode(t: Huff, p: Bits)
    requires Leads(t, p) && Follow(t, p).Leaf? && Bytes(t, Follow(t, p).ch) <= 1
    ensures InTree(t, Follow(t, p).ch) && CodeOf(t, Follow(t, p).ch) == p
    decreases |p|
  {
    if p != [] {
      LeafCode(if p[0] then t.right else t.left, p[1..]);
      assert p == [p[0]] + p[1..];
    }
  }

  // ---------- texts ----------

  ghost predicate AllIn(t: Huff, text: seq<Byte>) {
    forall i :: 0 <= i < |text| ==> InTree(t, text[i])
  }

  /** The codes of the bytes of a text, one after the other. */
  ghost function Encoded(t: Huff, text: seq<Byte>): Bits
    requires AllIn(t, text)
  {
    if text == [] then [] else CodeOf(t, text[0]) + Encoded(t, text[1..])
  }

  lemma {:induction false} EncodedAppend(t: Huff, text: seq<Byte>, c: Byte)
    requires AllIn(t, text) && InTree(t, c)
    ensures AllIn(t, text + [c]) && Encoded(t, text + [c]) == Encoded(t, text) + CodeOf(t, c)
    decreases |text|
  {
    if text == [] {
      assert ([] + [c])[1..] == [];
    } else {
      assert (text + [c])[1..] == text[1..] + [c];
      EncodedAppend(t, text[1..], c);
    }
  }

  // ---------- bits of bytes ----------

  /** The `n` lowest bits of a number, the highest first. */
  function ValueBits(v: nat, n: nat): (bits: Bits)
    ensures |bits| == n
  {
    if n == 0 then [] else ValueBits(v / 2, n - 1) + [v % 2 == 1]
  }

  function Power2(n: nat): (r: nat)
    ensures r > 0
  {
    if n == 0 then 1 else 2 * Power2(n - 1)
  }

  function ShiftRight(v: nat, k: nat): nat {
    if k == 0 then v else ShiftRight(v / 2, k - 1)
  }

  function ShiftLeft(v: nat, k: nat): nat
    decreases k
  {
    if k == 0 then v else ShiftLeft(2 * v, k - 1)
  }

  function Zeros(k: nat): Bits {
    seq(k, i => false)
  }

  lemma {:induction false} ShiftLeftBits(v: nat, n: nat, k: nat)
    requires v < Power2(n)
    ensures ValueBits(ShiftLeft(v, k), n + k) == ValueBits(v, n) + Zeros(k) && ShiftLeft(v, k) < Power2(n + k)
    decreases k
  {
    if k > 0 {
      ShiftLeftBits(2 * v, n + 1, k - 1);
      assert ValueBits(2 * v, n + 1) == ValueBits(v, n) + [false];
      assert Zeros(k) == [false] + Zeros(k - 1);
    } else {
      assert Zeros(0) == [];
    }
  }

  /** Testing a bit of a number. */
  lemma {:induction false} TestBit(v: nat, n: nat, k: nat)
    requires k < n
    ensures ValueBits(v, n)[n - 1 - k] == (ShiftRight(v, k) % 2 == 1)
    decreases k
  {
    if k > 0 {
      TestBit(v / 2, n - 1, k - 1);
    }
  }

  ghost function Unpacked(data: seq<Byte>): (bits: Bits)
    ensures |bits| == 8 * |data|
  {
    if data == [] then [] else Unpacked(data[..|data| - 1]) + ValueBits(data[|data| - 1], 8)
  }

  /** The bit at index `i` of a file; beyond its end `fgetc` delivers -1. */
  function BitAt(data: seq<Byte>, i: nat): bool {
    if i / 8 < |data| then ValueBits(data[i / 8], 8)[i % 8] else true
  }

  lemma {:induction false} UnpackedAt(data: seq<Byte>, i: nat)
    requires i < 8 * |data|
    ensures Unpacked(data)[i] == BitAt(data, i)
    decreases |data|
  {
    var k := |data| - 1;
    if i < 8 * k {
      UnpackedAt(data[..k], i);
    }
  }

  // ---------- decoding ----------

  /** The file has the given bits from index `o` on. */
  ghost predicate Reads(data: seq<Byte>, o: nat, bits: Bits) {
    forall i :: 0 <= i < |bits| ==> bits[i] == BitAt(data, o + i)
  }

  lemma ReadsSplit(data: seq<Byte>, o: nat, a: Bits, b: Bits)
    ensures Reads(data, o, a + b) <==> Reads(data, o, a) && Reads(data, o + |a|, b)
  {
    if Reads(data, o, a + b) {
      forall i | 0 <= i < |a| ensures a[i] == BitAt(data, o + i) {
        assert (a + b)[i] == a[i];
      }
      forall i | 0 <= i < |b| ensures b[i] == BitAt(data, o + |a| + i) {
        assert (a + b)[|a| + i] == b[i] && (a + b)[|a| + i] == BitAt(data, o + (|a| + i));
      }
    }
  }

  lemma Comparable(data: seq<Byte>, o: nat, p: Bits, q: Bits)
    requires Reads(data, o, p) && Reads(data, o, q)
    ensures p <= q || q <= p
  {
  }

  /** A stream of bits has only one reading as a text of a given length. */
  lemma {:induction false} UniqueReading(t: Huff, data: seq<Byte>, o: nat, x: seq<Byte>, y: seq<Byte>)
    requires AllIn(t, x) && AllIn(t, y) && |x| == |y| && Reads(data, o, Encoded(t, x)) && Reads(data, o, Encoded(t, y))
    ensures x == y
    decreases |x|
  {
    hide Reads, BitAt, CodeOf, InTree;
    if x != [] {
      var p, q := CodeOf(t, x[0]), CodeOf(t, y[0]);
      ReadsSplit(data, o, p, Encoded(t, x[1..]));
      ReadsSplit(data, o, q, Encoded(t, y[1..]));
      Comparable(data, o, p, q);
      if x[0] != y[0] {
        PrefixFree(t, x[0], y[0]);
        PrefixFree(t, y[0], x[0]);
      }
      UniqueReading(t, data, o + |p|, x[1..], y[1..]);
      assert x == [x[0]] + x[1..] && y == [y[0]] + y[1..];
    }
  }

  /** What the decoder keeps: `k` bits were read, they are the codes of `out` and a way
      `p` to the present node. */
  ghost predicate Decoding(t: Huff, data: seq<Byte>, k: nat, out: seq<Byte>, p: Bits) {
    && AllIn(t, out) && Leads(t, p) && k == |Encoded(t, out)| + |p|
    && Reads(data, 0, Encoded(t, out)) && Reads(data, |Encoded(t, out)|, p)
  }

  /** One bit is read. */
  lemma DecodeBit(t: Huff, data: seq<Byte>, k: nat, out: seq<Byte>, p: Bits, b: bool)
    requires Decoding(t, data, k, out, p) && Follow(t, p).Node? && b == BitAt(data, k)
    ensures Decoding(t, data, k + 1, out, p + [b])
    ensures Follow(t, p + [b]) == if b then Follow(t, p).right else Follow(t, p).left
  {
    hide Reads, Follow, Leads, AllIn, Encoded, BitAt;
    FollowStep(t, p, b);
    OneBit(data, k, b);
    ReadsSplit(data, |Encoded(t, out)|, p, [b]);
  }

  lemma OneBit(data: seq<Byte>, k: nat, b: bool)
    requires b == BitAt(data, k)
    ensures Reads(data, k, [b])
  {
  }

  lemma NothingRead(t: Huff, data: seq<Byte>, k: nat)
    ensures Reads(data, k, []) && Leads(t, [])
  {
  }

  /** A leaf was reached. */
  lemma DecodeByte(t: Huff, data: seq<Byte>, k: nat, out: seq<Byte>, p: Bits)
    requires Decoding(t, data, k, out, p) && Follow(t, p).Leaf? && Single(t)
    ensures Decoding(t, data, k, out + [Follow(t, p).ch], [])
  {
    hide Reads, Follow, InTree, AllIn, CodeOf;
    var c := Follow(t, p).ch;
    LeafCode(t, p);
    EncodedAppend(t, out, c);
    ReadsSplit(data, 0, Encoded(t, out), p);
    NothingRead(t, data, k);
  }
}
