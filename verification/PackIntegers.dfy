/** Integers as bytes, in both orders and of any size, with the sign. */
module PackIntegers {
  import opened Options

  type Byte = x: int | 0 <= x < 256

  const SZINT: nat := 8

  function Power256(n: nat): (r: nat)
    ensures r > 0
  {
    if n == 0 then 1 else 256 * Power256(n - 1)
  }

  const TWO64: int := 0x1_0000_0000_0000_0000
  const TWO63: int := 0x8000_0000_0000_0000

  lemma Power8()
    ensures Power256(8) == TWO64 && TWO64 == 2 * TWO63
  {
    assert Power256(2) == 0x1_0000;
    assert Power256(4) == 0x1_0000_0000;
    assert Power256(6) == 0x1_0000_0000_0000;
  }

  /** A 64-bit word as a signed integer, and back. */
  function ToSigned(n: nat): int {
    if n >= TWO63 then n - TWO64 else n
  }

  function ToUnsigned(m: int): nat
    requires -TWO63 <= m < TWO63
  {
    if m < 0 then m + TWO64 else m
  }

  /** The `n` lowest bytes of a number, the lowest first. */
  function Bytes(v: nat, n: nat): (b: seq<Byte>)
    ensures |b| == n
  {
    if n == 0 then [] else [v % 256] + Bytes(v / 256, n - 1)
  }

  function Value(b: seq<Byte>): nat {
    if b == [] then 0 else b[0] + 256 * Value(b[1..])
  }

  function Shift(v: nat, i: nat): nat {
    if i == 0 then v else Shift(v / 256, i - 1)
  }

  function Reversed(b: seq<Byte>): (r: seq<Byte>)
    ensures |r| == |b|
    ensures forall i :: 0 <= i < |b| ==> r[i] == b[|b| - 1 - i]
  {
    seq(|b|, i requires 0 <= i < |b| => b[|b| - 1 - i])
  }

  /** The bytes in the given order. */
  function Ordered(b: seq<Byte>, little: bool): (r: seq<Byte>)
    ensures |r| == |b|
  {
    if little then b else Reversed(b)
  }

  lemma OrderedTwice(b: seq<Byte>, little: bool)
    ensures Ordered(Ordered(b, little), little) == b
  {
    assert Reversed(Reversed(b)) == b;
  }

  lemma {:induction false} ByteAt(v: nat, n: nat, i: nat)
    requires i < n
    ensures Bytes(v, n)[i] == Shift(v, i) % 256
    decreases i
  {
    if i > 0 {
      ByteAt(v / 256, n - 1, i - 1);
    }
  }

  lemma {:induction false} ShiftNext(v: nat, i: nat)
    ensures Shift(v, i + 1) == Shift(v, i) / 256
    decreases i
  {
    if i > 0 {
      ShiftNext(v / 256, i - 1);
    }
  }

  lemma {:induction false} ShiftZero(v: nat, i: nat)
    requires v < Power256(i)
    ensures Shift(v, i) == 0
    decreases i
  {
    if i > 0 {
      ShiftZero(v / 256, i - 1);
    }
  }

  lemma {:induction false} ValueBound(b: seq<Byte>)
    ensures Value(b) < Power256(|b|)
    decreases |b|
  {
    if b != [] {
      ValueBound(b[1..]);
    }
  }

  /** Reading the bytes back gives the number, if it fits. */
  lemma {:induction false} ValueBytes(v: nat, n: nat)
    requires v < Power256(n)
    ensures Value(Bytes(v, n)) == v
    decreases n
  {
    if n > 0 {
      ValueBytes(v / 256, n - 1);
      assert Bytes(v, n)[1..] == Bytes(v / 256, n - 1);
    }
  }

  lemma ValueFirst(b: seq<Byte>)
    requires b != []
    ensures Value(b) == b[0] + 256 * Value(b[1..])
  {
  }

  lemma Regroup(p: nat, q: nat)
    ensures 256 * (p * q) == 256 * p * q
  {
  }

  lemma {:induction false} ValueSplit(b: seq<Byte>, k: nat)
    requires k <= |b|
    ensures Value(b) == Value(b[..k]) + Power256(k) * Value(b[k..])
    decreases k
  {
    if k == 0 {
      assert b[0..] == b && Value(b[..0]) == 0;
    } else {
      var d := b[1..];
      ValueSplit(d, k - 1);
      assert d[..k - 1] == b[..k][1..] && d[k - 1..] == b[k..];
      ValueFirst(b);
      ValueFirst(b[..k]);
      hide Value;
      var p, q := Power256(k - 1), Value(b[k..]);
      assert Power256(k) == 256 * p;
      Regroup(p, q);
    }
  }

  // ---------- the sign in the extra bytes ----------

  function Ones(n: nat): seq<Byte> {
    seq(n, i => 255)
  }

  lemma {:induction false} AllOnes(n: nat)
    ensures Bytes(Power256(n) - 1, n) == Ones(n)
    decreases n
  {
    if n > 0 {
      AllOnes(n - 1);
      assert (Power256(n) - 1) / 256 == Power256(n - 1) - 1;
      assert Ones(n) == [255] + Ones(n - 1);
    }
  }

  lemma {:induction false} PowerMonotone(k: nat, n: nat)
    requires k <= n
    ensures Power256(k) <= Power256(n)
    decreases n
  {
    if k < n {
      PowerMonotone(k, n - 1);
    }
  }

  /** A negative number of `k` bytes in two's complement with more bytes. */
  lemma {:induction false} Extend(v: nat, k: nat, n: nat)
    requires v < Power256(k) && k <= n
    ensures Power256(n) >= Power256(k) && Bytes(v + Power256(n) - Power256(k), n) == Bytes(v, k) + Ones(n - k)
    decreases k
  {
    PowerMonotone(k, n);
    if k == 0 {
      AllOnes(n);
    } else {
      Extend(v / 256, k - 1, n - 1);
      assert (v + Power256(n) - Power256(k)) / 256 == v / 256 + Power256(n - 1) - Power256(k - 1);
      assert [v % 256] + (Bytes(v / 256, k - 1) + Ones(n - k)) == Bytes(v, k) + Ones(n - k);
    }
  }

  lemma {:induction false} ExtendZero(v: nat, k: nat, n: nat)
    requires v < Power256(k) && k <= n
    ensures Bytes(v, n)[..k] == Bytes(v, k) && forall i :: k <= i < n ==> Bytes(v, n)[i] == 0
    decreases k
  {
    forall i | k <= i < n ensures Bytes(v, n)[i] == 0 {
      ByteAt(v, n, i);
      ShiftZero(v, k);
      ShiftStays(v, k, i);
    }
    forall i | 0 <= i < k ensures Bytes(v, n)[i] == Bytes(v, k)[i] {
      ByteAt(v, n, i);
      ByteAt(v, k, i);
    }
  }

  lemma {:induction false} ShiftStays(v: nat, k: nat, i: nat)
    requires Shift(v, k) == 0 && k <= i
    ensures Shift(v, i) == 0
    decreases i
  {
    if k < i {
      ShiftStays(v, k, i - 1);
      ShiftNext(v, i - 1);
    }
  }

  /** The number that is written with `size` bytes for the 64-bit word `n`: a negative one
      is continued with ones. */
  function Extended(n: nat, size: nat, neg: bool): nat
    requires n < TWO64
  {
    if neg && size > SZINT then Power8(); PowerMonotone(8, size); n + Power256(size) - TWO64 else n
  }

  /** Where byte `i` of the number is in the buffer. */
  function Place(little: bool, size: nat, i: nat): nat
    requires i < size
  {
    if little then i else size - 1 - i
  }

  /** Byte `i` of the number in the buffer. */
  function Digit(buff: seq<Byte>, little: bool, i: nat): Byte
    requires i < |buff|
  {
    buff[Place(little, |buff|, i)]
  }

  lemma DigitUpdate(buff: seq<Byte>, little: bool, i: nat, x: Byte)
    requires i < |buff|
    ensures forall j :: 0 <= j < |buff| ==>
      Digit(buff[Place(little, |buff|, i) := x], little, j) == if j == i then x else Digit(buff, little, j)
  {
    var r := buff[Place(little, |buff|, i) := x];
    forall j | 0 <= j < |buff| ensures Digit(r, little, j) == if j == i then x else Digit(buff, little, j) {
      assert Place(little, |buff|, j) == Place(little, |buff|, i) <==> i == j;
    }
  }

  /** Writes a 64-bit word with the given number of bytes. */
  method PackInt(n0: nat, little: bool, size: nat, neg: bool) returns (buff: seq<Byte>)
    requires n0 < TWO64 && size > 0
    ensures buff == Ordered(Bytes(Extended(n0, size, neg), size), little)
  {
    var n := n0;
    buff := seq(size, i => 0);
    DigitUpdate(buff, little, 0, n % 256);
    buff := buff[Place(little, size, 0) := n % 256];
    ByteAt(n0, size, 0);
    var i := 1;
    while i < size
      invariant 1 <= i <= size == |buff| && n == Shift(n0, i - 1)
      invariant forall j :: 0 <= j < i ==> Digit(buff, little, j) == Bytes(n0, size)[j]
    {
      ShiftNext(n0, i - 1);
      ByteAt(n0, size, i);
      n := n / 256;
      DigitUpdate(buff, little, i, n % 256);
      buff := buff[Place(little, size, i) := n % 256];
      i := i + 1;
    }
    Arranged(buff, Bytes(n0, size), little);
    if neg && size > SZINT {
      buff := SignExtend(n0, little, size, buff);
    }
  }

  /** Makes the bytes beyond the eighth ones. */
  method SignExtend(n: nat, little: bool, size: nat, buff0: seq<Byte>) returns (buff: seq<Byte>)
    requires n < TWO64 && size > SZINT && |buff0| == size
      && forall j :: 0 <= j < size ==> Digit(buff0, little, j) == Bytes(n, size)[j]
    ensures buff == Ordered(Bytes(Extended(n, size, true), size), little)
  {
    hide Extended, Ordered;
    ghost var b := Bytes(n, size);
    buff := buff0;
    var i := SZINT;
    while i < size
      invariant SZINT <= i <= size == |buff|
      invariant forall j :: 0 <= j < size ==> Digit(buff, little, j) == if SZINT <= j < i then 255 else b[j]
    {
      DigitUpdate(buff, little, i, 255);
      var next := buff[Place(little, |buff|, i) := 255];
      forall j | 0 <= j < size ensures Digit(next, little, j) == if SZINT <= j < i + 1 then 255 else b[j] {
        assert Digit(next, little, j) == if j == i then 255 else Digit(buff, little, j);
      }
      buff := next;
      i := i + 1;
    }
    ExtendedBytes(n, size);
    Arranged(buff, Bytes(Extended(n, size, true), size), little);
  }

  lemma ExtendedBytes(n: nat, size: nat)
    requires n < TWO64 && size > SZINT
    ensures forall j :: 0 <= j < size ==>
      Bytes(Extended(n, size, true), size)[j] == if j < SZINT then Bytes(n, size)[j] else 255
  {
    Power8();
    ExtendZero(n, SZINT, size);
    Extend(n, SZINT, size);
    assert forall j :: 0 <= j < SZINT ==> Bytes(n, size)[j] == Bytes(n, size)[..SZINT][j];
  }

  lemma Arranged(buff: seq<Byte>, b: seq<Byte>, little: bool)
    requires |buff| == |b| && forall j :: 0 <= j < |b| ==> Digit(buff, little, j) == b[j]
    ensures buff == Ordered(b, little)
  {
    forall i | 0 <= i < |b| ensures buff[i] == Ordered(b, little)[i] {
      assert Digit(buff, little, Place(little, |b|, i)) == buff[i];
    }
  }

  lemma DigitOrdered(str: seq<Byte>, little: bool)
    ensures forall j :: 0 <= j < |str| ==> Digit(str, little, j) == Ordered(str, little)[j]
  {
  }

  // ---------- reading ----------

  /** The number in two's complement that the bytes stand for. */
  function SignedValue(b: seq<Byte>): int
    requires b != []
  {
    if 2 * Value(b) >= Power256(|b|) then Value(b) - Power256(|b|) else Value(b)
  }

  /** What `unpackint` should deliver: the number, if it fits into a 64-bit integer. */
  function Unpacked(b: seq<Byte>, signed: bool): Option<int>
    requires b != []
  {
    if signed then (if -TWO63 <= SignedValue(b) < TWO63 then Some(SignedValue(b)) else None)
    else if Value(b) < TWO64 then Some(ToSigned(Value(b))) else None
  }

  /** Reads the lowest bytes, the highest of them first. */
  method ReadLow(str: seq<Byte>, little: bool, limit: nat) returns (res: nat)
    requires limit <= |str|
    ensures res == Value(Ordered(str, little)[..limit]) < Power256(limit)
  {
    ghost var b := Ordered(str, little);
    DigitOrdered(str, little);
    res := 0;
    var i := limit;
    assert b[limit..limit] == [];
    while i > 0
      invariant 0 <= i <= limit && res == Value(b[i..limit]) < Power256(limit - i)
    {
      i := i - 1;
      assert b[i..limit][1..] == b[i + 1..limit];
      ValueBound(b[i..limit]);
      res := 256 * res + Digit(str, little, i);
    }
    assert b[0..limit] == b[..limit];
  }

  method UnpackInt(str: seq<Byte>, little: bool, size: nat, signed: bool) returns (r: Option<int>)
    requires |str| == size > 0
    ensures r == Unpacked(Ordered(str, little), signed)
  {
    ghost var b := Ordered(str, little);
    DigitOrdered(str, little);
    hide Ordered, Value, Digit;
    var limit := if size <= SZINT then size else SZINT;
    var res := ReadLow(str, little, limit);
    Power8();
    if size < SZINT {
      assert b[..limit] == b;
      PowerMonotone(size, 7);
      Half(size);
      if signed {
        var mask := Power256(size) / 2;
        var x := if res >= mask then res - mask else res + mask;
        r := Some(ToSigned((x - mask) % TWO64));
        Wrapped(res, mask);
      } else {
        r := Some(ToSigned(res));
      }
    } else if size > SZINT {
      var mask := if !signed || ToSigned(res) >= 0 then 0 else 255;
      ExtraBytes(b, res, signed);
      var i := limit;
      while i < size
        invariant limit <= i <= size && forall j :: limit <= j < i ==> b[j] == mask
      {
        if Digit(str, little, i) != mask {
          assert b[i] != mask;
          return None;
        }
        i := i + 1;
      }
      r := Some(ToSigned(res));
    } else {
      assert b[..limit] == b;
      r := Some(ToSigned(res));
    }
  }

  lemma Half(n: nat)
    requires n > 0
    ensures Power256(n) % 2 == 0
  {
    assert Power256(n) == 2 * (128 * Power256(n - 1));
  }

  /** Sign extension by flipping and subtracting the highest bit. */
  lemma Wrapped(res: nat, mask: nat)
    requires res < 2 * mask && 2 * mask <= TWO63
    ensures
      var x := if res >= mask then res - mask else res + mask;
      ToSigned((x - mask) % TWO64) == if res >= mask then res - 2 * mask else res
  {
  }

  /** The bytes beyond the eighth only continue the sign exactly when the number fits. */
  lemma ExtraBytes(b: seq<Byte>, res: nat, signed: bool)
    requires |b| > SZINT && res == Value(b[..SZINT]) < TWO64
    ensures
      var mask := if !signed || ToSigned(res) >= 0 then 0 else 255;
      Unpacked(b, signed) == if forall j :: SZINT <= j < |b| ==> b[j] == mask then Some(ToSigned(res)) else None
  {
    hide Value, Power256, ToSigned;
    var k := |b| - SZINT;
    var high := b[SZINT..];
    Power8();
    ValueSplit(b, SZINT);
    PowerSplit(SZINT, k);
    ValueBound(high);
    Half(k);
    ZeroValue(high);
    OnesValue(high);
    assert (forall j :: SZINT <= j < |b| ==> b[j] == 0) <==> high == Same(k, 0) by {
      assert forall j :: 0 <= j < k ==> high[j] == b[j + SZINT];
    }
    assert (forall j :: SZINT <= j < |b| ==> b[j] == 255) <==> high == Same(k, 255) by {
      assert forall j :: 0 <= j < k ==> high[j] == b[j + SZINT];
    }
    FitsWhen(res, Value(high), Power256(k), signed);
  }

  function Same(n: nat, x: Byte): seq<Byte> {
    seq(n, i => x)
  }

  lemma {:induction false} ZeroValue(b: seq<Byte>)
    ensures Value(b) == 0 <==> b == Same(|b|, 0)
    decreases |b|
  {
    if b != [] {
      ZeroValue(b[1..]);
      assert b == [b[0]] + b[1..] && Same(|b|, 0) == [0] + Same(|b| - 1, 0);
      assert b == Same(|b|, 0) ==> b[0] == 0 && b[1..] == Same(|b| - 1, 0);
    }
  }

  lemma {:induction false} OnesValue(b: seq<Byte>)
    ensures Value(b) == Power256(|b|) - 1 <==> b == Same(|b|, 255)
    decreases |b|
  {
    if b != [] {
      OnesValue(b[1..]);
      ValueBound(b[1..]);
      assert b == [b[0]] + b[1..] && Same(|b|, 255) == [255] + Same(|b| - 1, 255);
      assert b == Same(|b|, 255) ==> b[0] == 255 && b[1..] == Same(|b| - 1, 255);
    }
  }

  lemma {:induction false} PowerSplit(a: nat, b: nat)
    ensures Power256(a + b) == Power256(a) * Power256(b)
    decreases a
  {
    if a > 0 {
      PowerSplit(a - 1, b);
      assert 256 * (Power256(a - 1) * Power256(b)) == (256 * Power256(a - 1)) * Power256(b);
    }
  }

  /** A number with low part `res` and high part `h` out of `p`. */
  lemma FitsWhen(res: nat, h: nat, p: nat, signed: bool)
    requires res < TWO64 && h < p && p % 2 == 0
    ensures
      var v, q := res + TWO64 * h, TWO64 * p;
      var s := if 2 * v >= q then v - q else v;
      if signed then
        && (-TWO63 <= s < TWO63 <==> h == if ToSigned(res) >= 0 then 0 else p - 1)
        && (h == (if ToSigned(res) >= 0 then 0 else p - 1) ==> s == ToSigned(res))
      else v < TWO64 <==> h == 0
  {
    var v, q := res + TWO64 * h, TWO64 * p;
    assert q - v == TWO64 * (p - h) - res;
  }
}
