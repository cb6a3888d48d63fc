/** Where `string.pack` puts each value and with which bytes, after section 6.4.2 of the Lua
    5.3 Reference Manual. */
module PackLayout {
  import opened Options
  import opened PackIntegers
  import opened StringPack

  // ---------- bytes of a number ----------

  /** Byte `j` of an integer in two's complement, the lowest first. */
  function Octet(n: int, j: nat): Byte {
    n / Power256(j) % 256
  }

  lemma DivDiv(n: int, p: nat)
    requires p > 0
    ensures n / (256 * p) == n / 256 / p
  {
    var q, r := n / 256 / p, n / 256 % p;
    assert n / 256 == p * q + r;
    assert n == 256 * (n / 256) + n % 256;
    assert n == 256 * (p * q) + (256 * r + n % 256);
    assert 256 * (p * q) == (256 * p) * q;
    Quotient(n, 256 * p, q, 256 * r + n % 256);
  }

  lemma Quotient(n: int, m: nat, q: int, r: nat)
    requires n == m * q + r && r < m
    ensures n / m == q
  {
    var q', r' := n / m, n % m;
    assert n == m * q' + r';
    assert m * (q - q') == r' - r;
    Multiple(m, q - q');
  }

  lemma Multiple(m: int, d: int)
    requires m > 0
    ensures (d >= 1 ==> m * d >= m) && (d <= -1 ==> m * d <= -m)
  {
  }

  lemma OctetNext(n: int, j: nat)
    ensures Octet(n, j + 1) == Octet(n / 256, j)
  {
    DivDiv(n, Power256(j));
  }

  lemma {:induction false} OctetBytes(v: nat, size: nat, j: nat)
    requires j < size
    ensures Bytes(v, size)[j] == Octet(v, j)
    decreases j
  {
    if j > 0 {
      OctetBytes(v / 256, size - 1, j - 1);
      OctetNext(v, j - 1);
    }
  }

  /** A multiple of a higher power does not matter. */
  lemma {:induction false} OctetPeriod(n: int, m: nat, j: nat)
    requires j < m
    ensures Octet(n + Power256(m), j) == Octet(n, j)
    decreases j
  {
    assert (n + Power256(m)) / 256 == n / 256 + Power256(m - 1);
    if j > 0 {
      OctetNext(n, j - 1);
      OctetNext(n + Power256(m), j - 1);
      OctetPeriod(n / 256, m - 1, j - 1);
    }
  }

  // ---------- the header ----------

  /** The byte order before index `i` of a format: that of the last order sign. The machine
      itself is little-endian. */
  predicate Little(fmt: seq<Char>, i: nat)
    requires i <= |fmt|
  {
    if i == 0 then true
    else if fmt[i - 1] == '<' as int then true
    else if fmt[i - 1] == '>' as int then false
    else if fmt[i - 1] == '=' as int then true
    else Little(fmt, i - 1)
  }

  /** The number that the digits from index `i` on stand for, behind the digits of `a`. */
  function Decimal(fmt: seq<Char>, i: nat, a: nat): nat
    decreases |fmt| - i
  {
    if i < |fmt| && '0' as int <= fmt[i] <= '9' as int then Decimal(fmt, i + 1, 10 * a + (fmt[i] - '0' as int))
    else a
  }

  /** The number at index `i`, or the default where there is none. */
  function NumberAt(fmt: seq<Char>, i: nat, default: nat): nat {
    if i < |fmt| && '0' as int <= fmt[i] <= '9' as int then Decimal(fmt, i, 0) else default
  }

  /** The maximum alignment before index `i`: that of the last exclamation mark. */
  function MaxAlign(fmt: seq<Char>, i: nat): nat
    requires i <= |fmt|
  {
    if i == 0 then 1
    else if fmt[i - 1] == '!' as int then NumberAt(fmt, i, 8)
    else MaxAlign(fmt, i - 1)
  }

  predicate HeaderSign(c: Char) {
    c == '<' as int || c == '>' as int || c == '=' as int || c == '!' as int
  }

  lemma {:induction false} DecimalGrows(fmt: seq<Char>, i: nat, a: nat)
    ensures Decimal(fmt, i, a) >= a
    decreases |fmt| - i
  {
    if i < |fmt| && '0' as int <= fmt[i] <= '9' as int {
      DecimalGrows(fmt, i + 1, 10 * a + (fmt[i] - '0' as int));
    }
  }

  /** Small numerals are read to their end. */
  lemma {:induction false} NumeralDecimal(fmt: seq<Char>, i: nat, a: nat)
    requires i <= |fmt| && Numeral(fmt, i, a).0 <= 1000
    ensures Numeral(fmt, i, a).0 == Decimal(fmt, i, a)
    ensures forall j :: i <= j < Numeral(fmt, i, a).1 ==> '0' as int <= fmt[j] <= '9' as int
    decreases |fmt| - i
  {
    if i < |fmt| && IsDigit(fmt[i]) && a <= (MAXSIZE - 9) / 10 {
      NumeralDecimal(fmt, i + 1, 10 * a + (fmt[i] - 48));
    }
  }

  lemma NumberRead(fmt: seq<Char>, i: nat, df: nat)
    requires i <= |fmt| && 0 < df <= MAXINTSIZE && GetNumLimit(fmt, i, df).Some?
    ensures
      var x := GetNumLimit(fmt, i, df).value;
      x.0 == NumberAt(fmt, i, df) && forall j :: i <= j < x.1 ==> '0' as int <= fmt[j] <= '9' as int
  {
    if IsDigit(At(fmt, i)) {
      NumeralDecimal(fmt, i + 1, fmt[i] - 48);
    }
  }

  /** The signs for the header stand alone, and do what they say. */
  lemma OptionHeader(h: Header, fmt: seq<Char>, i: nat)
    requires i < |fmt| && 0 < h.maxalign <= MAXINTSIZE && GetOption(h, fmt, i).Some?
    ensures
      var o := GetOption(h, fmt, i).value;
      && o.h.islittle == (if fmt[i] == '<' as int || fmt[i] == '=' as int then true
                          else if fmt[i] == '>' as int then false else h.islittle)
      && o.h.maxalign == (if fmt[i] == '!' as int then NumberAt(fmt, i + 1, 8) else h.maxalign)
      && (HeaderSign(fmt[i]) ==> o.opt == Knop && o.size == 0)
  {
    if fmt[i] == 33 {
      NumberRead(fmt, i + 1, 8);
    }
    hide GetNumLimit, GetNum, NumberAt;
  }

  lemma {:induction false} NumeralDigits(fmt: seq<Char>, i: nat, a: nat)
    requires i <= |fmt|
    ensures forall j :: i <= j < Numeral(fmt, i, a).1 ==> '0' as int <= fmt[j] <= '9' as int
    decreases |fmt| - i
  {
    if i < |fmt| && IsDigit(fmt[i]) && a <= (MAXSIZE - 9) / 10 {
      NumeralDigits(fmt, i + 1, 10 * a + (fmt[i] - 48));
    }
  }

  /** Behind its letter an option has digits only. */
  lemma OptionDigits(h: Header, fmt: seq<Char>, i: nat)
    requires i < |fmt| && 0 < h.maxalign <= MAXINTSIZE && GetOption(h, fmt, i).Some?
    ensures
      var next := GetOption(h, fmt, i).value.next;
      next <= |fmt| && forall j :: i < j < next ==> '0' as int <= fmt[j] <= '9' as int
  {
    if IsDigit(At(fmt, i + 1)) {
      NumeralDigits(fmt, i + 2, fmt[i + 1] - 48);
    }
    hide Numeral;
  }

  /** What the option at `i` does to the header; none of its other characters is a sign for
      the header. */
  lemma DetailsHeader(h: Header, total: nat, fmt: seq<Char>, i: nat)
    requires i < |fmt| && 0 < h.maxalign <= MAXINTSIZE && GetDetails(h, total, fmt, i).Some?
    ensures
      var d := GetDetails(h, total, fmt, i).value;
      && i < d.next <= |fmt|
      && d.h.islittle == (if fmt[i] == '<' as int || fmt[i] == '=' as int then true
                          else if fmt[i] == '>' as int then false else h.islittle)
      && d.h.maxalign == (if fmt[i] == '!' as int then NumberAt(fmt, i + 1, 8) else h.maxalign)
      && forall j :: i < j < d.next ==> !HeaderSign(fmt[j])
  {
    OptionHeader(h, fmt, i);
    OptionDigits(h, fmt, i);
    var o := GetOption(h, fmt, i).value;
    if o.opt == Kpaddalign {
      OptionHeader(o.h, fmt, o.next);
      OptionDigits(o.h, fmt, o.next);
    }
    hide GetOption, NumberAt, PowerOf2;
  }

  lemma {:induction false} HeaderOver(fmt: seq<Char>, i: nat, j: nat)
    requires i <= j <= |fmt| && forall k :: i <= k < j ==> !HeaderSign(fmt[k])
    ensures Little(fmt, j) == Little(fmt, i) && MaxAlign(fmt, j) == MaxAlign(fmt, i)
    decreases j
  {
    if i < j {
      HeaderOver(fmt, i, j - 1);
    }
  }

  /** The header at an option is what the signs before it say. */
  lemma HeaderStep(h: Header, total: nat, fmt: seq<Char>, i: nat)
    requires i < |fmt| && 0 < h.maxalign <= MAXINTSIZE && GetDetails(h, total, fmt, i).Some?
    requires h.islittle == Little(fmt, i) && h.maxalign == MaxAlign(fmt, i)
    ensures
      var d := GetDetails(h, total, fmt, i).value;
      i < d.next <= |fmt| && d.h.islittle == Little(fmt, d.next) && d.h.maxalign == MaxAlign(fmt, d.next)
  {
    DetailsHeader(h, total, fmt, i);
    HeaderOver(fmt, i + 1, GetDetails(h, total, fmt, i).value.next);
    hide GetDetails, NumberAt;
  }

  // ---------- the options ----------

  /** What the letter of an option stands for. */
  datatype Sort = Signed | Unsigned | Counted | Fixed | Terminated | Filler | Nothing

  function SortOf(c: Char): Sort {
    if c == 'b' as int || c == 'h' as int || c == 'i' as int || c == 'l' as int || c == 'j' as int then Signed
    else if c == 'B' as int || c == 'H' as int || c == 'I' as int || c == 'L' as int || c == 'J' as int
      || c == 'T' as int then Unsigned
    else if c == 's' as int then Counted
    else if c == 'c' as int then Fixed
    else if c == 'z' as int then Terminated
    else if c == 'x' as int then Filler
    else Nothing
  }

  /** The size of the number that an option writes, or of its floating-point number. */
  function Width(fmt: seq<Char>, i: nat): nat
    requires i < |fmt|
  {
    var c := fmt[i];
    if c == 'b' as int || c == 'B' as int then 1
    else if c == 'h' as int || c == 'H' as int then 2
    else if c == 'i' as int || c == 'I' as int then NumberAt(fmt, i + 1, 4)
    else if c == 'l' as int || c == 'L' as int || c == 'j' as int || c == 'J' as int || c == 'T' as int then 8
    else if c == 's' as int then NumberAt(fmt, i + 1, 8)
    else if c == 'f' as int then 4
    else if c == 'd' as int || c == 'n' as int then 8
    else 0
  }

  /** The option is aligned to its size, but at most to the maximum alignment; `X` takes the
      size of the option behind it. */
  function Alignment(fmt: seq<Char>, i: nat): nat
    requires i < |fmt|
  {
    var w := if fmt[i] == 'X' as int && i + 1 < |fmt| then Width(fmt, i + 1) else Width(fmt, i);
    if w <= 1 then 1 else if w > MaxAlign(fmt, i) then MaxAlign(fmt, i) else w
  }

  lemma OptionSort(h: Header, fmt: seq<Char>, i: nat)
    requires i < |fmt| && 0 < h.maxalign <= MAXINTSIZE && GetOption(h, fmt, i).Some?
    ensures
      var o := GetOption(h, fmt, i).value;
      match SortOf(fmt[i])
      case Signed => o.opt == Kint && o.size == Width(fmt, i)
      case Unsigned => o.opt == Kuint && o.size == Width(fmt, i)
      case Counted => o.opt == Kstring && o.size == Width(fmt, i)
      case Fixed => o.opt == Kchar && (o.size < MAXSIZE / 10 ==> o.size == NumberAt(fmt, i + 1, 0))
      case Terminated => o.opt == Kzstr && o.size == 0
      case Filler => o.opt == Kpadding && o.size == 1
      case Nothing =>
        if fmt[i] == 'X' as int then o.opt == Kpaddalign && o.size == 0 && o.next == i + 1 && o.h == h
        else o.size == Width(fmt, i) && (o.opt == Knop || o.opt == Kfloat)
  {
    if fmt[i] == 99 {
      LargeNumber(fmt, i + 1);
    } else if fmt[i] == 's' as int {
      NumberRead(fmt, i + 1, 8);
    } else if fmt[i] == 'i' as int || fmt[i] == 'I' as int {
      NumberRead(fmt, i + 1, 4);
    }
    hide GetNumLimit, GetNum, NumberAt;
  }

  lemma {:induction false} LargeNumeral(fmt: seq<Char>, i: nat, a: nat)
    requires i <= |fmt| && Numeral(fmt, i, a).0 < MAXSIZE / 10
    ensures Numeral(fmt, i, a).0 == Decimal(fmt, i, a)
    decreases |fmt| - i
  {
    if i < |fmt| && IsDigit(fmt[i]) && a <= (MAXSIZE - 9) / 10 {
      LargeNumeral(fmt, i + 1, 10 * a + (fmt[i] - 48));
    }
  }

  lemma LargeNumber(fmt: seq<Char>, i: nat)
    requires i <= |fmt| && GetNum(fmt, i).Some?
    ensures GetNum(fmt, i).value.0 < MAXSIZE / 10 ==> GetNum(fmt, i).value.0 == NumberAt(fmt, i, 0)
  {
    if GetNum(fmt, i).value.0 < MAXSIZE / 10 {
      LargeNumeral(fmt, i + 1, fmt[i] - 48);
    }
  }

  /** The least multiple of `a` that is not below `total`. */
  function Start(total: nat, a: nat): (p: nat)
    requires a > 0
    ensures total <= p < total + a && p % a == 0
  {
    var r := total % a;
    assert total == a * (total / a) + r;
    if r == 0 then total else NextMultiple(total / a, a); a * (total / a + 1)
  }

  lemma NextMultiple(q: nat, a: nat)
    requires a > 0
    ensures a * (q + 1) % a == 0 && a * (q + 1) == a * q + a
  {
    Quotient(a * (q + 1), a, q + 1, 0);
    var x := a * (q + 1);
    assert x == a * (x / a) + x % a;
  }

  lemma StartGap(total: nat, a: nat)
    requires a > 0
    ensures total + (a - total % a) % a == Start(total, a)
  {
    var r := total % a;
    assert total == a * (total / a) + r;
    if r == 0 {
      Quotient(a, a, 1, 0);
      assert a == a * (a / a) + a % a;
    } else {
      Quotient(a - r, a, 0, a - r);
      assert a - r == a * ((a - r) / a) + (a - r) % a;
      NextMultiple(total / a, a);
    }
  }

  /** The option whose size counts for the alignment. */
  lemma AlignOption(h: Header, fmt: seq<Char>, i: nat)
    requires i < |fmt| && 0 < h.maxalign <= MAXINTSIZE && h.maxalign == MaxAlign(fmt, i)
    requires GetOption(h, fmt, i).Some? && AlignOf(GetOption(h, fmt, i).value, fmt).Some?
    ensures
      var o := GetOption(h, fmt, i).value;
      var x := AlignOf(o, fmt).value;
      && Alignment(fmt, i) ==
         (if x.size <= 1 || o.opt == Kchar then 1 else if x.size > x.h.maxalign then x.h.maxalign else x.size)
      && (o.opt != Kpaddalign ==> x == o)
  {
    OptionHeader(h, fmt, i);
    OptionSort(h, fmt, i);
    var o := GetOption(h, fmt, i).value;
    if o.opt == Kpaddalign {
      OptionHeader(o.h, fmt, i + 1);
      OptionSort(o.h, fmt, i + 1);
    }
    hide GetOption, NumberAt, MaxAlign, MAXSIZE;
  }

  lemma AlignmentOk(h: Header, total: nat, fmt: seq<Char>, i: nat)
    requires i < |fmt| && 0 < h.maxalign <= MAXINTSIZE && GetDetails(h, total, fmt, i).Some?
    requires h.maxalign == MaxAlign(fmt, i)
    ensures
      var d, o := GetDetails(h, total, fmt, i).value, GetOption(h, fmt, i);
      && Alignment(fmt, i) > 0 && total + d.ntoalign == Start(total, Alignment(fmt, i))
      && o.Some? && d.opt == o.value.opt && d.size == o.value.size && (o.value.opt != Kpaddalign ==> d.h == o.value.h)
  {
    hide GetOption, NumberAt, MaxAlign, AlignOf, Alignment, Start, GetDetails;
    DetailsGap(h, total, fmt, i);
    AlignOption(h, fmt, i);
    if Alignment(fmt, i) == 1 {
      StartSame(total);
    }
    StartGap(total, Alignment(fmt, i));
  }

  /** The padding as it is computed. */
  lemma DetailsGap(h: Header, total: nat, fmt: seq<Char>, i: nat)
    requires i < |fmt| && 0 < h.maxalign <= MAXINTSIZE && GetDetails(h, total, fmt, i).Some?
    ensures GetOption(h, fmt, i).Some? && AlignOf(GetOption(h, fmt, i).value, fmt).Some?
    ensures
      var d, o := GetDetails(h, total, fmt, i).value, GetOption(h, fmt, i).value;
      var x := AlignOf(o, fmt).value;
      var a := if x.size > x.h.maxalign then x.h.maxalign else x.size;
      && d.opt == o.opt && d.size == o.size && d.h == x.h
      && (x.size <= 1 || o.opt == Kchar ==> d.ntoalign == 0)
      && (x.size > 1 && o.opt != Kchar ==> a > 0 && d.ntoalign == (a - total % a) % a)
  {
    hide GetOption, AlignOf;
  }

  lemma StartSame(total: nat)
    ensures Start(total, 1) == total
  {
  }

  /** An option and its place, with the byte order that counts for it. */
  lemma DetailsSort(h: Header, total: nat, fmt: seq<Char>, i: nat)
    requires i < |fmt| && 0 < h.maxalign <= MAXINTSIZE && GetDetails(h, total, fmt, i).Some?
    requires h.maxalign == MaxAlign(fmt, i)
    ensures
      var d := GetDetails(h, total, fmt, i).value;
      && Alignment(fmt, i) > 0 && total + d.ntoalign == Start(total, Alignment(fmt, i))
      && (SortOf(fmt[i]) != Nothing ==> d.h.islittle == h.islittle)
      && match SortOf(fmt[i])
         case Signed => d.opt == Kint && d.size == Width(fmt, i)
         case Unsigned => d.opt == Kuint && d.size == Width(fmt, i)
         case Counted => d.opt == Kstring && d.size == Width(fmt, i)
         case Fixed => d.opt == Kchar && (d.size < MAXSIZE / 10 ==> d.size == NumberAt(fmt, i + 1, 0))
         case Terminated => d.opt == Kzstr && d.size == 0
         case Filler => d.opt == Kpadding && d.size == 1
         case Nothing => d.opt == Kfloat || ((d.opt == Knop || d.opt == Kpaddalign) && d.size == 0)
  {
    AlignmentOk(h, total, fmt, i);
    OptionHeader(h, fmt, i);
    OptionSort(h, fmt, i);
    hide GetOption, NumberAt, MaxAlign, GetDetails, Alignment, Start;
    NopSize(h, fmt, i);
  }

  lemma NopSize(h: Header, fmt: seq<Char>, i: nat)
    requires i < |fmt| && 0 < h.maxalign <= MAXINTSIZE && GetOption(h, fmt, i).Some?
    ensures GetOption(h, fmt, i).value.opt == Knop ==> GetOption(h, fmt, i).value.size == 0
  {
    hide GetNumLimit, GetNum;
  }

  // ---------- the string ----------

  /** Where the packing stands before an option: the header, the index of the option, the
      bytes and the arguments before it. */
  datatype Spot = Spot(h: Header, i: nat, total: nat, k: nat)

  /** The spot after `n` options, unless the format ends before or the packing fails. */
  function SpotAfter(fmt: seq<Char>, args: seq<Value>, n: nat): (r: Option<Spot>)
    ensures r.Some? ==> r.value.i <= |fmt| && 0 < r.value.h.maxalign <= MAXINTSIZE && r.value.k <= |args|
  {
    if n == 0 then Some(Spot(START, 0, 0, 0))
    else
      var p := SpotAfter(fmt, args, n - 1);
      if p.None? || p.value.i == |fmt| || fmt[p.value.i] == 0 then None else NextSpot(fmt, args, p.value)
  }

  function NextSpot(fmt: seq<Char>, args: seq<Value>, p: Spot): (r: Option<Spot>)
    requires p.i < |fmt| && 0 < p.h.maxalign <= MAXINTSIZE && p.k <= |args|
    ensures r.Some? ==> p.i < r.value.i <= |fmt| && 0 < r.value.h.maxalign <= MAXINTSIZE && r.value.k <= |args|
  {
    var d := GetDetails(p.h, p.total, fmt, p.i);
    if d.None? then None
    else
      var d := d.value;
      if !TakesArgument(d.opt) then Some(Spot(d.h, d.next, p.total + d.ntoalign + d.size, p.k))
      else if p.k == |args| || Item(d, args[p.k]).None? then None
      else Some(Spot(d.h, d.next, p.total + d.ntoalign + |Item(d, args[p.k]).value|, p.k + 1))
  }

  /** The rest of the string comes from the rest of the format. */
  ghost predicate Rest(fmt: seq<Char>, args: seq<Value>, b: seq<Byte>, p: Spot)
    requires p.i <= |fmt| && 0 < p.h.maxalign <= MAXINTSIZE && p.k <= |args|
  {
    && p.total <= |b| && PackFrom(p.h, fmt, p.i, p.total, args, p.k) == Some(b[p.total..])
    && p.h.islittle == Little(fmt, p.i) && p.h.maxalign == MaxAlign(fmt, p.i)
  }

  /** What the option at a spot writes: the gap, its own bytes, and then the rest. */
  lemma SpotStep(fmt: seq<Char>, args: seq<Value>, b: seq<Byte>, p: Spot)
    requires p.i < |fmt| && fmt[p.i] != 0 && 0 < p.h.maxalign <= MAXINTSIZE && p.k <= |args| && Rest(fmt, args, b, p)
    ensures GetDetails(p.h, p.total, fmt, p.i).Some? && NextSpot(fmt, args, p).Some?
    ensures
      var d, q := GetDetails(p.h, p.total, fmt, p.i).value, NextSpot(fmt, args, p).value;
      && Rest(fmt, args, b, q) && p.total + d.ntoalign <= q.total
      && b[p.total..p.total + d.ntoalign] == Zeros(d.ntoalign)
      && (d.opt == Kint || d.opt == Kuint || d.opt == Kstring ==> d.size > 0) && d.opt != Kfloat
      && if TakesArgument(d.opt) then
           && p.k < |args| && q.k == p.k + 1
           && Item(d, args[p.k]) == Some(b[p.total + d.ntoalign..q.total])
         else
           q.k == p.k && b[p.total + d.ntoalign..q.total] == Zeros(d.size)
  {
    hide PackFrom, GetDetails, Item, TakesArgument, Zeros, Little, MaxAlign, NextSpot;
    var x := NextPart(fmt, args, p, b[p.total..]);
    var d, q := GetDetails(p.h, p.total, fmt, p.i).value, NextSpot(fmt, args, p).value;
    HeaderStep(p.h, p.total, fmt, p.i);
    ZerosSize(d.ntoalign);
    Parts(b, p.total, Zeros(d.ntoalign), x, PackFrom(q.h, fmt, q.i, q.total, args, q.k).value);
  }

  /** The first option of what is packed at a spot. */
  lemma NextPart(fmt: seq<Char>, args: seq<Value>, p: Spot, c: seq<Byte>) returns (x: seq<Byte>)
    requires p.i < |fmt| && fmt[p.i] != 0 && 0 < p.h.maxalign <= MAXINTSIZE && p.k <= |args|
    requires PackFrom(p.h, fmt, p.i, p.total, args, p.k) == Some(c)
    ensures GetDetails(p.h, p.total, fmt, p.i).Some? && NextSpot(fmt, args, p).Some?
    ensures
      var d, q := GetDetails(p.h, p.total, fmt, p.i).value, NextSpot(fmt, args, p).value;
      && q.i <= |fmt| && 0 < q.h.maxalign <= MAXINTSIZE && q.k <= |args| && q.h == d.h && q.i == d.next
      && q.total == p.total + d.ntoalign + |x| && PackFrom(q.h, fmt, q.i, q.total, args, q.k).Some?
      && c == Zeros(d.ntoalign) + x + PackFrom(q.h, fmt, q.i, q.total, args, q.k).value
      && (d.opt == Kint || d.opt == Kuint || d.opt == Kstring ==> d.size > 0) && d.opt != Kfloat
      && if TakesArgument(d.opt) then p.k < |args| && q.k == p.k + 1 && Item(d, args[p.k]) == Some(x)
         else q.k == p.k && x == Zeros(d.size)
  {
    hide PackFrom, GetDetails, Item, TakesArgument, Zeros, After;
    PackStep(p.h, fmt, p.i, p.total, args, p.k);
    var d := GetDetails(p.h, p.total, fmt, p.i).value;
    if TakesArgument(d.opt) {
      NoFloat(d, args[p.k]);
      x := Item(d, args[p.k]).value;
      var total := p.total + d.ntoalign + |x|;
      AfterParts(Zeros(d.ntoalign) + x, PackFrom(d.h, fmt, d.next, total, args, p.k + 1), c);
    } else {
      FloatTakes();
      x := Zeros(d.size);
      ZerosSize(d.size);
      var total := p.total + d.ntoalign + d.size;
      AfterParts(Zeros(d.ntoalign) + x, PackFrom(d.h, fmt, d.next, total, args, p.k), c);
    }
  }

  lemma NoFloat(d: Details, v: Value)
    requires d.opt == Kint || d.opt == Kuint || d.opt == Kstring ==> d.size > 0
    requires Item(d, v).Some?
    ensures d.opt != Kfloat
  {
  }

  lemma FloatTakes()
    ensures TakesArgument(Kfloat)
  {
  }

  lemma AfterParts(a: seq<Byte>, rest: Option<seq<Byte>>, c: seq<Byte>)
    requires After(a, rest) == Some(c)
    ensures rest.Some? && c == a + rest.value
  {
  }

  lemma Parts(b: seq<Byte>, n: nat, x: seq<Byte>, y: seq<Byte>, z: seq<Byte>)
    requires n <= |b| && b[n..] == x + y + z
    ensures n + |x| + |y| <= |b|
    ensures b[n..n + |x|] == x && b[n + |x|..n + |x| + |y|] == y && b[n + |x| + |y|..] == z
  {
    var t := b[n..];
    assert b[n..n + |x|] == t[..|x|] == x;
    assert b[n + |x|..n + |x| + |y|] == t[|x|..|x| + |y|] == y;
    assert b[n + |x| + |y|..] == t[|x| + |y|..] == z;
  }

  lemma {:induction false} SpotRest(fmt: seq<Char>, args: seq<Value>, b: seq<Byte>, n: nat)
    requires PackFrom(START, fmt, 0, 0, args, 0) == Some(b) && SpotAfter(fmt, args, n).Some?
    ensures Rest(fmt, args, b, SpotAfter(fmt, args, n).value)
    decreases n
  {
    hide PackFrom, NextSpot;
    if n == 0 {
      assert b[0..] == b;
    } else {
      SpotRest(fmt, args, b, n - 1);
      SpotStep(fmt, args, b, SpotAfter(fmt, args, n - 1).value);
    }
  }

  /** Byte `j` of a number of `size` bytes is at its place for the byte order. */
  ghost predicate NumberIn(b: seq<Byte>, pos: nat, size: nat, little: bool, n: int) {
    pos + size <= |b| && forall j :: 0 <= j < size ==> b[pos + (if little then j else size - 1 - j)] == Octet(n, j)
  }

  /** What an option at index `i` has written from `pos` to `end` for the value `v`. */
  ghost predicate Written(fmt: seq<Char>, i: nat, b: seq<Byte>, pos: nat, end: nat, v: Value)
    requires i < |fmt| && pos <= end <= |b|
  {
    match SortOf(fmt[i])
    case Signed =>
      v.Integer? && end == pos + Width(fmt, i) && NumberIn(b, pos, Width(fmt, i), Little(fmt, i), v.n)
    case Unsigned =>
      && v.Integer? && end == pos + Width(fmt, i)
      && NumberIn(b, pos, Width(fmt, i), Little(fmt, i), if v.n < 0 then v.n + TWO64 else v.n)
    case Counted =>
      && v.Str? && NumberIn(b, pos, Width(fmt, i), Little(fmt, i), |v.s|)
      && pos + Width(fmt, i) <= end && b[pos + Width(fmt, i)..end] == v.s
    case Fixed =>
      && v.Str? && pos + |v.s| <= end && b[pos..pos + |v.s|] == v.s
      && (forall j :: pos + |v.s| <= j < end ==> b[j] == 0)
      && (end - pos < MAXSIZE / 10 ==> end - pos == NumberAt(fmt, i + 1, 0))
    case Terminated =>
      v.Str? && end == pos + |v.s| + 1 && b[pos..end - 1] == v.s && b[end - 1] == 0 && 0 !in v.s
    case Filler => end == pos + 1 && b[pos] == 0
    case Nothing => end == pos
  }

  /** Which options take an argument. */
  predicate Takes(c: Char) {
    SortOf(c) != Filler && SortOf(c) != Nothing
  }

  lemma IntegerIn(b: seq<Byte>, pos: nat, end: nat, x: seq<Byte>, size: nat, little: bool, t: nat, n: int)
    requires pos <= end <= |b| && b[pos..end] == x && x == Ordered(Bytes(t, size), little)
    requires forall j :: 0 <= j < size ==> Octet(t, j) == Octet(n, j)
    ensures end == pos + size && NumberIn(b, pos, size, little, n)
  {
    hide Octet, Bytes;
    forall j | 0 <= j < size ensures b[pos + (if little then j else size - 1 - j)] == Octet(n, j) {
      OctetBytes(t, size, j);
      var k := if little then j else size - 1 - j;
      assert b[pos..end][k] == b[pos + k];
    }
  }

  /** A word with its sign in the extra bytes is the number in two's complement. */
  lemma SignedOctets(n: int, size: nat, j: nat)
    requires -TWO63 <= n < TWO63 && j < size
    ensures Octet(Extended(ToUnsigned(n), size, n < 0), j) == Octet(n, j)
  {
    Power8();
    hide Octet;
    if n < 0 && size > SZINT {
      OctetPeriod(n, size, j);
    } else if n < 0 {
      OctetPeriod(n, 8, j);
    }
  }

  lemma ItemWritten(fmt: seq<Char>, i: nat, d: Details, v: Value, b: seq<Byte>, pos: nat, end: nat)
    requires i < |fmt| && pos <= end <= |b| && (d.opt == Kint || d.opt == Kuint || d.opt == Kstring ==> d.size > 0)
    requires Takes(fmt[i]) && Item(d, v) == Some(b[pos..end]) && d.h.islittle == Little(fmt, i)
    requires match SortOf(fmt[i])
      case Signed => d.opt == Kint && d.size == Width(fmt, i)
      case Unsigned => d.opt == Kuint && d.size == Width(fmt, i)
      case Counted => d.opt == Kstring && d.size == Width(fmt, i)
      case Fixed => d.opt == Kchar && (d.size < MAXSIZE / 10 ==> d.size == NumberAt(fmt, i + 1, 0))
      case _ => d.opt == Kzstr && d.size == 0
    ensures Written(fmt, i, b, pos, end, v)
  {
    hide Width, Little, SortOf, NumberAt, NumberIn, Item;
    match d.opt
    case Kint => SignedIn(d, v, b, pos, end);
    case Kuint => UnsignedIn(d, v, b, pos, end);
    case Kstring => CountedIn(d, v, b, pos, end);
    case Kchar => FixedIn(d, v, b, pos, end);
    case Kzstr => TerminatedIn(d, v, b, pos, end);
    case _ =>
  }

  lemma SignedIn(d: Details, v: Value, b: seq<Byte>, pos: nat, end: nat)
    requires d.opt == Kint && d.size > 0 && pos <= end <= |b| && Item(d, v) == Some(b[pos..end])
    ensures v.Integer? && end == pos + d.size && NumberIn(b, pos, d.size, d.h.islittle, v.n)
  {
    hide Bytes, Octet, NumberIn, Ordered, Extended, Power256;
    var t := Extended(ToUnsigned(v.n), d.size, v.n < 0);
    forall j | 0 <= j < d.size ensures Octet(t, j) == Octet(v.n, j) {
      SignedOctets(v.n, d.size, j);
    }
    IntegerIn(b, pos, end, b[pos..end], d.size, d.h.islittle, t, v.n);
  }

  lemma UnsignedIn(d: Details, v: Value, b: seq<Byte>, pos: nat, end: nat)
    requires d.opt == Kuint && d.size > 0 && pos <= end <= |b| && Item(d, v) == Some(b[pos..end])
    ensures v.Integer? && end == pos + d.size
    ensures NumberIn(b, pos, d.size, d.h.islittle, if v.n < 0 then v.n + TWO64 else v.n)
  {
    hide Bytes, Octet, NumberIn, Ordered, Power256;
    IntegerIn(b, pos, end, b[pos..end], d.size, d.h.islittle, ToUnsigned(v.n), ToUnsigned(v.n));
  }

  lemma FixedIn(d: Details, v: Value, b: seq<Byte>, pos: nat, end: nat)
    requires d.opt == Kchar && pos <= end <= |b| && Item(d, v) == Some(b[pos..end])
    ensures v.Str? && pos + |v.s| <= end == pos + d.size && b[pos..pos + |v.s|] == v.s
    ensures forall j :: pos + |v.s| <= j < end ==> b[j] == 0
  {
    var x := b[pos..end];
    assert b[pos..pos + |v.s|] == x[..|v.s|];
    forall j | pos + |v.s| <= j < end ensures b[j] == 0 {
      assert b[j] == x[j - pos];
    }
  }

  lemma TerminatedIn(d: Details, v: Value, b: seq<Byte>, pos: nat, end: nat)
    requires d.opt == Kzstr && pos <= end <= |b| && Item(d, v) == Some(b[pos..end])
    ensures v.Str? && end == pos + |v.s| + 1 && b[pos..end - 1] == v.s && b[end - 1] == 0 && 0 !in v.s
  {
    var x := b[pos..end];
    assert b[pos..end - 1] == x[..|v.s|] && b[end - 1] == x[|v.s|];
  }

  lemma CountedIn(d: Details, v: Value, b: seq<Byte>, pos: nat, end: nat)
    requires d.opt == Kstring && d.size > 0 && pos <= end <= |b| && Item(d, v) == Some(b[pos..end])
    ensures v.Str? && NumberIn(b, pos, d.size, d.h.islittle, |v.s|)
    ensures pos + d.size <= end && b[pos + d.size..end] == v.s
  {
    ItemString(d, v);
    hide Item, NumberIn, Ordered, Octet, Bytes;
    var n := Ordered(Bytes(|v.s|, d.size), d.h.islittle);
    var x := b[pos..end];
    assert b[pos..pos + d.size] == x[..d.size] == n;
    assert b[pos + d.size..end] == x[d.size..] == v.s;
    IntegerIn(b, pos, pos + d.size, n, d.size, d.h.islittle, |v.s|, |v.s|);
  }

  /** Every option of a format is written where its alignment wants it, with the bytes of
      its argument in the byte order of the last order sign, and nothing else is written. */
  lemma Layout(fmt: seq<Char>, args: seq<Value>, b: seq<Byte>, n: nat)
    requires PackFrom(START, fmt, 0, 0, args, 0) == Some(b) && SpotAfter(fmt, args, n).Some?
    ensures
      var p := SpotAfter(fmt, args, n).value;
      if p.i == |fmt| || fmt[p.i] == 0 then p.total == |b|
      else
        var r := SpotAfter(fmt, args, n + 1);
        && r.Some? && Alignment(fmt, p.i) > 0
        && var pos, q := Start(p.total, Alignment(fmt, p.i)), r.value;
        && pos <= q.total <= |b| && q.k == p.k + (if Takes(fmt[p.i]) then 1 else 0) && p.i < q.i
        && (forall j :: p.total <= j < pos ==> b[j] == 0)
        && (Takes(fmt[p.i]) ==> p.k < |args| && Written(fmt, p.i, b, pos, q.total, args[p.k]))
        && (!Takes(fmt[p.i]) ==> Written(fmt, p.i, b, pos, q.total, Str([])))
  {
    SpotRest(fmt, args, b, n);
    var p := SpotAfter(fmt, args, n).value;
    if p.i == |fmt| || fmt[p.i] == 0 {
      PackDone(p.h, fmt, p.i, p.total, args, p.k);
    } else {
      OptionLayout(fmt, args, b, p);
    }
  }

  lemma OptionLayout(fmt: seq<Char>, args: seq<Value>, b: seq<Byte>, p: Spot)
    requires p.i < |fmt| && fmt[p.i] != 0 && 0 < p.h.maxalign <= MAXINTSIZE && p.k <= |args| && Rest(fmt, args, b, p)
    ensures NextSpot(fmt, args, p).Some? && Alignment(fmt, p.i) > 0
    ensures
      var pos, q := Start(p.total, Alignment(fmt, p.i)), NextSpot(fmt, args, p).value;
      && pos <= q.total <= |b| && q.k == p.k + (if Takes(fmt[p.i]) then 1 else 0) && p.i < q.i
      && (forall j :: p.total <= j < pos ==> b[j] == 0)
      && (Takes(fmt[p.i]) ==> p.k < |args| && Written(fmt, p.i, b, pos, q.total, args[p.k]))
      && (!Takes(fmt[p.i]) ==> Written(fmt, p.i, b, pos, q.total, Str([])))
  {
    hide PackFrom, GetDetails, Item, Alignment, Start, Little, MaxAlign, Width, SortOf, NumberAt, Written, NextSpot,
         Zeros, TakesArgument;
    SpotStep(fmt, args, b, p);
    DetailsSort(p.h, p.total, fmt, p.i);
    ArgumentsTaken();
    var d, q := GetDetails(p.h, p.total, fmt, p.i).value, NextSpot(fmt, args, p).value;
    var pos := p.total + d.ntoalign;
    ZerosIn(b, p.total, pos);
    if Takes(fmt[p.i]) {
      ItemWritten(fmt, p.i, d, args[p.k], b, pos, q.total);
    } else {
      NothingWritten(fmt, p.i, d, b, pos, q.total);
    }
  }

  lemma ArgumentsTaken()
    ensures forall opt :: TakesArgument(opt) <==> opt != Kpadding && opt != Kpaddalign && opt != Knop
  {
  }

  lemma ZerosIn(b: seq<Byte>, i: nat, j: nat)
    requires i <= j <= |b| && b[i..j] == Zeros(j - i)
    ensures forall k :: i <= k < j ==> b[k] == 0
  {
    forall k | i <= k < j ensures b[k] == 0 {
      assert b[k] == b[i..j][k - i];
    }
  }

  lemma NothingWritten(fmt: seq<Char>, i: nat, d: Details, b: seq<Byte>, pos: nat, end: nat)
    requires i < |fmt| && pos <= end <= |b| && !Takes(fmt[i]) && b[pos..end] == Zeros(d.size)
    requires d.size == if SortOf(fmt[i]) == Filler then 1 else 0
    ensures Written(fmt, i, b, pos, end, Str([]))
  {
    hide SortOf;
    assert d.size == 1 ==> b[pos] == b[pos..end][0];
  }
}
