/** Packing values into a string by a format, and unpacking them. */
module StringPack {
  import opened Options
  import opened PackIntegers

  type Char = Byte

  // Sizes of the machine's types.
  const SIZEOF_SHORT: nat := 2
  const SIZEOF_INT: nat := 4
  const SIZEOF_LONG: nat := 8
  const SIZEOF_SIZE_T: nat := 8
  const SIZEOF_FLOAT: nat := 4
  const SIZEOF_NUMBER: nat := 8
  const MAXALIGN: nat := 8
  const MAXINTSIZE: nat := 16
  const MAXSIZE: nat := 0x7FFFFFFF
  const NATIVE_LITTLE := true

  datatype KOption = Kint | Kuint | Kfloat | Kchar | Kstring | Kzstr | Kpadding | Kpaddalign | Knop

  datatype Header = Header(islittle: bool, maxalign: nat)

  datatype Value = Integer(n: int) | Str(s: seq<Byte>)

  // ---------- options of a format ----------

  function At(fmt: seq<Char>, i: nat): Char {
    if i < |fmt| then fmt[i] else 0
  }

  predicate IsDigit(c: int) { 48 <= c <= 57 }

  /** Reads digits from `i` on, as long as the number stays small. */
  function Numeral(fmt: seq<Char>, i: nat, a: nat): (r: (nat, nat))
    ensures r.1 >= i && (i <= |fmt| ==> r.1 <= |fmt|)
    decreases |fmt| - i
  {
    if i < |fmt| && IsDigit(fmt[i]) && a <= (MAXSIZE - 9) / 10 then Numeral(fmt, i + 1, 10 * a + (fmt[i] - 48))
    else (a, i)
  }

  /** A numeral at `i`, and where it ends. */
  function GetNum(fmt: seq<Char>, i: nat): (r: Option<(nat, nat)>)
    ensures r.Some? ==> i < r.value.1 <= |fmt|
  {
    if !IsDigit(At(fmt, i)) then None else Some(Numeral(fmt, i + 1, fmt[i] - 48))
  }

  method ReadNum(fmt: seq<Char>, i0: nat) returns (r: Option<(nat, nat)>)
    ensures r == GetNum(fmt, i0)
  {
    if !IsDigit(At(fmt, i0)) {
      return None;
    }
    var a: nat, i := 0, i0;
    while true
      invariant i0 <= i < |fmt| && IsDigit(fmt[i]) && a <= (MAXSIZE - 9) / 10
      invariant Some(Numeral(fmt, i + 1, 10 * a + (fmt[i] - 48))) == GetNum(fmt, i0)
      decreases |fmt| - i
    {
      a := 10 * a + (fmt[i] - 48);
      i := i + 1;
      if !(IsDigit(At(fmt, i)) && a <= (MAXSIZE - 9) / 10) {
        break;
      }
    }
    r := Some((a, i));
  }

  /** The size of an integer option: the default, or the numeral if it is in the limits. */
  function GetNumLimit(fmt: seq<Char>, i: nat, df: nat): (r: Option<(nat, nat)>)
    requires i <= |fmt| && 0 < df <= MAXINTSIZE
    ensures r.Some? ==> i <= r.value.1 <= |fmt| && 0 < r.value.0 <= MAXINTSIZE
  {
    var x := GetNum(fmt, i);
    if x.None? then Some((df, i)) else if x.value.0 > MAXINTSIZE || x.value.0 == 0 then None else x
  }

  /** An option with its size, the header after it, and where the next one begins. */
  datatype Parsed = Parsed(opt: KOption, size: nat, h: Header, next: nat)

  function Sized(x: Option<(nat, nat)>, opt: KOption, h: Header): Option<Parsed> {
    if x.None? then None else Some(Parsed(opt, x.value.0, h, x.value.1))
  }

  function GetOption(h: Header, fmt: seq<Char>, i: nat): (r: Option<Parsed>)
    requires i < |fmt| && 0 < h.maxalign <= MAXINTSIZE
    ensures r.Some? ==> i < r.value.next <= |fmt| && 0 < r.value.h.maxalign <= MAXINTSIZE
    ensures r.Some? && (r.value.opt == Kint || r.value.opt == Kuint || r.value.opt == Kstring) ==>
      0 < r.value.size <= MAXINTSIZE
  {
    var c, j := fmt[i], i + 1;
    if c == 98 then Some(Parsed(Kint, 1, h, j))
    else if c == 66 then Some(Parsed(Kuint, 1, h, j))
    else if c == 104 then Some(Parsed(Kint, SIZEOF_SHORT, h, j))
    else if c == 72 then Some(Parsed(Kuint, SIZEOF_SHORT, h, j))
    else if c == 108 then Some(Parsed(Kint, SIZEOF_LONG, h, j))
    else if c == 76 then Some(Parsed(Kuint, SIZEOF_LONG, h, j))
    else if c == 106 then Some(Parsed(Kint, SZINT, h, j))
    else if c == 74 then Some(Parsed(Kuint, SZINT, h, j))
    else if c == 84 then Some(Parsed(Kuint, SIZEOF_SIZE_T, h, j))
    else if c == 102 then Some(Parsed(Kfloat, SIZEOF_FLOAT, h, j))
    else if c == 100 || c == 110 then Some(Parsed(Kfloat, SIZEOF_NUMBER, h, j))
    else if c == 105 then Sized(GetNumLimit(fmt, j, SIZEOF_INT), Kint, h)
    else if c == 73 then Sized(GetNumLimit(fmt, j, SIZEOF_INT), Kuint, h)
    else if c == 115 then Sized(GetNumLimit(fmt, j, SIZEOF_SIZE_T), Kstring, h)
    else if c == 99 then Sized(GetNum(fmt, j), Kchar, h)
    else if c == 122 then Some(Parsed(Kzstr, 0, h, j))
    else if c == 120 then Some(Parsed(Kpadding, 1, h, j))
    else if c == 88 then Some(Parsed(Kpaddalign, 0, h, j))
    else if c == 32 then Some(Parsed(Knop, 0, h, j))
    else if c == 60 then Some(Parsed(Knop, 0, h.(islittle := true), j))
    else if c == 62 then Some(Parsed(Knop, 0, h.(islittle := false), j))
    else if c == 61 then Some(Parsed(Knop, 0, h.(islittle := NATIVE_LITTLE), j))
    else if c == 33 then
      var x := GetNumLimit(fmt, j, MAXALIGN);
      if x.None? then None else Some(Parsed(Knop, 0, h.(maxalign := x.value.0), x.value.1))
    else None
  }

  predicate PowerOf2(n: nat) {
    n == 1 || n == 2 || n == 4 || n == 8 || n == 16
  }

  /** The next option and how many bytes must be skipped before it. */
  datatype Details = Details(opt: KOption, size: nat, ntoalign: nat, h: Header, next: nat)

  /** The size that counts for the alignment; the option `X` takes that of the option after
      it, which it swallows. */
  function AlignOf(o: Parsed, fmt: seq<Char>): (r: Option<Parsed>)
    requires o.next <= |fmt| && 0 < o.h.maxalign <= MAXINTSIZE
    ensures r.Some? ==> o.next <= r.value.next <= |fmt| && 0 < r.value.h.maxalign <= MAXINTSIZE
  {
    if o.opt != Kpaddalign then Some(o)
    else if o.next == |fmt| then None
    else
      var x := GetOption(o.h, fmt, o.next);
      if x.None? || x.value.opt == Kchar || x.value.size == 0 then None else x
  }

  function GetDetails(h: Header, total: nat, fmt: seq<Char>, i: nat): (r: Option<Details>)
    requires i < |fmt| && 0 < h.maxalign <= MAXINTSIZE
    ensures r.Some? ==> i < r.value.next <= |fmt| && 0 < r.value.h.maxalign <= MAXINTSIZE
    ensures r.Some? && (r.value.opt == Kint || r.value.opt == Kuint || r.value.opt == Kstring) ==>
      0 < r.value.size <= MAXINTSIZE
    ensures r.Some? && (r.value.opt == Kzstr || r.value.opt == Kpaddalign || r.value.opt == Knop) ==> r.value.size == 0
    ensures r.Some? && r.value.opt == Kpadding ==> r.value.size == 1
  {
    var o := GetOption(h, fmt, i);
    if o.None? then None
    else
      var x := AlignOf(o.value, fmt);
      if x.None? then None
      else if x.value.size <= 1 || o.value.opt == Kchar then
        Some(Details(o.value.opt, o.value.size, 0, x.value.h, x.value.next))
      else
        var align := if x.value.size > x.value.h.maxalign then x.value.h.maxalign else x.value.size;
        if !PowerOf2(align) then None
        else Some(Details(o.value.opt, o.value.size, (align - total % align) % align, x.value.h, x.value.next))
  }

  // ---------- packing ----------

  function Zeros(n: nat): (z: seq<Byte>)
    ensures |z| == n
  {
    seq(n, i => 0)
  }

  /** What one option writes for its argument, unless the argument does not fit. */
  function Item(d: Details, v: Value): (r: Option<seq<Byte>>)
    requires d.opt == Kint || d.opt == Kuint || d.opt == Kstring ==> d.size > 0
  {
    match d.opt
    case Kint =>
      if !v.Integer? || !(-TWO63 <= v.n < TWO63) then None
      else if d.size < SZINT && !(-(Power256(d.size) as int) <= 2 * v.n < Power256(d.size)) then None
      else Some(Ordered(Bytes(Extended(ToUnsigned(v.n), d.size, v.n < 0), d.size), d.h.islittle))
    case Kuint =>
      if !v.Integer? || !(-TWO63 <= v.n < TWO63) then None
      else if d.size < SZINT && ToUnsigned(v.n) >= Power256(d.size) then None
      else Some(Ordered(Bytes(ToUnsigned(v.n), d.size), d.h.islittle))
    case Kchar => if v.Str? && |v.s| <= d.size then Some(v.s + Zeros(d.size - |v.s|)) else None
    case Kstring =>
      if !v.Str? || |v.s| >= TWO64 || (d.size < SIZEOF_SIZE_T && |v.s| >= Power256(d.size)) then None
      else Some(Ordered(Bytes(|v.s|, d.size), d.h.islittle) + v.s)
    case Kzstr => if v.Str? && forall i :: 0 <= i < |v.s| ==> v.s[i] != 0 then Some(v.s + [0]) else None
    case _ => None
  }

  predicate TakesArgument(opt: KOption) {
    opt != Kpadding && opt != Kpaddalign && opt != Knop
  }

  /** The string after what was written before. */
  function After(b: seq<Byte>, rest: Option<seq<Byte>>): Option<seq<Byte>> {
    if rest.None? then None else Some(b + rest.value)
  }

  /** The string for the rest of the format and of the arguments; `total` bytes are written. */
  function PackFrom(h: Header, fmt: seq<Char>, i: nat, total: nat, args: seq<Value>, k: nat): Option<seq<Byte>>
    requires i <= |fmt| && 0 < h.maxalign <= MAXINTSIZE && k <= |args|
    decreases |fmt| - i
  {
    if i == |fmt| || fmt[i] == 0 then Some([])
    else
      var d := GetDetails(h, total, fmt, i);
      if d.None? then None
      else
        var d := d.value;
        var gap := Zeros(d.ntoalign);
        if !TakesArgument(d.opt) then
          var x := Zeros(d.size);
          After(gap + x, PackFrom(d.h, fmt, d.next, total + d.ntoalign + d.size, args, k))
        else if k == |args| then None
        else
          var x := Item(d, args[k]);
          if x.None? then None
          else After(gap + x.value, PackFrom(d.h, fmt, d.next, total + d.ntoalign + |x.value|, args, k + 1))
  }

  lemma AfterNothing(rest: Option<seq<Byte>>)
    ensures After([], rest) == rest
  {
    assert rest.Some? ==> [] + rest.value == rest.value;
  }

  lemma AfterMore(b: seq<Byte>, x: seq<Byte>, y: seq<Byte>, rest: Option<seq<Byte>>)
    ensures After(b, After(x + y, rest)) == After(b + x + y, rest)
  {
    if rest.Some? {
      assert b + (x + y + rest.value) == b + x + y + rest.value;
    }
  }

  /** What the first option contributes. */
  lemma PackStep(h: Header, fmt: seq<Char>, i: nat, total: nat, args: seq<Value>, k: nat)
    requires i < |fmt| && fmt[i] != 0 && 0 < h.maxalign <= MAXINTSIZE && k <= |args|
    ensures
      var r, d := PackFrom(h, fmt, i, total, args, k), GetDetails(h, total, fmt, i);
      if d.None? then r == None
      else
        && i < d.value.next <= |fmt| && 0 < d.value.h.maxalign <= MAXINTSIZE
        && (d.value.opt == Kint || d.value.opt == Kuint || d.value.opt == Kstring ==> 0 < d.value.size <= MAXINTSIZE)
        && if !TakesArgument(d.value.opt) then
          r == After(Zeros(d.value.ntoalign) + Zeros(d.value.size),
            PackFrom(d.value.h, fmt, d.value.next, total + d.value.ntoalign + d.value.size, args, k))
        else if k == |args| then r == None
        else
          var x := Item(d.value, args[k]);
          if x.None? then r == None
          else r == After(Zeros(d.value.ntoalign) + x.value,
            PackFrom(d.value.h, fmt, d.value.next, total + d.value.ntoalign + |x.value|, args, k + 1))
  {
    hide Item, GetOption, AlignOf, PowerOf2, After;
  }

  const START: Header := Header(NATIVE_LITTLE, 1)

  /** Packs the arguments. A missing argument is an error. */
  method Pack(fmt: seq<Char>, args: seq<Value>) returns (r: Option<seq<Byte>>)
    ensures r == PackFrom(START, fmt, 0, 0, args, 0)
  {
    hide Item, TakesArgument, GetDetails, PackFrom;
    var h, i, total, arg := START, 0, 0, 0;
    var b: seq<Byte> := [];
    AfterNothing(PackFrom(h, fmt, i, total, args, arg));
    while i < |fmt| && fmt[i] != 0
      invariant 0 <= i <= |fmt| && 0 < h.maxalign <= MAXINTSIZE && 0 <= arg <= |args| && total == |b|
      invariant PackFrom(START, fmt, 0, 0, args, 0) == After(b, PackFrom(h, fmt, i, total, args, arg))
      decreases |fmt| - i
    {
      PackStep(h, fmt, i, total, args, arg);
      var details := GetDetails(h, total, fmt, i);
      if details.None? {
        return None;
      }
      var d := details.value;
      var x: seq<Byte>;
      ghost var b0 := b;
      b := b + Zeros(d.ntoalign);
      if TakesArgument(d.opt) {
        if arg == |args| {
          return None;
        }
        var y := PackItem(d, args[arg]);
        if y.None? {
          return None;
        }
        x := y.value;
        arg := arg + 1;
      } else {
        x := Zeros(d.size);
      }
      b := b + x;
      total := |b|;
      h, i := d.h, d.next;
      AfterMore(b0, Zeros(d.ntoalign), x, PackFrom(h, fmt, i, total, args, arg));
    }
    PackDone(h, fmt, i, total, args, arg);
    assert b + [] == b;
    r := Some(b);
  }

  lemma PackDone(h: Header, fmt: seq<Char>, i: nat, total: nat, args: seq<Value>, k: nat)
    requires i <= |fmt| && (i == |fmt| || fmt[i] == 0) && 0 < h.maxalign <= MAXINTSIZE && k <= |args|
    ensures PackFrom(h, fmt, i, total, args, k) == Some([])
  {
  }

  /** One option with its argument. */
  method PackItem(d: Details, v: Value) returns (r: Option<seq<Byte>>)
    requires d.opt == Kint || d.opt == Kuint || d.opt == Kstring ==> d.size > 0
    ensures r == Item(d, v)
  {
    match d.opt
    case Kint =>
      if !v.Integer? || !(-TWO63 <= v.n < TWO63) {
        return None;
      }
      if d.size < SZINT {
        Half(d.size);
        var lim: int := Power256(d.size) / 2;
        if !(-lim <= v.n < lim) {
          return None;
        }
      }
      var b := PackInt(ToUnsigned(v.n), d.h.islittle, d.size, v.n < 0);
      r := Some(b);
    case Kuint =>
      if !v.Integer? || !(-TWO63 <= v.n < TWO63) {
        return None;
      }
      if d.size < SZINT && ToUnsigned(v.n) >= Power256(d.size) {
        return None;
      }
      var b := PackInt(ToUnsigned(v.n), d.h.islittle, d.size, false);
      r := Some(b);
    case Kchar =>
      if !v.Str? || |v.s| > d.size {
        return None;
      }
      r := Some(v.s + Zeros(d.size - |v.s|));
    case Kstring =>
      if !v.Str? || |v.s| >= TWO64 || (d.size < SIZEOF_SIZE_T && |v.s| >= Power256(d.size)) {
        return None;
      }
      var b := PackInt(|v.s|, d.h.islittle, d.size, false);
      r := Some(b + v.s);
    case Kzstr =>
      if !v.Str? || !(forall i :: 0 <= i < |v.s| ==> v.s[i] != 0) {
        return None;
      }
      r := Some(v.s + [0]);
    case _ =>
      r := None;
  }

  // ---------- unpacking ----------

  /** The index of the first zero byte from `pos` on; a string ends with a zero byte. */
  function ZeroAt(data: seq<Byte>, pos: nat): (z: nat)
    requires pos <= |data|
    ensures pos <= z <= |data|
    decreases |data| - pos
  {
    if pos == |data| || data[pos] == 0 then pos else ZeroAt(data, pos + 1)
  }

  /** What one option reads at `pos`, and where it ends; the caller has seen that its own
      size fits. */
  function ItemAt(d: Details, data: seq<Byte>, pos: nat): (r: Option<(Value, nat)>)
    requires d.opt == Kint || d.opt == Kuint || d.opt == Kstring ==> d.size > 0
    requires pos + d.size <= |data|
    ensures r.Some? ==> pos + d.size <= r.value.1
  {
    match d.opt
    case Kint =>
      var x := Unpacked(Ordered(data[pos..pos + d.size], d.h.islittle), true);
      if x.None? then None else Some((Integer(x.value), pos + d.size))
    case Kuint =>
      var x := Unpacked(Ordered(data[pos..pos + d.size], d.h.islittle), false);
      if x.None? then None else Some((Integer(x.value), pos + d.size))
    case Kchar => Some((Str(data[pos..pos + d.size]), pos + d.size))
    case Kstring =>
      var x := Unpacked(Ordered(data[pos..pos + d.size], d.h.islittle), false);
      if x.None? then None
      else
        var len := x.value % TWO64;
        if pos + len + d.size <= |data| then Some((Str(data[pos + d.size..pos + d.size + len]), pos + d.size + len))
        else None
    case Kzstr =>
      var z := ZeroAt(data, pos);
      Some((Str(data[pos..z]), z + 1 + d.size))
    case _ => None
  }

  /** The values after those that were read before. */
  function Behind(values: seq<Value>, rest: Option<(seq<Value>, nat)>): Option<(seq<Value>, nat)> {
    if rest.None? then None else Some((values + rest.value.0, rest.value.1))
  }

  /** The values for the rest of the format, and the position after them. */
  function UnpackFrom(h: Header, fmt: seq<Char>, i: nat, data: seq<Byte>, pos: nat): Option<(seq<Value>, nat)>
    requires i <= |fmt| && 0 < h.maxalign <= MAXINTSIZE
    decreases |fmt| - i
  {
    if i == |fmt| || fmt[i] == 0 then Some(([], pos))
    else
      var d := GetDetails(h, pos, fmt, i);
      if d.None? then None
      else
        var d := d.value;
        if pos + d.ntoalign + d.size > |data| then None
        else if !TakesArgument(d.opt) then UnpackFrom(d.h, fmt, d.next, data, pos + d.ntoalign + d.size)
        else
          var x := ItemAt(d, data, pos + d.ntoalign);
          if x.None? then None
          else
            Behind([x.value.0], UnpackFrom(d.h, fmt, d.next, data, x.value.1))
  }

  lemma BehindNothing(rest: Option<(seq<Value>, nat)>)
    ensures Behind([], rest) == rest
  {
    assert rest.Some? ==> [] + rest.value.0 == rest.value.0;
  }

  lemma BehindMore(values: seq<Value>, v: Value, rest: Option<(seq<Value>, nat)>)
    ensures Behind(values, Behind([v], rest)) == Behind(values + [v], rest)
  {
    if rest.Some? {
      assert values + ([v] + rest.value.0) == values + [v] + rest.value.0;
    }
  }

  /** What the first option reads. */
  lemma UnpackStep(h: Header, fmt: seq<Char>, i: nat, data: seq<Byte>, pos: nat)
    requires i < |fmt| && fmt[i] != 0 && 0 < h.maxalign <= MAXINTSIZE
    ensures
      var r, d := UnpackFrom(h, fmt, i, data, pos), GetDetails(h, pos, fmt, i);
      if d.None? then r == None
      else
        && i < d.value.next <= |fmt| && 0 < d.value.h.maxalign <= MAXINTSIZE
        && (d.value.opt == Kint || d.value.opt == Kuint || d.value.opt == Kstring ==> 0 < d.value.size <= MAXINTSIZE)
        && if pos + d.value.ntoalign + d.value.size > |data| then r == None
        else if !TakesArgument(d.value.opt) then r ==
          UnpackFrom(d.value.h, fmt, d.value.next, data, pos + d.value.ntoalign + d.value.size)
        else
          var x := ItemAt(d.value, data, pos + d.value.ntoalign);
          if x.None? then r == None
          else r == Behind([x.value.0], UnpackFrom(d.value.h, fmt, d.value.next, data, x.value.1))
  {
    hide GetOption, AlignOf, PowerOf2, Behind;
  }

  lemma UnpackDone(h: Header, fmt: seq<Char>, i: nat, data: seq<Byte>, pos: nat)
    requires i <= |fmt| && (i == |fmt| || fmt[i] == 0) && 0 < h.maxalign <= MAXINTSIZE
    ensures UnpackFrom(h, fmt, i, data, pos) == Some(([], pos))
  {
  }

  method Unpack(fmt: seq<Char>, data: seq<Byte>, pos0: nat) returns (r: Option<(seq<Value>, nat)>)
    requires pos0 <= |data|
    ensures r == UnpackFrom(START, fmt, 0, data, pos0)
  {
    hide ItemAt, TakesArgument, GetDetails, UnpackFrom;
    var h, i := START, 0;
    var pos: nat := pos0;
    var values: seq<Value> := [];
    BehindNothing(UnpackFrom(h, fmt, i, data, pos));
    while i < |fmt| && fmt[i] != 0
      invariant 0 <= i <= |fmt| && 0 < h.maxalign <= MAXINTSIZE
      invariant UnpackFrom(START, fmt, 0, data, pos0) == Behind(values, UnpackFrom(h, fmt, i, data, pos))
      decreases |fmt| - i
    {
      UnpackStep(h, fmt, i, data, pos);
      var details := GetDetails(h, pos, fmt, i);
      if details.None? {
        return None;
      }
      var d := details.value;
      if pos + d.ntoalign + d.size > |data| {
        return None;
      }
      pos := pos + d.ntoalign;
      h, i := d.h, d.next;
      if TakesArgument(d.opt) {
        var x := UnpackItem(d, data, pos);
        if x.None? {
          return None;
        }
        pos := x.value.1;
        BehindMore(values, x.value.0, UnpackFrom(h, fmt, i, data, pos));
        values := values + [x.value.0];
      } else {
        pos := pos + d.size;
      }
    }
    UnpackDone(h, fmt, i, data, pos);
    assert values + [] == values;
    r := Some((values, pos));
  }

  method UnpackItem(d: Details, data: seq<Byte>, pos: nat) returns (r: Option<(Value, nat)>)
    requires d.opt == Kint || d.opt == Kuint || d.opt == Kstring ==> d.size > 0
    requires pos + d.size <= |data|
    ensures r == ItemAt(d, data, pos)
  {
    hide Unpacked, Ordered;
    match d.opt
    case Kint =>
      var x := UnpackInt(data[pos..pos + d.size], d.h.islittle, d.size, true);
      r := if x.None? then None else Some((Integer(x.value), pos + d.size));
    case Kuint =>
      var x := UnpackInt(data[pos..pos + d.size], d.h.islittle, d.size, false);
      r := if x.None? then None else Some((Integer(x.value), pos + d.size));
    case Kchar =>
      r := Some((Str(data[pos..pos + d.size]), pos + d.size));
    case Kstring =>
      var x := UnpackInt(data[pos..pos + d.size], d.h.islittle, d.size, false);
      if x.None? {
        return None;
      }
      var len := x.value % TWO64;
      if pos + len + d.size > |data| {
        return None;
      }
      r := Some((Str(data[pos + d.size..pos + d.size + len]), pos + d.size + len));
    case Kzstr =>
      var z := pos;
      while z < |data| && data[z] != 0
        invariant pos <= z <= |data| && ZeroAt(data, pos) == ZeroAt(data, z)
      {
        z := z + 1;
      }
      r := Some((Str(data[pos..z]), z + 1 + d.size));
    case _ =>
      r := None;
  }

  // ---------- the round trip ----------

  /** Only the lowest bytes of a number are written. */
  lemma {:induction false} BytesMod(v: nat, k: nat, n: nat)
    ensures Bytes(v + Power256(n) * k, n) == Bytes(v, n)
    decreases n
  {
    if n > 0 {
      var p := Power256(n - 1) * k;
      assert Power256(n) * k == 256 * p;
      assert (v + 256 * p) / 256 == v / 256 + p;
      BytesMod(v / 256, k, n - 1);
    }
  }

  /** What is written for a signed integer is its two's complement. */
  lemma SignedBytes(n: int, size: nat)
    requires -TWO63 <= n < TWO63 && size > 0 && (size < SZINT ==> -(Power256(size) as int) <= 2 * n < Power256(size))
    ensures
      var t := if n < 0 then n + Power256(size) else n;
      0 <= t < Power256(size) && Bytes(Extended(ToUnsigned(n), size, n < 0), size) == Bytes(t, size)
    ensures if n < 0 then 2 * (n + Power256(size)) >= Power256(size) else 2 * n < Power256(size)
  {
    Power8();
    if size < SZINT {
      if n < 0 {
        PowerSplit(size, SZINT - size);
        PowerMonotone(0, SZINT - size);
        var k: nat := Power256(SZINT - size) - 1;
        assert Power256(size) * (k + 1) == Power256(size) * k + Power256(size);
        BytesMod(n + Power256(size), k, size);
      }
    } else {
      PowerMonotone(SZINT, size);
      if size > SZINT {
        PowerMonotone(SZINT + 1, size);
      }
    }
  }

  /** A signed integer is read as it was written. */
  lemma SignedReads(n: int, size: nat, little: bool)
    requires -TWO63 <= n < TWO63 && size > 0 && (size < SZINT ==> -(Power256(size) as int) <= 2 * n < Power256(size))
    ensures Unpacked(Ordered(Ordered(Bytes(Extended(ToUnsigned(n), size, n < 0), size), little), little), true) ==
      Some(n)
  {
    var t := if n < 0 then n + Power256(size) else n;
    SignedBytes(n, size);
    OrderedTwice(Bytes(t, size), little);
    ValueBytes(t, size);
    SignOf(n, t, size);
    hide Bytes, Extended, Power256, PackIntegers.Value, Ordered;
  }

  lemma SignOf(n: int, t: nat, size: nat)
    requires -TWO63 <= n < TWO63 && size > 0 && t == (if n < 0 then n + Power256(size) else n)
    requires if n < 0 then 2 * (n + Power256(size)) >= Power256(size) else 2 * n < Power256(size)
    requires PackIntegers.Value(Bytes(t, size)) == t
    ensures Unpacked(Bytes(t, size), true) == Some(n)
  {
    hide Bytes, Power256, PackIntegers.Value;
  }

  /** An unsigned integer is read as it was written; words from the upper half of the range
      are negative integers on both sides. */
  lemma UnsignedReads(u: nat, size: nat, little: bool)
    requires u < TWO64 && size > 0 && (size < SZINT ==> u < Power256(size))
    ensures Unpacked(Ordered(Ordered(Bytes(u, size), little), little), false) == Some(ToSigned(u))
  {
    Power8();
    if size >= SZINT {
      PowerMonotone(SZINT, size);
    }
    OrderedTwice(Bytes(u, size), little);
    ValueBytes(u, size);
  }

  /** What is read for an argument: itself, or with zeros up to the size of the option. */
  function Normal(d: Details, v: Value): Value {
    if d.opt == Kchar && v.Str? && |v.s| <= d.size then Str(v.s + Zeros(d.size - |v.s|)) else v
  }

  lemma {:induction false} ZeroFound(data: seq<Byte>, pos: nat, s: seq<Byte>)
    requires pos + |s| < |data| && data[pos..pos + |s|] == s && data[pos + |s|] == 0
      && forall i :: 0 <= i < |s| ==> s[i] != 0
    ensures ZeroAt(data, pos) == pos + |s|
    decreases |s|
  {
    if s != [] {
      assert data[pos] == s[0];
      assert data[pos + 1..pos + 1 + |s[1..]|] == data[pos..pos + |s|][1..] == s[1..];
      ZeroFound(data, pos + 1, s[1..]);
    }
  }

  lemma Slice(data: seq<Byte>, pos: nat, x: seq<Byte>, i: nat, j: nat)
    requires pos + |x| <= |data| && data[pos..pos + |x|] == x && i <= j <= |x|
    ensures data[pos + i..pos + j] == x[i..j]
  {
    forall k | 0 <= k < j - i ensures data[pos + i..pos + j][k] == x[i..j][k] {
      assert x[i + k] == data[pos..pos + |x|][i + k] == data[pos + (i + k)];
    }
  }

  /** What one option has written is read back. */
  lemma ItemReads(d: Details, v: Value, data: seq<Byte>, pos: nat)
    requires d.opt == Kint || d.opt == Kuint || d.opt == Kstring ==> d.size > 0
    requires d.opt == Kzstr ==> d.size == 0
    requires Item(d, v).Some? && pos + |Item(d, v).value| <= |data|
      && data[pos..pos + |Item(d, v).value|] == Item(d, v).value
    ensures d.size <= |Item(d, v).value| && ItemAt(d, data, pos) == Some((Normal(d, v), pos + |Item(d, v).value|))
  {
    hide Item, ItemAt, Normal;
    NormalOf(d, v);
    match d.opt {
      case Kint => IntReads(d, v, data, pos);
      case Kuint => UintReads(d, v, data, pos);
      case Kchar => CharReads(d, v, data, pos);
      case Kstring => StringReads(d, v, data, pos);
      case Kzstr => ZstrReads(d, v, data, pos);
      case _ => ItemNone(d, v);
    }
  }

  lemma ItemNone(d: Details, v: Value)
    requires d.opt == Kfloat || !TakesArgument(d.opt)
    ensures Item(d, v).None?
  {
  }

  lemma CharReads(d: Details, v: Value, data: seq<Byte>, pos: nat)
    requires d.opt == Kchar
    requires Item(d, v).Some? && pos + |Item(d, v).value| <= |data|
      && data[pos..pos + |Item(d, v).value|] == Item(d, v).value
    ensures |Item(d, v).value| == d.size && ItemAt(d, data, pos) == Some((Normal(d, v), pos + d.size))
  {
  }

  lemma IntReads(d: Details, v: Value, data: seq<Byte>, pos: nat)
    requires d.opt == Kint && d.size > 0
    requires Item(d, v).Some? && pos + |Item(d, v).value| <= |data|
      && data[pos..pos + |Item(d, v).value|] == Item(d, v).value
    ensures |Item(d, v).value| == d.size && ItemAt(d, data, pos) == Some((v, pos + d.size))
  {
    SignedReads(v.n, d.size, d.h.islittle);
    hide Bytes, Extended, Unpacked;
  }

  lemma UintReads(d: Details, v: Value, data: seq<Byte>, pos: nat)
    requires d.opt == Kuint && d.size > 0
    requires Item(d, v).Some? && pos + |Item(d, v).value| <= |data|
      && data[pos..pos + |Item(d, v).value|] == Item(d, v).value
    ensures |Item(d, v).value| == d.size && ItemAt(d, data, pos) == Some((v, pos + d.size))
  {
    UnsignedRange(v.n, d.size);
    UnsignedReads(ToUnsigned(v.n), d.size, d.h.islittle);
    hide Bytes, Extended, Unpacked;
  }

  lemma StringReads(d: Details, v: Value, data: seq<Byte>, pos: nat)
    requires d.opt == Kstring && d.size > 0
    requires Item(d, v).Some? && pos + |Item(d, v).value| <= |data|
      && data[pos..pos + |Item(d, v).value|] == Item(d, v).value
    ensures |Item(d, v).value| == d.size + |v.s| && ItemAt(d, data, pos) == Some((v, pos + d.size + |v.s|))
  {
    hide Item, ItemAt, Bytes, Unpacked, Ordered, Power256;
    ItemString(d, v);
    var n := Ordered(Bytes(|v.s|, d.size), d.h.islittle);
    UnsignedReads(|v.s|, d.size, d.h.islittle);
    LengthPrefix(n, v.s, data, pos, d.size);
    AtString(d, data, pos, v.s, ToSigned(|v.s|));
  }

  lemma ItemString(d: Details, v: Value)
    requires d.opt == Kstring && d.size > 0 && Item(d, v).Some?
    ensures v.Str? && |v.s| < TWO64 && (d.size < SZINT ==> |v.s| < Power256(d.size))
    ensures |Ordered(Bytes(|v.s|, d.size), d.h.islittle)| == d.size
      && Item(d, v).value == Ordered(Bytes(|v.s|, d.size), d.h.islittle) + v.s
  {
  }

  lemma AtString(d: Details, data: seq<Byte>, pos: nat, s: seq<Byte>, n: int)
    requires d.opt == Kstring && d.size > 0 && pos + d.size + |s| <= |data|
      && data[pos + d.size..pos + d.size + |s|] == s
    requires Unpacked(Ordered(data[pos..pos + d.size], d.h.islittle), false) == Some(n) && n == ToSigned(|s|)
      && |s| < TWO64
    ensures ItemAt(d, data, pos) == Some((Str(s), pos + d.size + |s|))
  {
    assert n % TWO64 == |s|;
    hide Unpacked, Ordered;
  }

  lemma LengthPrefix(n: seq<Byte>, s: seq<Byte>, data: seq<Byte>, pos: nat, size: nat)
    requires |n| == size && pos + |n + s| <= |data| && data[pos..pos + |n + s|] == n + s
    ensures data[pos..pos + size] == n && data[pos + size..pos + size + |s|] == s && pos + |s| + size <= |data|
  {
    var x := n + s;
    Slice(data, pos, x, 0, size);
    Slice(data, pos, x, size, |x|);
    assert x[0..size] == n && x[size..|x|] == s;
  }

  lemma ZstrReads(d: Details, v: Value, data: seq<Byte>, pos: nat)
    requires d.opt == Kzstr && d.size == 0
    requires Item(d, v).Some? && pos + |Item(d, v).value| <= |data|
      && data[pos..pos + |Item(d, v).value|] == Item(d, v).value
    ensures |Item(d, v).value| == |v.s| + 1 && ItemAt(d, data, pos) == Some((v, pos + |v.s| + 1))
  {
    var x := Item(d, v).value;
    Slice(data, pos, x, 0, |v.s|);
    Slice(data, pos, x, |v.s|, |x|);
    assert x[0..|v.s|] == v.s && x[|v.s|..|x|] == [0];
    assert data[pos + |v.s|] == data[pos + |v.s|..pos + |x|][0];
    ZeroFound(data, pos, v.s);
  }

  lemma UnsignedRange(n: int, size: nat)
    requires -TWO63 <= n < TWO63 && (size < SZINT ==> ToUnsigned(n) < Power256(size))
    ensures ToSigned(ToUnsigned(n)) == n
  {
  }

  /** The values that the rest of the format should give back. */
  function Expected(h: Header, fmt: seq<Char>, i: nat, total: nat, args: seq<Value>, k: nat): seq<Value>
    requires i <= |fmt| && 0 < h.maxalign <= MAXINTSIZE && k <= |args|
    decreases |fmt| - i
  {
    if i == |fmt| || fmt[i] == 0 then []
    else
      var d := GetDetails(h, total, fmt, i);
      if d.None? then []
      else if !TakesArgument(d.value.opt) then Expected(d.value.h, fmt, d.value.next,
        total + d.value.ntoalign + d.value.size, args, k)
      else if k == |args| || Item(d.value, args[k]).None? then []
      else [Normal(d.value, args[k])] + Expected(d.value.h, fmt, d.value.next,
        total + d.value.ntoalign + |Item(d.value, args[k]).value|, args, k + 1)
  }

  lemma ExpectedStep(h: Header, fmt: seq<Char>, i: nat, total: nat, args: seq<Value>, k: nat)
    requires i < |fmt| && fmt[i] != 0 && 0 < h.maxalign <= MAXINTSIZE && k <= |args|
    ensures
      var r, d := Expected(h, fmt, i, total, args, k), GetDetails(h, total, fmt, i);
      if d.None? then r == []
      else
        && i < d.value.next <= |fmt| && 0 < d.value.h.maxalign <= MAXINTSIZE
        && (d.value.opt == Kint || d.value.opt == Kuint || d.value.opt == Kstring ==> 0 < d.value.size <= MAXINTSIZE)
        && (d.value.opt == Kzstr ==> d.value.size == 0)
        && if !TakesArgument(d.value.opt) then r == Expected(d.value.h, fmt, d.value.next,
            total + d.value.ntoalign + d.value.size, args, k)
        else if k == |args| || Item(d.value, args[k]).None? then r == []
        else r == [Normal(d.value, args[k])] + Expected(d.value.h, fmt, d.value.next,
          total + d.value.ntoalign + |Item(d.value, args[k]).value|, args, k + 1)
  {
    hide Item, GetOption, AlignOf, PowerOf2, Normal;
  }

  lemma ExpectedEnd(h: Header, fmt: seq<Char>, i: nat, total: nat, args: seq<Value>, k: nat)
    requires i <= |fmt| && 0 < h.maxalign <= MAXINTSIZE && k <= |args|
    ensures i == |fmt| || fmt[i] == 0 ==> Expected(h, fmt, i, total, args, k) == []
  {
  }

  lemma NormalOf(d: Details, v: Value)
    ensures Normal(d, v) == v || (v.Str? && Normal(d, v).Str? && exists n: nat :: Normal(d, v).s == v.s + Zeros(n))
    ensures d.opt != Kchar ==> Normal(d, v) == v
  {
  }

  /** Each value is the argument, or a fixed-size string with zeros appended. */
  lemma {:induction false} ExpectedArgs(h: Header, fmt: seq<Char>, i: nat, total: nat, args: seq<Value>, k: nat, j: nat)
    requires i <= |fmt| && 0 < h.maxalign <= MAXINTSIZE && k <= |args| && j < |Expected(h, fmt, i, total, args, k)|
    ensures
      var v := Expected(h, fmt, i, total, args, k)[j];
      && k + j < |args|
      && (v == args[k + j] || (v.Str? && args[k + j].Str? && exists n: nat :: v.s == args[k + j].s + Zeros(n)))
      && (99 !in fmt ==> v == args[k + j])
    decreases |fmt| - i
  {
    hide Item, GetDetails, Normal, Expected, TakesArgument;
    ExpectedEnd(h, fmt, i, total, args, k);
    ExpectedStep(h, fmt, i, total, args, k);
    CharOption(h, total, fmt, i);
    var d := GetDetails(h, total, fmt, i).value;
    if !TakesArgument(d.opt) {
      ExpectedArgs(d.h, fmt, d.next, total + d.ntoalign + d.size, args, k, j);
    } else {
      NormalOf(d, args[k]);
      if j > 0 {
        ExpectedArgs(d.h, fmt, d.next, total + d.ntoalign + |Item(d, args[k]).value|, args, k + 1, j - 1);
      }
    }
  }

  /** Only the letter `c` makes a fixed-size string. */
  lemma CharOption(h: Header, total: nat, fmt: seq<Char>, i: nat)
    requires i < |fmt| && 0 < h.maxalign <= MAXINTSIZE
    ensures GetDetails(h, total, fmt, i).Some? && GetDetails(h, total, fmt, i).value.opt == Kchar ==> fmt[i] == 99
  {
  }

  lemma Cut(data: seq<Byte>, pos: nat, a: seq<Byte>, b: seq<Byte>, c: seq<Byte>)
    requires pos + |a| + |b| + |c| <= |data| && data[pos..pos + |a| + |b| + |c|] == a + b + c
    ensures data[pos + |a|..pos + |a| + |b|] == b && data[pos + |a| + |b|..pos + |a| + |b| + |c|] == c
  {
    var x := a + b + c;
    Slice(data, pos, x, |a|, |a| + |b|);
    Slice(data, pos, x, |a| + |b|, |x|);
    assert x[|a|..|a| + |b|] == b && x[|a| + |b|..|x|] == c;
  }

  /** What was packed is unpacked, from any string that has it at the same position. */
  lemma {:induction false} ReadsBack(h: Header, fmt: seq<Char>, i: nat, total: nat, args: seq<Value>, k: nat,
                                     data: seq<Byte>, b: seq<Byte>)
    requires i <= |fmt| && 0 < h.maxalign <= MAXINTSIZE && k <= |args| && PackFrom(h, fmt, i, total, args, k) == Some(b)
    requires total + |b| <= |data| && data[total..total + |b|] == b
    ensures UnpackFrom(h, fmt, i, data, total) == Some((Expected(h, fmt, i, total, args, k), total + |b|))
    decreases |fmt| - i
  {
    hide Item, ItemAt, GetDetails, Normal, Expected, TakesArgument, PackFrom, UnpackFrom, Zeros;
    ExpectedEnd(h, fmt, i, total, args, k);
    if i < |fmt| && fmt[i] != 0 {
      PackStep(h, fmt, i, total, args, k);
      UnpackStep(h, fmt, i, data, total);
      ExpectedStep(h, fmt, i, total, args, k);
      var d := GetDetails(h, total, fmt, i).value;
      var gap := Zeros(d.ntoalign);
      ZerosSize(d.ntoalign);
      ZerosSize(d.size);
      if !TakesArgument(d.opt) {
        var rest := PackFrom(d.h, fmt, d.next, total + d.ntoalign + d.size, args, k).value;
        Cut(data, total, gap, Zeros(d.size), rest);
        ReadsBack(d.h, fmt, d.next, total + d.ntoalign + d.size, args, k, data, rest);
      } else {
        var x := Item(d, args[k]).value;
        var rest := PackFrom(d.h, fmt, d.next, total + d.ntoalign + |x|, args, k + 1).value;
        Cut(data, total, gap, x, rest);
        ItemReads(d, args[k], data, total + d.ntoalign);
        ReadsBack(d.h, fmt, d.next, total + d.ntoalign + |x|, args, k + 1, data, rest);
      }
    } else {
      PackDone(h, fmt, i, total, args, k);
      UnpackDone(h, fmt, i, data, total);
    }
  }

  /** How many options of a format take an argument. */
  function Arguments(h: Header, fmt: seq<Char>, i: nat): nat
    requires i <= |fmt| && 0 < h.maxalign <= MAXINTSIZE
    decreases |fmt| - i
  {
    if i == |fmt| || fmt[i] == 0 then 0
    else
      var d := GetDetails(h, 0, fmt, i);
      if d.None? then 0
      else (if TakesArgument(d.value.opt) then 1 else 0) + Arguments(d.value.h, fmt, d.value.next)
  }

  /** Only the padding depends on where an option stands. */
  lemma DetailsAnywhere(h: Header, fmt: seq<Char>, i: nat, total: nat)
    requires i < |fmt| && 0 < h.maxalign <= MAXINTSIZE && GetDetails(h, total, fmt, i).Some?
    ensures
      var d, d0 := GetDetails(h, total, fmt, i).value, GetDetails(h, 0, fmt, i);
      d0.Some? && d0.value.opt == d.opt && d0.value.h == d.h && d0.value.next == d.next
  {
    hide GetOption, AlignOf, PowerOf2;
  }

  lemma ArgumentsStep(h: Header, fmt: seq<Char>, i: nat, total: nat)
    requires i < |fmt| && fmt[i] != 0 && 0 < h.maxalign <= MAXINTSIZE && GetDetails(h, total, fmt, i).Some?
    ensures
      var d := GetDetails(h, total, fmt, i).value;
      && i < d.next <= |fmt| && 0 < d.h.maxalign <= MAXINTSIZE
      && Arguments(h, fmt, i) == (if TakesArgument(d.opt) then 1 else 0) + Arguments(d.h, fmt, d.next)
  {
    DetailsAnywhere(h, fmt, i, total);
    hide TakesArgument, GetOption, AlignOf, PowerOf2;
  }

  lemma {:induction false} ExpectedCount(h: Header, fmt: seq<Char>, i: nat, total: nat, args: seq<Value>, k: nat)
    requires i <= |fmt| && 0 < h.maxalign <= MAXINTSIZE && k <= |args| && PackFrom(h, fmt, i, total, args, k).Some?
    ensures |Expected(h, fmt, i, total, args, k)| == Arguments(h, fmt, i) <= |args| - k
    decreases |fmt| - i
  {
    hide Item, GetDetails, TakesArgument, PackFrom, Expected, Normal, Arguments;
    if i < |fmt| && fmt[i] != 0 {
      PackStep(h, fmt, i, total, args, k);
      ExpectedStep(h, fmt, i, total, args, k);
      ArgumentsStep(h, fmt, i, total);
      var d := GetDetails(h, total, fmt, i).value;
      if !TakesArgument(d.opt) {
        ExpectedCount(d.h, fmt, d.next, total + d.ntoalign + d.size, args, k);
      } else {
        ExpectedCount(d.h, fmt, d.next, total + d.ntoalign + |Item(d, args[k]).value|, args, k + 1);
      }
    } else {
      ExpectedEnd(h, fmt, i, total, args, k);
      NoArguments(h, fmt, i);
    }
  }

  lemma NoArguments(h: Header, fmt: seq<Char>, i: nat)
    requires i <= |fmt| && (i == |fmt| || fmt[i] == 0) && 0 < h.maxalign <= MAXINTSIZE
    ensures Arguments(h, fmt, i) == 0
  {
  }

  lemma ZerosSize(n: nat)
    ensures |Zeros(n)| == n
  {
  }

  /** Unpacking what was packed gives the values back, and the position behind them; what
      comes behind the packed string does not matter. */
  method RoundTrip(fmt: seq<Char>, args: seq<Value>, behind: seq<Byte>)
    returns (packed: Option<seq<Byte>>, r: Option<(seq<Value>, nat)>)
    ensures packed.Some? ==>
      && r == Some((Expected(START, fmt, 0, 0, args, 0), |packed.value|))
      && |r.value.0| == Arguments(START, fmt, 0) <= |args|
      && (99 !in fmt ==> r.value.0 == args[..|r.value.0|])
  {
    hide Expected, PackFrom, UnpackFrom;
    packed := Pack(fmt, args);
    if packed.None? {
      return packed, None;
    }
    var data := packed.value + behind;
    ReadsBack(START, fmt, 0, 0, args, 0, data, packed.value);
    r := Unpack(fmt, data, 0);
    ghost var e := Expected(START, fmt, 0, 0, args, 0);
    ExpectedCount(START, fmt, 0, 0, args, 0);
    forall j | 0 <= j < |e| ensures j < |args| && (99 !in fmt ==> e[j] == args[j]) {
      ExpectedArgs(START, fmt, 0, 0, args, 0, j);
    }
  }

  // ---------- the size of a format ----------

  function SizeFrom(h: Header, fmt: seq<Char>, i: nat, total: nat): Option<nat>
    requires i <= |fmt| && 0 < h.maxalign <= MAXINTSIZE
    decreases |fmt| - i
  {
    if i == |fmt| || fmt[i] == 0 then Some(total)
    else
      var d := GetDetails(h, total, fmt, i);
      if d.None? || total + d.value.ntoalign + d.value.size > MAXSIZE || d.value.opt == Kstring
        || d.value.opt == Kzstr then None
      else SizeFrom(d.value.h, fmt, d.value.next, total + d.value.ntoalign + d.value.size)
  }

  lemma SizeUnfold(h: Header, fmt: seq<Char>, i: nat, total: nat)
    requires i <= |fmt| && 0 < h.maxalign <= MAXINTSIZE
    ensures
      SizeFrom(h, fmt, i, total) ==
        if i == |fmt| || fmt[i] == 0 then Some(total)
        else
          var d := GetDetails(h, total, fmt, i);
          if d.None? || total + d.value.ntoalign + d.value.size > MAXSIZE || d.value.opt == Kstring
            || d.value.opt == Kzstr then None
          else SizeFrom(d.value.h, fmt, d.value.next, total + d.value.ntoalign + d.value.size)
    ensures i < |fmt| ==>
      var d := GetDetails(h, total, fmt, i);
      d.Some? ==> i < d.value.next <= |fmt| && 0 < d.value.h.maxalign <= MAXINTSIZE
  {
    hide GetOption, AlignOf, PowerOf2;
  }

  method PackSize(fmt: seq<Char>) returns (r: Option<nat>)
    ensures r == SizeFrom(START, fmt, 0, 0)
  {
    hide SizeFrom, GetDetails;
    var h, i: nat := START, 0;
    var total: nat := 0;
    while i < |fmt| && fmt[i] != 0
      invariant i <= |fmt| && 0 < h.maxalign <= MAXINTSIZE && SizeFrom(START, fmt, 0, 0) == SizeFrom(h, fmt, i, total)
      decreases |fmt| - i
    {
      SizeUnfold(h, fmt, i, total);
      var details := GetDetails(h, total, fmt, i);
      if details.None? {
        return None;
      }
      var d := details.value;
      var size := d.size + d.ntoalign;
      if total > MAXSIZE - size {
        return None;
      }
      total := total + size;
      if d.opt == Kstring || d.opt == Kzstr {
        return None;
      }
      h, i := d.h, d.next;
    }
    SizeUnfold(h, fmt, i, total);
    r := Some(total);
  }

  lemma SizeStep(h: Header, fmt: seq<Char>, i: nat, total: nat)
    requires i < |fmt| && fmt[i] != 0 && 0 < h.maxalign <= MAXINTSIZE
    ensures
      var r, d := SizeFrom(h, fmt, i, total), GetDetails(h, total, fmt, i);
      r.Some? ==>
        && d.Some? && i < d.value.next <= |fmt| && 0 < d.value.h.maxalign <= MAXINTSIZE && d.value.opt != Kstring
        && d.value.opt != Kzstr
        && (d.value.opt == Kint || d.value.opt == Kuint ==> 0 < d.value.size)
        && r == SizeFrom(d.value.h, fmt, d.value.next, total + d.value.ntoalign + d.value.size)
  {
    hide GetOption, AlignOf, PowerOf2;
  }

  lemma ItemSize(d: Details, v: Value)
    requires (d.opt == Kint || d.opt == Kuint ==> d.size > 0) && d.opt != Kstring && d.opt != Kzstr
    ensures Item(d, v).Some? ==> |Item(d, v).value| == d.size
  {
  }

  /** A format of fixed size is packed into a string of that size, for all arguments. */
  lemma {:induction false} SizeIsLength(h: Header, fmt: seq<Char>, i: nat, total: nat, args: seq<Value>, k: nat)
    requires i <= |fmt| && 0 < h.maxalign <= MAXINTSIZE && k <= |args|
    requires SizeFrom(h, fmt, i, total).Some? && PackFrom(h, fmt, i, total, args, k).Some?
    ensures SizeFrom(h, fmt, i, total).value == total + |PackFrom(h, fmt, i, total, args, k).value|
    decreases |fmt| - i
  {
    hide Item, GetDetails, TakesArgument, PackFrom, SizeFrom, Zeros;
    SizeUnfold(h, fmt, i, total);
    if i < |fmt| && fmt[i] != 0 {
      PackStep(h, fmt, i, total, args, k);
      SizeStep(h, fmt, i, total);
      var d := GetDetails(h, total, fmt, i).value;
      ZerosSize(d.ntoalign);
      ZerosSize(d.size);
      if !TakesArgument(d.opt) {
        SizeIsLength(d.h, fmt, d.next, total + d.ntoalign + d.size, args, k);
      } else {
        ItemSize(d, args[k]);
        SizeIsLength(d.h, fmt, d.next, total + d.ntoalign + d.size, args, k + 1);
      }
    } else {
      PackDone(h, fmt, i, total, args, k);
    }
  }

  // ---------- where unpacking ends ----------

  /** The last option that is read, and the position of its bytes. */
  function LastRead(h: Header, fmt: seq<Char>, i: nat, data: seq<Byte>, pos: nat): Option<(KOption, nat)>
    requires i <= |fmt| && 0 < h.maxalign <= MAXINTSIZE
    decreases |fmt| - i
  {
    if i == |fmt| || fmt[i] == 0 then None
    else
      var d := GetDetails(h, pos, fmt, i);
      if d.None? || pos + d.value.ntoalign + d.value.size > |data| then None
      else
        var at := pos + d.value.ntoalign;
        if d.value.next == |fmt| || fmt[d.value.next] == 0 then Some((d.value.opt, at))
        else if !TakesArgument(d.value.opt) then LastRead(d.value.h, fmt, d.value.next, data, at + d.value.size)
        else
          var x := ItemAt(d.value, data, at);
          if x.None? then None else LastRead(d.value.h, fmt, d.value.next, data, x.value.1)
  }

  ghost predicate NoZero(data: seq<Byte>, pos: nat) {
    forall i :: pos <= i < |data| ==> data[i] != 0
  }

  /** The last option read is a string that ends with the data and not with a zero byte. */
  ghost predicate Unterminated(h: Header, fmt: seq<Char>, i: nat, data: seq<Byte>, pos: nat)
    requires i <= |fmt| && 0 < h.maxalign <= MAXINTSIZE
  {
    var last := LastRead(h, fmt, i, data, pos);
    last.Some? && last.value.0 == Kzstr && NoZero(data, last.value.1)
  }

  lemma {:induction false} NoZeroFound(data: seq<Byte>, pos: nat)
    requires pos <= |data|
    ensures ZeroAt(data, pos) == |data| <==> NoZero(data, pos)
    decreases |data| - pos
  {
    if pos < |data| && data[pos] != 0 {
      NoZeroFound(data, pos + 1);
    }
  }

  /** Where one option ends: behind the data exactly if it is a string without its zero byte. */
  lemma ItemEnd(d: Details, data: seq<Byte>, pos: nat)
    requires (d.opt == Kint || d.opt == Kuint || d.opt == Kstring ==> d.size > 0) && (d.opt == Kzstr ==> d.size == 0)
    requires pos + d.size <= |data|
    ensures
      var x := ItemAt(d, data, pos);
      x.Some? ==> x.value.1 <= |data| + 1 && (x.value.1 == |data| + 1 <==> d.opt == Kzstr && NoZero(data, pos))
  {
    hide ZeroAt, Unpacked, NoZero;
    NoZeroFound(data, pos);
    ZeroBound(data, pos);
  }

  lemma ZeroBound(data: seq<Byte>, pos: nat)
    requires pos <= |data|
    ensures pos <= ZeroAt(data, pos) <= |data|
  {
  }

  lemma LastStep(h: Header, fmt: seq<Char>, i: nat, data: seq<Byte>, pos: nat)
    requires i < |fmt| && fmt[i] != 0 && 0 < h.maxalign <= MAXINTSIZE
    ensures
      var d := GetDetails(h, pos, fmt, i);
      d.Some? && pos + d.value.ntoalign + d.value.size <= |data| ==>
        && (d.value.opt == Kzstr ==> d.value.size == 0)
        && LastRead(h, fmt, i, data, pos) ==
             if d.value.next == |fmt| || fmt[d.value.next] == 0 then Some((d.value.opt, pos + d.value.ntoalign))
             else if !TakesArgument(d.value.opt) then LastRead(d.value.h, fmt, d.value.next, data,
               pos + d.value.ntoalign + d.value.size)
             else
               var x := ItemAt(d.value, data, pos + d.value.ntoalign);
               if x.None? then None else LastRead(d.value.h, fmt, d.value.next, data, x.value.1)
  {
    hide GetOption, AlignOf, ItemAt;
  }

  /** Unpacking delivers a position in the data or at their end, except exactly for a string
      that is not terminated: then the position is one more. */
  lemma {:induction false} EndPosition(h: Header, fmt: seq<Char>, i: nat, data: seq<Byte>, pos: nat)
    requires i <= |fmt| && 0 < h.maxalign <= MAXINTSIZE && pos <= |data| && UnpackFrom(h, fmt, i, data, pos).Some?
    ensures
      var p := UnpackFrom(h, fmt, i, data, pos).value.1;
      p <= |data| + 1 && (p == |data| + 1 <==> Unterminated(h, fmt, i, data, pos))
    decreases |fmt| - i
  {
    hide GetDetails, ItemAt, TakesArgument, UnpackFrom, LastRead, NoZero;
    if i < |fmt| && fmt[i] != 0 {
      UnpackStep(h, fmt, i, data, pos);
      LastStep(h, fmt, i, data, pos);
      var d := GetDetails(h, pos, fmt, i).value;
      var at := pos + d.ntoalign;
      if !TakesArgument(d.opt) {
        EndPosition(d.h, fmt, d.next, data, at + d.size);
        PlainOption(d.opt);
        EndReached(d.h, fmt, d.next, data, at + d.size);
      } else {
        var x := ItemAt(d, data, at).value;
        ItemEnd(d, data, at);
        EndReached(d.h, fmt, d.next, data, x.1);
        if x.1 <= |data| {
          EndPosition(d.h, fmt, d.next, data, x.1);
        }
      }
    } else {
      UnpackDone(h, fmt, i, data, pos);
      NothingLast(h, fmt, i, data, pos);
    }
  }

  lemma PlainOption(opt: KOption)
    requires !TakesArgument(opt)
    ensures opt != Kzstr
  {
  }

  lemma NothingLast(h: Header, fmt: seq<Char>, i: nat, data: seq<Byte>, pos: nat)
    requires i <= |fmt| && (i == |fmt| || fmt[i] == 0) && 0 < h.maxalign <= MAXINTSIZE
    ensures LastRead(h, fmt, i, data, pos) == None
  {
  }

  /** At the end of the format the position stays; behind the data nothing else is read. */
  lemma EndReached(h: Header, fmt: seq<Char>, i: nat, data: seq<Byte>, pos: nat)
    requires i <= |fmt| && 0 < h.maxalign <= MAXINTSIZE
    ensures i == |fmt| || fmt[i] == 0 ==> UnpackFrom(h, fmt, i, data, pos) == Some(([], pos))
    ensures i < |fmt| && fmt[i] != 0 && pos > |data| ==> UnpackFrom(h, fmt, i, data, pos) == None
  {
    hide GetDetails, ItemAt;
  }

  lemma ZOption(h: Header, total: nat, fmt: seq<Char>, i: nat)
    requires i < |fmt| && 0 < h.maxalign <= MAXINTSIZE && GetDetails(h, total, fmt, i).Some?
    ensures GetDetails(h, total, fmt, i).value.opt == Kzstr <==> fmt[i] == 122
  {
    hide PowerOf2, AlignOf, GetNum, GetNumLimit;
  }

  lemma {:induction false} LastIsZ(h: Header, fmt: seq<Char>, i: nat, data: seq<Byte>, pos: nat)
    requires i <= |fmt| && 0 < h.maxalign <= MAXINTSIZE && Unterminated(h, fmt, i, data, pos)
    ensures 122 in fmt
    decreases |fmt| - i
  {
    hide GetDetails, ItemAt, TakesArgument, NoZero;
    if i < |fmt| && fmt[i] != 0 {
      var d := GetDetails(h, pos, fmt, i).value;
      var at := pos + d.ntoalign;
      ZOption(h, pos, fmt, i);
      if d.next == |fmt| || fmt[d.next] == 0 {
        assert fmt[i] == 122;
      } else {
        LastIsZ(d.h, fmt, d.next, data, if !TakesArgument(d.opt) then at + d.size else ItemAt(d, data, at).value.1);
      }
    }
  }

  /** Without the option `z` the position stays within the data. */
  lemma StaysInside(fmt: seq<Char>, data: seq<Byte>, pos: nat)
    requires pos <= |data| && UnpackFrom(START, fmt, 0, data, pos).Some? && 122 !in fmt
    ensures UnpackFrom(START, fmt, 0, data, pos).value.1 <= |data|
  {
    EndPosition(START, fmt, 0, data, pos);
    if Unterminated(START, fmt, 0, data, pos) {
      LastIsZ(START, fmt, 0, data, pos);
    }
  }

  /** Nor does it leave the data if they end with a zero byte that the last option does not
      find behind it. */
  lemma ZeroEnds(fmt: seq<Char>, data: seq<Byte>, pos: nat)
    requires pos <= |data| && UnpackFrom(START, fmt, 0, data, pos).Some? && data != [] && data[|data| - 1] == 0
    requires var last := LastRead(START, fmt, 0, data, pos); last.Some? ==> last.value.1 < |data|
    ensures UnpackFrom(START, fmt, 0, data, pos).value.1 <= |data|
  {
    EndPosition(START, fmt, 0, data, pos);
  }

  /** A zero byte at the end of the data is not enough: here another option reads it. */
  lemma ZeroTaken()
    ensures UnpackFrom(START, [66, 122], 0, [0], 0) == Some(([Integer(0), Str([])], 2))
  {
    var data: seq<Byte> := [0];
    var d := Details(Kuint, 1, 0, START, 1);
    assert GetDetails(START, 0, [66, 122], 0) == Some(d);
    assert Ordered(data[0..1], START.islittle) == data;
    assert ItemAt(d, data, 0) == Some((Integer(0), 1));
    var e := Details(Kzstr, 0, 0, START, 2);
    assert GetDetails(START, 1, [66, 122], 1) == Some(e);
    assert data[1..1] == [];
    assert ItemAt(e, data, 1) == Some((Str([]), 2));
    hide GetDetails, ItemAt;
    UnpackDone(START, [66, 122], 2, data, 2);
    UnpackStep(START, [66, 122], 1, data, 1);
    UnpackStep(START, [66, 122], 0, data, 0);
    assert [Str([])] + [] == [Str([])];
    assert [Integer(0)] + [Str([])] == [Integer(0), Str([])];
  }
}
