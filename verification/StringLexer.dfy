/** Quoting a string so that the lexer can read it back, and the lexer's reader of short
    literal strings. */
module StringLexer {
  import opened QuotedPieces

  const EOZ := -1
  const MAX_INT := 0x7FFFFFFF

  function Tail(s: seq<Char>): seq<Char> {
    if s == [] then [] else s[1..]
  }

  lemma Move(a: seq<Char>, c: Char, b: seq<Char>)
    ensures a + ([c] + b) == a + [c] + b
  {
  }

  lemma Drop(a: seq<Char>, b: seq<Char>)
    ensures (a + b)[..|a|] == a && (a + b)[|a|..] == b
  {
  }

  lemma DigitsMore(d: seq<Char>, c: Char)
    requires AllDigits(d) && IsDigit(c)
    ensures AllDigits(d + [c]) && DecimalValue(d + [c]) == 10 * DecimalValue(d) + c - 48
  {
    assert (d + [c])[..|d|] == d;
  }

  lemma HexMore(d: seq<Char>, c: Char)
    requires AllHex(d) && IsHexDigit(c)
    ensures AllHex(d + [c]) && HexNumber(d + [c]) == 16 * HexNumber(d) + HexValue(c)
  {
    assert (d + [c])[..|d|] == d;
  }

  /** The pieces were read from the input, and `rest` is left. */
  ghost predicate ReadsTo(input: seq<Char>, del: Char, pieces: seq<Piece>, rest: seq<Char>) {
    if pieces == [] then input == rest
    else Begins(pieces[0], del, input) && ReadsTo(input[|Text(pieces[0])|..], del, pieces[1..], rest)
  }

  lemma BeginsText(p: Piece, del: Char, input: seq<Char>)
    requires Begins(p, del, input)
    ensures |Text(p)| <= |input| && WellFormed(p) && input == Text(p) + input[|Text(p)|..]
  {
  }

  lemma {:induction false} ReadsMore(input: seq<Char>, del: Char, pieces: seq<Piece>, rest: seq<Char>, p: Piece)
    requires ReadsTo(input, del, pieces, rest) && Begins(p, del, rest) && Formed(pieces)
    ensures ReadsTo(input, del, pieces + [p], rest[|Text(p)|..])
    ensures Formed(pieces + [p]) && MeaningOf(pieces + [p]) == MeaningOf(pieces) + Meaning(p)
    decreases |pieces|
  {
    hide Begins, WellFormed, Text, Meaning, Ends;
    BeginsText(p, del, rest);
    if pieces == [] {
      assert ([] + [p])[1..] == [];
      assert MeaningOf([p][1..]) == [];
    } else {
      assert (pieces + [p])[1..] == pieces[1..] + [p];
      BeginsText(pieces[0], del, input);
      ReadsMore(input[|Text(pieces[0])|..], del, pieces[1..], rest, p);
    }
  }

  lemma {:induction false} ReadsEnd(input: seq<Char>, del: Char, pieces: seq<Piece>, rest: seq<Char>)
    requires ReadsTo(input, del, pieces, rest) && rest != [] && rest[0] == del
    ensures Reading(input, del, pieces) && |TextOf(pieces)| < |input| && rest == input[|TextOf(pieces)|..]
    decreases |pieces|
  {
    hide Begins, WellFormed, Text, Ends;
    if pieces != [] {
      BeginsText(pieces[0], del, input);
      ReadsEnd(input[|Text(pieces[0])|..], del, pieces[1..], rest);
      DropTwice(input, |Text(pieces[0])|, |TextOf(pieces[1..])|);
    }
  }

  lemma DropTwice(s: seq<Char>, i: nat, j: nat)
    requires i + j <= |s|
    ensures s[i..][j..] == s[i + j..]
  {
  }

  /** Where nothing can go on, there is no reading at all. */
  lemma {:induction false} ReadsNothing(input: seq<Char>, del: Char, pieces: seq<Piece>, rest: seq<Char>,
                                        other: seq<Piece>)
    requires Delimiter(del) && ReadsTo(input, del, pieces, rest) && Stuck(rest, del)
    ensures !Reading(input, del, other)
    decreases |pieces|
  {
    if pieces != [] && Reading(input, del, other) {
      Kind(pieces[0], del, input);
      if other != [] {
        SamePiece(pieces[0], other[0], del, input);
        ReadsNothing(input[|Text(pieces[0])|..], del, pieces[1..], rest, other[1..]);
      }
    }
  }

  /** Neither a piece nor the delimiter begins the input. */
  ghost predicate Stuck(input: seq<Char>, del: Char) {
    (input != [] ==> input[0] != del) && forall p :: !Begins(p, del, input)
  }

  lemma StuckTop(input: seq<Char>, del: Char)
    requires Delimiter(del) && (input == [] || IsNewline(input[0]))
    ensures Stuck(input, del)
  {
    forall p | Begins(p, del, input) ensures false {
      Kind(p, del, input);
    }
  }

  /** A backslash that is not followed by a known letter, a newline or a digit. */
  lemma StuckEscape(input: seq<Char>, del: Char)
    requires Delimiter(del) && input != [] && input[0] == BACKSLASH
    requires |input| > 1 ==>
      var c := input[1]; Named(c) < 0 && c != LETTER_X && c != LETTER_U && c != LETTER_Z && !IsNewline(c) && !IsDigit(c)
    ensures Stuck(input, del)
  {
    forall p | Begins(p, del, input) ensures false {
      Kind(p, del, input);
    }
  }

  lemma StuckHexa(input: seq<Char>, del: Char)
    requires Delimiter(del) && |input| > 1 && input[0] == BACKSLASH && input[1] == LETTER_X
    requires !(|input| > 3 && IsHexDigit(input[2]) && IsHexDigit(input[3]))
    ensures Stuck(input, del)
  {
    forall p | Begins(p, del, input) ensures false {
      Kind(p, del, input);
      HexaInput(p, del, input);
    }
  }

  lemma HexaInput(p: Piece, del: Char, input: seq<Char>)
    requires Begins(p, del, input) && p.Hexa?
    ensures |input| > 3 && IsHexDigit(input[2]) && IsHexDigit(input[3])
  {
    assert Text(p)[2] == input[2] && Text(p)[3] == input[3];
  }

  /** A code point in braces. */
  predicate IsPoint(d: seq<Char>, rest: seq<Char>, input: seq<Char>) {
    WellFormed(Point(d)) && input == [LETTER_U, OPEN_BRACE] + d + [CLOSE_BRACE] + rest
  }

  lemma StuckPoint(input: seq<Char>, del: Char)
    requires Delimiter(del) && |input| > 1 && input[0] == BACKSLASH && input[1] == LETTER_U
    requires forall d, rest :: !IsPoint(d, rest, input[1..])
    ensures Stuck(input, del)
  {
    forall p | Begins(p, del, input) ensures false {
      Kind(p, del, input);
      var rest := input[|Text(p)|..];
      assert input == Text(p) + rest;
      assert input[1..] == [LETTER_U, OPEN_BRACE] + p.digits + [CLOSE_BRACE] + rest;
      assert IsPoint(p.digits, rest, input[1..]);
    }
  }

  lemma StuckDecimal(input: seq<Char>, del: Char, d: seq<Char>, rest: seq<Char>)
    requires Delimiter(del) && input == [BACKSLASH] + (d + rest) && AllDigits(d) && 1 <= |d| <= 3
      && DecimalValue(d) > 255
    requires |d| < 3 ==> !IsDigit(Head(rest))
    ensures Stuck(input, del)
  {
    assert input[1] == (d + rest)[0] == d[0];
    forall p | Begins(p, del, input) ensures false {
      Kind(p, del, input);
      DecimalRun(p, del, input, d, rest);
    }
  }

  lemma DecimalRun(p: Piece, del: Char, input: seq<Char>, d: seq<Char>, rest: seq<Char>)
    requires Begins(p, del, input) && p.Decimal? && input == [BACKSLASH] + (d + rest) && AllDigits(d) && 1 <= |d| <= 3
    requires |d| < 3 ==> !IsDigit(Head(rest))
    ensures p.digits == d
  {
    var after := input[|Text(p)|..];
    assert input == Text(p) + after;
    assert d + rest == input[1..] == p.digits + after;
    SameDigits(d, rest, p.digits, after);
  }

  // ---------- code points ----------

  /** Builds the encoding from its last byte to its first. */
  method Utf8Encode(x0: nat) returns (bytes: seq<Char>)
    requires x0 <= 0x10FFFF
    ensures bytes == Utf8(x0)
  {
    var x := x0;
    if x < 0x80 {
      return [x];
    }
    var first := 0x3f;
    bytes := [0x80 + x % 64];
    x := x / 64;
    first := first / 2;
    while x > first
      invariant Encoding(x0, x, first, bytes)
      decreases first
    {
      EncodingStep(x0, x, first, bytes);
      bytes := [0x80 + x % 64] + bytes;
      x := x / 64;
      first := first / 2;
    }
    EncodingDone(x0, x, first, bytes);
    bytes := [256 - 2 * (first + 1) + x] + bytes;
  }

  /** What the loop keeps: the last bytes, and how much fits in the first one. */
  ghost predicate Encoding(x0: nat, x: nat, first: nat, bytes: seq<Char>) {
    x0 >= 0x80 &&
    if |bytes| == 1 then first == 31 && x == x0 / 64 && bytes == [0x80 + x0 % 64]
    else if |bytes| == 2 then
      first == 15 && x0 >= 0x800 && x == x0 / 64 / 64 && bytes == [0x80 + x0 / 64 % 64, 0x80 + x0 % 64]
    else
      |bytes| == 3 && first == 7 && x0 >= 0x10000 && x == x0 / 64 / 64 / 64
      && bytes == [0x80 + x0 / 64 / 64 % 64, 0x80 + x0 / 64 % 64, 0x80 + x0 % 64]
  }

  lemma EncodingStep(x0: nat, x: nat, first: nat, bytes: seq<Char>)
    requires Encoding(x0, x, first, bytes) && x > first && x0 <= 0x10FFFF
    ensures Encoding(x0, x / 64, first / 2, [0x80 + x % 64] + bytes)
  {
  }

  lemma EncodingDone(x0: nat, x: nat, first: nat, bytes: seq<Char>)
    requires Encoding(x0, x, first, bytes) && x <= first && x0 <= 0x10FFFF
    ensures 256 - 2 * (first + 1) + x < 256 && [256 - 2 * (first + 1) + x] + bytes == Utf8(x0)
  {
  }

  // ---------- the reader ----------

  class LexState {
    var z: seq<Char>
    var current: int
    var buff: seq<Char>
    var linenumber: nat

    ghost predicate Valid()
      reads this
    {
      -1 <= current < 256 && (current == EOZ ==> z == [])
    }

    /** The input from the current character on. */
    ghost function Rest(): seq<Char>
      requires Valid()
      reads this
    {
      if current == EOZ then [] else [current] + z
    }

    constructor (input: seq<Char>)
      ensures Valid() && Rest() == input && buff == [] && linenumber == 1
    {
      current := if input == [] then EOZ else input[0];
      z := if input == [] then [] else input[1..];
      buff, linenumber := [], 1;
    }

    method Next()
      requires Valid()
      modifies this`current, this`z
      ensures Valid() && Rest() == Tail(old(Rest())) && (old(current) != EOZ ==> Rest() == old(z))
    {
      if z == [] {
        current := EOZ;
      } else {
        current, z := z[0], z[1..];
      }
    }

    method Save(c: Char)
      modifies this`buff
      ensures buff == old(buff) + [c]
    {
      buff := buff + [c];
    }

    /** Removes the last `n` characters from the buffer. */
    method BuffRemove(n: nat)
      requires n <= |buff|
      modifies this`buff
      ensures buff == old(buff)[..|old(buff)| - n]
    {
      buff := buff[..|buff| - n];
    }

    method SaveAndNext()
      requires Valid() && current != EOZ
      modifies this`current, this`z, this`buff
      ensures Valid() && Rest() == old(Rest())[1..] == old(z) && buff == old(buff) + [old(current)]
    {
      Save(current);
      Next();
    }

    /** Skips a line break of one or two characters. */
    method IncLineNumber() returns (ghost n: seq<Char>)
      requires Valid() && IsNewline(current) && linenumber + 1 < MAX_INT
      modifies this`current, this`z, this`linenumber
      ensures Valid() && old(Rest()) == n + Rest() && WellFormed(Break(n)) && Ends(Break(n), Head(Rest()))
      ensures linenumber == old(linenumber) + 1
    {
      var first := current;
      n := [first];
      Next();
      if IsNewline(current) && current != first {
        n := n + [current];
        Next();
      }
      linenumber := linenumber + 1;
    }

    /** Reads up to three decimal digits. */
    method ReadDecEsc() returns (ok: bool, r: nat, ghost d: seq<Char>)
      requires Valid() && IsDigit(current)
      modifies this`current, this`z, this`buff
      ensures Valid() && old(Rest()) == d + Rest() && 1 <= |d| <= 3 && AllDigits(d)
        && (|d| < 3 ==> !IsDigit(Head(Rest())))
      ensures r == DecimalValue(d) && (ok <==> r <= 255) && (ok ==> buff == old(buff))
    {
      hide AllDigits, DecimalValue;
      var i := 0;
      r, d := 0, [];
      NoDigitsYet();
      while i < 3 && IsDigit(current)
        invariant Valid() && i == |d| <= 3 && AllDigits(d) && r == DecimalValue(d)
        invariant old(Rest()) == d + Rest() && buff == old(buff) + d && (i == 0 ==> IsDigit(current))
        decreases 3 - i
      {
        DigitsMore(d, current);
        Move(d, current, z);
        r := 10 * r + current - 48;
        d := d + [current];
        SaveAndNext();
        i := i + 1;
      }
      if r > 255 {
        return false, r, d;
      }
      Drop(old(buff), d);
      BuffRemove(i);
      ok := true;
    }

    /** Goes to the next character, which must be a hexadecimal digit. */
    method GetHexa() returns (ok: bool, r: nat)
      requires Valid() && current != EOZ
      modifies this`current, this`z, this`buff
      ensures Valid() && Rest() == old(Rest())[1..] && buff == old(buff) + [old(current)]
      ensures ok <==> IsHexDigit(current)
      ensures ok ==> r == HexValue(current)
    {
      SaveAndNext();
      if !IsHexDigit(current) {
        return false, 0;
      }
      return true, HexValue(current);
    }

    /** Reads two hexadecimal digits; the second one stays the current character. */
    method ReadHexaEsc() returns (ok: bool, r: nat)
      requires Valid() && current == LETTER_X
      modifies this`current, this`z, this`buff
      ensures var s := old(Rest()); ok <==> |s| > 2 && IsHexDigit(s[1]) && IsHexDigit(s[2])
      ensures ok ==>
        var s := old(Rest());
        Valid() && Rest() == s[2..] && buff == old(buff) && r == 16 * HexValue(s[1]) + HexValue(s[2])
    {
      ghost var s := Rest();
      var h;
      ok, h := GetHexa();
      if !ok {
        assert Rest() == s[1..];
        return false, 0;
      }
      assert s[1] == current;
      var l;
      ok, l := GetHexa();
      assert Rest() == s[2..];
      if !ok {
        assert |s| > 2 ==> s[2] == current;
        return false, 0;
      }
      r := 16 * h + l;
      BuffRemove(2);
    }

    /** Reads a code point in braces. */
    method ReadUtf8Esc() returns (ok: bool, r: nat, ghost d: seq<Char>)
      requires Valid() && current == LETTER_U && buff != []
      modifies this`current, this`z, this`buff
      ensures !ok ==> forall e, rest :: !IsPoint(e, rest, old(Rest()))
      ensures ok ==>
        Valid() && IsPoint(d, Rest(), old(Rest())) && r == HexNumber(d) && buff == old(buff)[..|old(buff)| - 1]
    {
      hide AllHex, HexNumber, IsPoint, Scanned;
      ghost var s, b := Rest(), buff;
      var i := 4;
      SaveAndNext();
      if current != OPEN_BRACE {
        NoBrace(s);
        return false, 0, [];
      }
      ok, r := GetHexa();
      d := [];
      ScanStart(s, b, Rest());
      if !ok {
        ScanNone(s, b, buff, d, Rest());
        return;
      }
      ScanNext(s, b, buff, d, current, z);
      d := d + [current];
      SaveAndNext();
      while IsHexDigit(current)
        invariant Valid() && d != [] && Scanned(s, b, buff, d, Rest())
        invariant AllHex(d) && r == HexNumber(d) <= 0x10FFFF && i == 3 + |d|
        decreases |Rest()|
      {
        ScanNext(s, b, buff, d, current, z);
        i := i + 1;
        r := 16 * r + HexValue(current);
        d := d + [current];
        if r > 0x10FFFF {
          ScanLarge(s, b, buff + [current], d, z);
          return false, 0, [];
        }
        SaveAndNext();
      }
      if current != CLOSE_BRACE {
        ScanNone(s, b, buff, d, Rest());
        return false, 0, [];
      }
      ScanDone(s, b, buff, d, z);
      Next();
      BuffRemove(i);
      ok := true;
    }

    /** Reads an escape sequence with a number. */
    method ReadNumber(ghost del: Char, ghost s: seq<Char>) returns (ok: bool, ghost p: Piece)
      requires Valid() && Delimiter(del) && (current == LETTER_X || current == LETTER_U || IsDigit(current))
      requires buff != [] && s == [BACKSLASH] + Rest()
      modifies this`current, this`z, this`buff
      ensures !ok ==> Stuck(s, del)
      ensures ok ==>
        Valid() && Whole(p, s, Rest()) && WellFormed(p) && buff == old(buff)[..|old(buff)| - 1] + Meaning(p)
    {
      hide Begins, Stuck, HexNumber, DecimalValue, Utf8, IsBreak, IsPoint, WellFormed, Ends, Text, Meaning, Whole;
      hide HexValue, IsHexDigit, AllDigits, AllHex;
      if current == LETTER_X {
        ok, p := SaveHexa(del, s);
      } else if current == LETTER_U {
        ok, p := SavePoint(del, s);
      } else {
        ok, p := SaveDecimal(del, s);
      }
    }

    method SaveHexa(ghost del: Char, ghost s: seq<Char>) returns (ok: bool, ghost p: Piece)
      requires Valid() && Delimiter(del) && current == LETTER_X
      requires buff != [] && s == [BACKSLASH] + Rest()
      modifies this`current, this`z, this`buff
      ensures !ok ==> Stuck(s, del)
      ensures ok ==>
        Valid() && Whole(p, s, Rest()) && WellFormed(p) && buff == old(buff)[..|old(buff)| - 1] + Meaning(p)
    {
      hide Begins, Stuck, HexNumber, DecimalValue, Utf8, IsBreak, IsPoint, WellFormed, Ends, Text, Meaning, Whole;
      hide HexValue, IsHexDigit, AllDigits, AllHex;
      ghost var r := Rest();
      assert r != [] && r[0] == LETTER_X;
      hide Tail, Delimiter, Rest, Valid;
      HexaRead(s, r, del);
      var c;
      ok, c := ReadHexaEsc();
      if !ok {
        return false, Zap([]);
      }
      p := Hexa(r[1], r[2]);
      Next();
      BuffRemove(1);
      Save(c);
    }

    method SavePoint(ghost del: Char, ghost s: seq<Char>) returns (ok: bool, ghost p: Piece)
      requires Valid() && Delimiter(del) && current == LETTER_U
      requires buff != [] && s == [BACKSLASH] + Rest()
      modifies this`current, this`z, this`buff
      ensures !ok ==> Stuck(s, del)
      ensures ok ==>
        Valid() && Whole(p, s, Rest()) && WellFormed(p) && buff == old(buff)[..|old(buff)| - 1] + Meaning(p)
    {
      hide Begins, Stuck, HexNumber, DecimalValue, Utf8, IsBreak, IsPoint, WellFormed, Ends, Text, Meaning, Whole;
      hide HexValue, IsHexDigit, AllDigits, AllHex;
      ghost var r := Rest();
      assert s[1] == current;
      var c;
      ghost var d;
      ok, c, d := ReadUtf8Esc();
      if !ok {
        StuckPoint(s, del);
        return false, Zap([]);
      }
      p := Point(d);
      WholePoint(s, r, Rest(), d);
      var bytes := Utf8Encode(c);
      PutAll(bytes);
    }

    method SaveDecimal(ghost del: Char, ghost s: seq<Char>) returns (ok: bool, ghost p: Piece)
      requires Valid() && Delimiter(del) && IsDigit(current)
      requires buff != [] && s == [BACKSLASH] + Rest()
      modifies this`current, this`z, this`buff
      ensures !ok ==> Stuck(s, del)
      ensures ok ==>
        Valid() && Whole(p, s, Rest()) && WellFormed(p) && buff == old(buff)[..|old(buff)| - 1] + Meaning(p)
    {
      hide Begins, Stuck, HexNumber, DecimalValue, Utf8, IsBreak, IsPoint, WellFormed, Ends, Text, Meaning, Whole;
      hide HexValue, IsHexDigit, AllDigits, AllHex;
      ghost var r := Rest();
      assert s[1] == current;
      var c;
      ghost var d;
      ok, c, d := ReadDecEsc();
      if !ok {
        StuckDecimal(s, del, d, Rest());
        return false, Zap([]);
      }
      p := Decimal(d);
      BuffRemove(1);
      Save(c);
      WholeDecimal(s, r, Rest(), d);
    }

    /** Reads an escape sequence. An end of the input right after the backslash makes the
        loop of `ReadString` fail; here it counts as a failure of the sequence. */
    method ReadEscape(ghost del: Char) returns (ok: bool, ghost p: Piece)
      requires Valid() && Delimiter(del) && current == BACKSLASH && linenumber + |Rest()| < MAX_INT
      modifies this
      ensures !ok ==> Stuck(old(Rest()), del)
      ensures ok ==>
        && Valid() && Begins(p, del, old(Rest())) && Rest() == old(Rest())[|Text(p)|..] && |Rest()| < |old(Rest())|
        && buff == old(buff) + Meaning(p) && linenumber + |Rest()| < MAX_INT
    {
      hide Begins, Stuck, IsBreak, WellFormed, Ends, Text, Meaning, Whole, Tail, AllSpaces;
      ghost var s, b := Rest(), buff;
      SaveAndNext();
      ghost var r := Rest();
      assert s == [BACKSLASH] + r && buff[..|buff| - 1] == b;
      if current == EOZ {
        StuckEscape(s, del);
        return false, Zap([]);
      }
      assert s[1] == current;
      if IsNewline(current) {
        ghost var n := IncLineNumber();
        p := Break(n);
        BuffRemove(1);
        Save(NEWLINE);
        WholeBreak(s, r, Rest(), n);
      } else if current == LETTER_Z {
        BuffRemove(1);
        ghost var spaces := SkipSpaces();
        p := Zap(spaces);
        WholeZap(s, r, Rest(), spaces);
        assert b + [] == b;
      } else if Named(current) >= 0 {
        p := Escape(current);
        var c := Named(current);
        WholeNamed(s, current, z);
        Next();
        BuffRemove(1);
        Save(c);
      } else {
        if current != LETTER_X && current != LETTER_U && !IsDigit(current) {
          StuckEscape(s, del);
          return false, Zap([]);
        }
        ok, p := ReadNumber(del, s);
        if !ok {
          return;
        }
      }
      ok := true;
      PieceRead(p, del, s, Rest());
    }

    /** Reads one piece of a string. */
    method ReadPiece(ghost del: Char) returns (ok: bool, ghost p: Piece)
      requires Valid() && Delimiter(del) && current != del && linenumber + |Rest()| < MAX_INT
      modifies this
      ensures !ok ==> Stuck(old(Rest()), del)
      ensures ok ==>
        && Valid() && Begins(p, del, old(Rest())) && Rest() == old(Rest())[|Text(p)|..] && |Rest()| < |old(Rest())|
        && WellFormed(p) && buff == old(buff) + Meaning(p) && linenumber + |Rest()| < MAX_INT
    {
      hide Begins, Stuck, Meaning, Text, Ends;
      if current == EOZ || IsNewline(current) {
        StuckTop(Rest(), del);
        return false, Zap([]);
      } else if current == BACKSLASH {
        ghost var s := Rest();
        ok, p := ReadEscape(del);
        if ok {
          BeginsText(p, del, s);
        }
      } else {
        p := Plain(current);
        PlainPiece(current, del, Rest());
        SaveAndNext();
        ok := true;
      }
    }

    /** Saves the bytes of a code point. */
    method PutAll(bytes: seq<Char>)
      modifies this`buff
      ensures buff == old(buff) + bytes
    {
      var i := 0;
      while i < |bytes|
        invariant i <= |bytes| && buff == old(buff) + bytes[..i]
      {
        Save(bytes[i]);
        i := i + 1;
      }
    }

    /** Skips the letter `z` and the spaces after it. */
    method SkipSpaces() returns (ghost spaces: seq<Char>)
      requires Valid() && current == LETTER_Z && linenumber + |Rest()| < MAX_INT
      modifies this`current, this`z, this`linenumber
      ensures Valid() && old(Rest()) == [LETTER_Z] + spaces + Rest() && AllSpaces(spaces) && !IsSpace(Head(Rest()))
      ensures linenumber + |Rest()| < MAX_INT
    {
      hide AllSpaces;
      Next();
      spaces := [];
      NoSpacesYet(old(Rest()), Rest());
      while IsSpace(current)
        invariant Valid() && old(Rest()) == [LETTER_Z] + spaces + Rest() && AllSpaces(spaces)
          && linenumber + |Rest()| < MAX_INT
        decreases |Rest()|
      {
        if IsNewline(current) {
          ghost var r := Rest();
          ghost var n := IncLineNumber();
          MoreSpaces(spaces, n, r, Rest());
          spaces := spaces + n;
        } else {
          MoreSpaces(spaces, [current], Rest(), z);
          spaces := spaces + [current];
          Next();
        }
      }
    }

    /** Reads the pieces of a string up to the delimiter. */
    method ReadPieces(del: Char, ghost input: seq<Char>) returns (ok: bool, ghost pieces: seq<Piece>)
      requires Valid() && Delimiter(del) && input == Rest() && buff == [del] && linenumber + |Rest()| < MAX_INT
      modifies this
      ensures ok <==> Readable(input, del)
      ensures ok ==>
        Valid() && current == del && ReadsTo(input, del, pieces, Rest()) && Formed(pieces)
          && buff == [del] + MeaningOf(pieces)
    {
      hide Begins, Stuck, Reading, Readable, ReadsTo, MeaningOf, TextOf, Formed, Meaning, Text, WellFormed;
      pieces := [];
      NothingRead(input, del);
      assert [del] + [] == [del];
      while current != del
        invariant Valid() && ReadsTo(input, del, pieces, Rest()) && Formed(pieces) && buff == [del] + MeaningOf(pieces)
        invariant linenumber + |Rest()| < MAX_INT
        decreases |Rest()|
      {
        ghost var rest := Rest();
        ghost var p;
        ok, p := ReadPiece(del);
        if !ok {
          NeverReads(input, del, pieces, rest);
          return false, [];
        }
        ReadsMore(input, del, pieces, rest, p);
        Glue(del, MeaningOf(pieces), Meaning(p));
        pieces := pieces + [p];
      }
      ReadDone(input, del, pieces, Rest());
      ok := true;
    }

    /** Reads a short literal string. It succeeds exactly when the input is a sequence of
        pieces and the delimiter, and the string is what the pieces stand for. */
    method ReadString(del: Char) returns (r: seq<Char>, ok: bool)
      requires Valid() && Delimiter(del) && current == del && buff == [] && linenumber + |Rest()| < MAX_INT
      modifies this
      ensures ok <==> Readable(old(Rest())[1..], del)
      ensures ok ==> Valid() && ReadAs(old(Rest())[1..], del, r, Rest())
    {
      hide Reading, Readable, ReadsTo, MeaningOf, TextOf, Formed, ReadAs;
      ghost var input := Rest()[1..];
      SaveAndNext();
      ghost var pieces: seq<Piece>;
      ok, pieces := ReadPieces(del, input);
      if !ok {
        return [], false;
      }
      ReadDone(input, del, pieces, Rest());
      SaveAndNext();
      Trim(del, MeaningOf(pieces), buff);
      r := buff[1..|buff| - 1];
    }
  }

  /** The input is a sequence of pieces with a delimiter behind it. */
  ghost predicate Readable(input: seq<Char>, del: Char) {
    exists pieces :: Reading(input, del, pieces)
  }

  /** `r` is what the pieces at the beginning of the input stand for, and `rest` is what is
      behind the delimiter. */
  ghost predicate ReadAs(input: seq<Char>, del: Char, r: seq<Char>, rest: seq<Char>) {
    forall pieces :: Reading(input, del, pieces) ==>
      Formed(pieces) && r == MeaningOf(pieces) && input == TextOf(pieces) + [del] + rest
  }

  /** At the delimiter the pieces that were read are the only reading. */
  lemma ReadDone(input: seq<Char>, del: Char, pieces: seq<Piece>, rest: seq<Char>)
    requires Delimiter(del) && ReadsTo(input, del, pieces, rest) && Formed(pieces) && rest != [] && rest[0] == del
    ensures Readable(input, del) && ReadAs(input, del, MeaningOf(pieces), rest[1..])
  {
    hide ReadsTo, Reading, TextOf, MeaningOf;
    ReadsEnd(input, del, pieces, rest);
    TextInput(input, del, pieces);
    OneReading(input, del, pieces);
    assert input == input[..|TextOf(pieces)|] + [del] + rest[1..];
  }

  lemma Glue(del: Char, a: seq<Char>, b: seq<Char>)
    ensures [del] + a + b == [del] + (a + b)
  {
  }

  lemma Trim(del: Char, s: seq<Char>, b: seq<Char>)
    requires b == [del] + s + [del]
    ensures b[1..|b| - 1] == s
  {
  }

  lemma NothingRead(input: seq<Char>, del: Char)
    ensures ReadsTo(input, del, [], input) && Formed([]) && MeaningOf([]) == []
  {
  }

  lemma PlainPiece(c: Char, del: Char, rest: seq<Char>)
    requires rest != [] && rest[0] == c && c != del && c != BACKSLASH && !IsNewline(c)
    ensures Begins(Plain(c), del, rest) && |Text(Plain(c))| == 1 && WellFormed(Plain(c)) && Meaning(Plain(c)) == [c]
  {
  }

  /** The input `s` is the text of the piece, which is not plain, and the rest. */
  ghost predicate Whole(p: Piece, s: seq<Char>, rest: seq<Char>) {
    WellFormed(p) && !p.Plain? && Ends(p, Head(rest)) && s == Text(p) + rest
  }

  lemma WholeHexa(s: seq<Char>, rest: seq<Char>)
    requires |s| > 3 && s[0] == BACKSLASH && s[1] == LETTER_X && IsHexDigit(s[2]) && IsHexDigit(s[3]) && rest == s[4..]
    ensures Whole(Hexa(s[2], s[3]), s, rest) && WellFormed(Hexa(s[2], s[3]))
    ensures Meaning(Hexa(s[2], s[3])) == [16 * HexValue(s[2]) + HexValue(s[3])]
  {
  }

  /** Behind a backslash and an `x` two hexadecimal digits are a piece, and nothing else is. */
  lemma HexaRead(s: seq<Char>, r: seq<Char>, del: Char)
    requires Delimiter(del) && s == [BACKSLASH] + r && r != [] && r[0] == LETTER_X
    ensures
      if |r| > 2 && IsHexDigit(r[1]) && IsHexDigit(r[2]) then
        && Whole(Hexa(r[1], r[2]), s, Tail(r[2..])) && WellFormed(Hexa(r[1], r[2]))
        && Meaning(Hexa(r[1], r[2])) == [16 * HexValue(r[1]) + HexValue(r[2])]
      else Stuck(s, del)
  {
    hide Whole, Stuck, Delimiter, IsHexDigit, HexValue, WellFormed, Meaning;
    assert s[1] == LETTER_X;
    if |r| > 2 && IsHexDigit(r[1]) && IsHexDigit(r[2]) {
      assert s[2] == r[1] && s[3] == r[2] && Tail(r[2..]) == s[4..];
      WholeHexa(s, s[4..]);
    } else {
      assert |s| > 3 ==> s[2] == r[1] && s[3] == r[2];
      StuckHexa(s, del);
    }
  }

  lemma WholePoint(s: seq<Char>, r: seq<Char>, rest: seq<Char>, d: seq<Char>)
    requires s == [BACKSLASH] + r && IsPoint(d, rest, r)
    ensures Whole(Point(d), s, rest) && WellFormed(Point(d)) && AllHex(d) && HexNumber(d) <= 0x10FFFF
    ensures Meaning(Point(d)) == Utf8(HexNumber(d))
  {
  }

  lemma WholeBreak(s: seq<Char>, r: seq<Char>, rest: seq<Char>, n: seq<Char>)
    requires s == [BACKSLASH] + r && r == n + rest && WellFormed(Break(n)) && Ends(Break(n), Head(rest))
    ensures Whole(Break(n), s, rest) && WellFormed(Break(n)) && Meaning(Break(n)) == [NEWLINE]
  {
  }

  lemma WholeZap(s: seq<Char>, r: seq<Char>, rest: seq<Char>, spaces: seq<Char>)
    requires s == [BACKSLASH] + r && r == [LETTER_Z] + spaces + rest && AllSpaces(spaces) && !IsSpace(Head(rest))
    ensures Whole(Zap(spaces), s, rest) && WellFormed(Zap(spaces)) && Meaning(Zap(spaces)) == []
  {
  }

  lemma WholeNamed(s: seq<Char>, c: Char, rest: seq<Char>)
    requires s == [BACKSLASH] + ([c] + rest) && Named(c) >= 0
    ensures Whole(Escape(c), s, rest) && WellFormed(Escape(c)) && Meaning(Escape(c)) == [Named(c)]
  {
  }

  lemma WholeDecimal(s: seq<Char>, r: seq<Char>, rest: seq<Char>, d: seq<Char>)
    requires s == [BACKSLASH] + r && r == d + rest && 1 <= |d| <= 3 && AllDigits(d) && DecimalValue(d) <= 255
    requires |d| < 3 ==> !IsDigit(Head(rest))
    ensures Whole(Decimal(d), s, rest) && WellFormed(Decimal(d)) && Meaning(Decimal(d)) == [DecimalValue(d)]
  {
  }

  lemma NoSpacesYet(s: seq<Char>, rest: seq<Char>)
    requires s == [LETTER_Z] + rest
    ensures s == [LETTER_Z] + [] + rest && AllSpaces([])
  {
  }

  lemma MoreSpaces(spaces: seq<Char>, n: seq<Char>, r: seq<Char>, rest: seq<Char>)
    requires AllSpaces(spaces) && r == n + rest && n != [] && forall i :: 0 <= i < |n| ==> IsSpace(n[i])
    ensures AllSpaces(spaces + n) && [LETTER_Z] + spaces + r == [LETTER_Z] + (spaces + n) + rest && |rest| < |r|
  {
  }

  lemma NoDigitsYet()
    ensures AllDigits([]) && DecimalValue([]) == 0
  {
  }

  /** The digits `d` of a code point have been read from `s`, and `rest` is left; the
      buffer held `b` before. */
  ghost predicate Scanned(s: seq<Char>, b: seq<Char>, buff: seq<Char>, d: seq<Char>, rest: seq<Char>) {
    AllHex(d) && s == [LETTER_U, OPEN_BRACE] + d + rest && buff == b + [LETTER_U, OPEN_BRACE] + d
  }

  lemma ScanStart(s: seq<Char>, b: seq<Char>, rest: seq<Char>)
    requires |s| >= 2 && s[0] == LETTER_U && s[1] == OPEN_BRACE && rest == s[1..][1..]
    ensures Scanned(s, b, b + [LETTER_U] + [OPEN_BRACE], [], rest) && AllHex([]) && HexNumber([]) == 0
  {
    assert s == [LETTER_U, OPEN_BRACE] + [] + rest;
  }

  lemma ScanNext(s: seq<Char>, b: seq<Char>, buff: seq<Char>, d: seq<Char>, c: Char, z: seq<Char>)
    requires Scanned(s, b, buff, d, [c] + z) && IsHexDigit(c)
    ensures Scanned(s, b, buff + [c], d + [c], z) && AllHex(d) && AllHex(d + [c])
    ensures HexNumber(d + [c]) == 16 * HexNumber(d) + HexValue(c)
  {
    hide AllHex, HexNumber;
    HexMore(d, c);
    Move([LETTER_U, OPEN_BRACE] + d, c, z);
    assert [LETTER_U, OPEN_BRACE] + d + [c] == [LETTER_U, OPEN_BRACE] + (d + [c]);
    assert b + [LETTER_U, OPEN_BRACE] + d + [c] == b + [LETTER_U, OPEN_BRACE] + (d + [c]);
  }

  lemma ScanNone(s: seq<Char>, b: seq<Char>, buff: seq<Char>, d: seq<Char>, after: seq<Char>)
    requires Scanned(s, b, buff, d, after) && !IsHexDigit(Head(after)) && (d == [] || Head(after) != CLOSE_BRACE)
    ensures forall e, rest :: !IsPoint(e, rest, s)
  {
    NoDigits(s, d, after);
  }

  lemma ScanLarge(s: seq<Char>, b: seq<Char>, buff: seq<Char>, d: seq<Char>, after: seq<Char>)
    requires Scanned(s, b, buff, d, after) && AllHex(d) && HexNumber(d) > 0x10FFFF
    ensures forall e, rest :: !IsPoint(e, rest, s)
  {
    NoNumber(s, d, after);
  }

  lemma ScanDone(s: seq<Char>, b: seq<Char>, buff: seq<Char>, d: seq<Char>, z: seq<Char>)
    requires Scanned(s, b, buff, d, [CLOSE_BRACE] + z) && d != [] && AllHex(d) && HexNumber(d) <= 0x10FFFF && b != []
    ensures IsPoint(d, z, s) && 3 + |d| <= |buff| && buff[..|buff| - (3 + |d|)] == b[..|b| - 1]
  {
    Move([LETTER_U, OPEN_BRACE] + d, CLOSE_BRACE, z);
  }

  lemma PointSecond(d: seq<Char>, rest: seq<Char>, s: seq<Char>)
    requires IsPoint(d, rest, s)
    ensures |s| > 1 && s[1] == OPEN_BRACE
  {
  }

  lemma NoBrace(s: seq<Char>)
    requires s != [] && Head(s[1..]) != OPEN_BRACE
    ensures forall d, rest :: !IsPoint(d, rest, s)
  {
    forall d: seq<Char>, rest | IsPoint(d, rest, s) ensures false {
      PointSecond(d, rest, s);
    }
  }

  /** The digits of a code point are a whole run of digits. */
  lemma PointRun(s: seq<Char>, d: seq<Char>, after: seq<Char>, e: seq<Char>, rest: seq<Char>)
    requires s == [LETTER_U, OPEN_BRACE] + d + after && AllHex(d) && !IsHexDigit(Head(after)) && IsPoint(e, rest, s)
    ensures d == e && after == [CLOSE_BRACE] + rest
  {
    assert s == [LETTER_U, OPEN_BRACE] + e + ([CLOSE_BRACE] + rest);
    Rest([LETTER_U, OPEN_BRACE], d, after, e, [CLOSE_BRACE] + rest);
    SameRun(d, after, e, [CLOSE_BRACE] + rest, c => IsHexDigit(c));
    Drop(d, after);
    Drop(e, [CLOSE_BRACE] + rest);
  }

  /** The digits are not followed by the closing brace. */
  lemma NoDigits(s: seq<Char>, d: seq<Char>, after: seq<Char>)
    requires s == [LETTER_U, OPEN_BRACE] + d + after && AllHex(d) && !IsHexDigit(Head(after))
      && (d == [] || Head(after) != CLOSE_BRACE)
    ensures forall e, rest :: !IsPoint(e, rest, s)
  {
    forall e, rest | IsPoint(e, rest, s) ensures false {
      PointRun(s, d, after, e, rest);
    }
  }

  /** The digits so far are already too large a number. */
  lemma NoNumber(s: seq<Char>, d: seq<Char>, after: seq<Char>)
    requires s == [LETTER_U, OPEN_BRACE] + d + after && AllHex(d) && HexNumber(d) > 0x10FFFF
    ensures forall e, rest :: !IsPoint(e, rest, s)
  {
    forall e, rest | IsPoint(e, rest, s) ensures false {
      LongerPoint(s, d, after, e, rest);
    }
  }

  lemma LongerPoint(s: seq<Char>, d: seq<Char>, after: seq<Char>, e: seq<Char>, rest: seq<Char>)
    requires s == [LETTER_U, OPEN_BRACE] + d + after && AllHex(d) && IsPoint(e, rest, s)
    ensures HexNumber(d) <= HexNumber(e)
  {
    assert s == [LETTER_U, OPEN_BRACE] + e + ([CLOSE_BRACE] + rest);
    Rest([LETTER_U, OPEN_BRACE], d, after, e, [CLOSE_BRACE] + rest);
    RunHead(e, [CLOSE_BRACE] + rest, d, after, c => IsHexDigit(c));
    assert d == (d + after)[..|d|] == e[..|d|];
    HexPrefix(e, |d|);
  }

  lemma {:induction false} HexPrefix(e: seq<Char>, k: nat)
    requires AllHex(e) && k <= |e|
    ensures HexNumber(e[..k]) <= HexNumber(e)
    decreases |e|
  {
    if k < |e| {
      HexPrefix(e[..|e| - 1], k);
      assert e[..|e| - 1][..k] == e[..k];
    } else {
      assert e[..k] == e;
    }
  }

  lemma PieceRead(p: Piece, del: Char, s: seq<Char>, rest: seq<Char>)
    requires Whole(p, s, rest)
    ensures Begins(p, del, s) && rest == s[|Text(p)|..] && |Text(p)| > 0 && |rest| < |s|
  {
  }

  lemma NeverReads(input: seq<Char>, del: Char, pieces: seq<Piece>, rest: seq<Char>)
    requires Delimiter(del) && ReadsTo(input, del, pieces, rest) && Stuck(rest, del)
    ensures !Readable(input, del)
  {
    forall other ensures !Reading(input, del, other) {
      ReadsNothing(input, del, pieces, rest, other);
    }
  }

  lemma OneReading(input: seq<Char>, del: Char, pieces: seq<Piece>)
    requires Delimiter(del) && Reading(input, del, pieces)
    ensures forall other :: Reading(input, del, other) ==> other == pieces
  {
    forall other | Reading(input, del, other) ensures other == pieces {
      SameReading(input, del, other, pieces);
    }
  }

  lemma {:induction false} TextInput(input: seq<Char>, del: Char, pieces: seq<Piece>)
    requires Reading(input, del, pieces)
    ensures |TextOf(pieces)| < |input| && input[..|TextOf(pieces)|] == TextOf(pieces) && input[|TextOf(pieces)|] == del
    decreases |pieces|
  {
    if pieces != [] {
      var t := Text(pieces[0]);
      BeginsText(pieces[0], del, input);
      hide Begins, WellFormed, Text, Meaning, Ends;
      TextInput(input[|t|..], del, pieces[1..]);
      assert input == t + input[|t|..];
      assert TextOf(pieces) == t + TextOf(pieces[1..]);
    }
  }
}
