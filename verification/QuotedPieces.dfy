/** The body of a short literal string as a sequence of pieces, each with its text and the
    bytes that it stands for. */
module QuotedPieces {
  type Char = x: int | 0 <= x < 256

  const QUOTE: Char := 34
  const APOSTROPHE: Char := 39
  const BACKSLASH: Char := 92
  const NEWLINE: Char := 10
  const RETURN: Char := 13
  const OPEN_BRACE: Char := 123
  const CLOSE_BRACE: Char := 125
  const LETTER_U: Char := 117
  const LETTER_X: Char := 120
  const LETTER_Z: Char := 122

  predicate IsNewline(c: int) { c == 10 || c == 13 }

  predicate IsDigit(c: int) { 48 <= c <= 57 }

  predicate IsHexDigit(c: int) { IsDigit(c) || 65 <= c <= 70 || 97 <= c <= 102 }

  predicate IsSpace(c: int) { c == 32 || 9 <= c <= 13 }

  predicate IsControl(c: int) { 0 <= c <= 31 || c == 127 }

  function HexValue(c: int): (v: nat)
    requires IsHexDigit(c)
    ensures v < 16
  {
    if IsDigit(c) then c - 48 else if c <= 70 then c - 55 else c - 87
  }

  function DecimalValue(d: seq<Char>): nat
    requires AllDigits(d)
  {
    if d == [] then 0 else 10 * DecimalValue(d[..|d| - 1]) + (d[|d| - 1] - 48)
  }

  predicate AllDigits(d: seq<Char>) {
    forall i :: 0 <= i < |d| ==> IsDigit(d[i])
  }

  predicate AllHex(d: seq<Char>) {
    forall i :: 0 <= i < |d| ==> IsHexDigit(d[i])
  }

  predicate AllSpaces(s: seq<Char>) {
    forall i :: 0 <= i < |s| ==> IsSpace(s[i])
  }

  function HexNumber(d: seq<Char>): nat
    requires AllHex(d)
  {
    if d == [] then 0 else 16 * HexNumber(d[..|d| - 1]) + HexValue(d[|d| - 1])
  }

  /** The letters and signs that stand for one byte after a backslash. */
  function Named(c: int): int {
    if c == 97 then 7 else if c == 98 then 8 else if c == 102 then 12 else if c == 110 then 10
    else if c == 114 then 13 else if c == 116 then 9 else if c == 118 then 11
    else if c == 92 || c == 34 || c == 39 then c else -1
  }

  /** In this order the seven letters stand for the bytes from 7 to 13, the two quotes and
      the backslash for themselves, and nothing else has a name. */
  lemma Names(c: int)
    ensures forall i :: 0 <= i < 7 ==> Named("abtnvfr"[i] as int) == 7 + i
    ensures forall i :: 0 <= i < 3 ==> Named("\\\"'"[i] as int) == "\\\"'"[i] as int
    ensures Named(c) >= 0 <==> exists i :: 0 <= i < 10 && c == "abtnvfr\\\"'"[i] as int
  {
    var names := "abtnvfr\\\"'";
    assert names[0] == 'a' && names[1] == 'b' && names[2] == 't' && names[3] == 'n' && names[4] == 'v';
    assert names[5] == 'f' && names[6] == 'r' && names[7] == '\\' && names[8] == '\"' && names[9] == '\'';
  }

  /** The sixteen digits in both cases, and no others. */
  lemma HexDigits(c: int)
    ensures forall i :: 0 <= i < 16 ==> IsHexDigit("0123456789ABCDEF"[i] as int)
    ensures forall i :: 0 <= i < 16 ==> HexValue("0123456789ABCDEF"[i] as int) == i
    ensures forall i :: 10 <= i < 16 ==> IsHexDigit("0123456789abcdef"[i] as int)
    ensures forall i :: 10 <= i < 16 ==> HexValue("0123456789abcdef"[i] as int) == i
    ensures IsHexDigit(c) ==> exists i :: 0 <= i < 22 && c == "0123456789ABCDEFabcdef"[i] as int
  {
    var lower, all := "0123456789abcdef", "0123456789ABCDEFabcdef";
    assert forall i :: 0 <= i < 10 ==> all[i] as int == 48 + i;
    assert forall i :: 10 <= i < 16 ==> all[i] as int == 55 + i;
    assert forall i :: 16 <= i < 22 ==> all[i] as int == 81 + i;
    assert forall i :: 10 <= i < 16 ==> lower[i] as int == 87 + i;
    assert "0123456789ABCDEF" == all[..16];
    if IsHexDigit(c) {
      var i := if c <= 57 then c - 48 else if c <= 70 then c - 55 else c - 81;
      assert c == all[i] as int;
    }
  }

  /** The encoding of a code point (section 3 of RFC 3629). */
  function Utf8(x: nat): seq<Char>
    requires x <= 0x10FFFF
  {
    if x < 0x80 then [x]
    else if x < 0x800 then [0xC0 + x / 64, 0x80 + x % 64]
    else if x < 0x10000 then [0xE0 + x / 4096, 0x80 + x / 64 % 64, 0x80 + x % 64]
    else [0xF0 + x / 262144, 0x80 + x / 4096 % 64, 0x80 + x / 64 % 64, 0x80 + x % 64]
  }

  datatype Piece =
    | Plain(c: Char)
    | Escape(letter: Char)
    | Hexa(high: Char, low: Char)
    | Point(digits: seq<Char>)
    | Break(newline: seq<Char>)
    | Zap(spaces: seq<Char>)
    | Decimal(digits: seq<Char>)

  function Text(p: Piece): seq<Char> {
    match p
    case Plain(c) => [c]
    case Escape(c) => [BACKSLASH, c]
    case Hexa(h, l) => [BACKSLASH, LETTER_X, h, l]
    case Point(d) => [BACKSLASH, LETTER_U, OPEN_BRACE] + d + [CLOSE_BRACE]
    case Break(n) => [BACKSLASH] + n
    case Zap(s) => [BACKSLASH, LETTER_Z] + s
    case Decimal(d) => [BACKSLASH] + d
  }

  /** The first character of what follows, or the mark of the end. */
  function Head(s: seq<Char>): int {
    if s == [] then -1 else s[0]
  }

  /** A line break is one newline character or two different ones. */
  predicate IsBreak(n: seq<Char>) {
    (|n| == 1 && IsNewline(n[0])) || (|n| == 2 && IsNewline(n[0]) && IsNewline(n[1]) && n[0] != n[1])
  }

  predicate WellFormed(p: Piece) {
    match p
    case Plain(c) => c != BACKSLASH && !IsNewline(c)
    case Escape(c) => Named(c) >= 0
    case Hexa(h, l) => IsHexDigit(h) && IsHexDigit(l)
    case Point(d) => d != [] && AllHex(d) && HexNumber(d) <= 0x10FFFF
    case Break(n) => IsBreak(n)
    case Zap(s) => AllSpaces(s)
    case Decimal(d) => 1 <= |d| <= 3 && AllDigits(d) && DecimalValue(d) <= 255
  }

  /** The piece does not go on with the character after it. */
  predicate Ends(p: Piece, after: int) {
    match p
    case Break(n) => |n| == 1 ==> !(IsNewline(after) && after != n[0])
    case Zap(_) => !IsSpace(after)
    case Decimal(d) => |d| < 3 ==> !IsDigit(after)
    case _ => true
  }

  function Meaning(p: Piece): seq<Char>
    requires WellFormed(p)
  {
    match p
    case Plain(c) => [c]
    case Escape(c) => [Named(c)]
    case Hexa(h, l) => [16 * HexValue(h) + HexValue(l)]
    case Point(d) => Utf8(HexNumber(d))
    case Break(_) => [NEWLINE]
    case Zap(_) => []
    case Decimal(d) => [DecimalValue(d)]
  }

  /** The input begins with the piece. */
  predicate Begins(p: Piece, del: Char, input: seq<Char>) {
    Text(p) <= input && WellFormed(p) && p != Plain(del) && Ends(p, Head(input[|Text(p)|..]))
  }

  /** The input begins with the pieces and then the delimiter. */
  ghost predicate Reading(input: seq<Char>, del: Char, pieces: seq<Piece>) {
    if pieces == [] then input != [] && input[0] == del
    else Begins(pieces[0], del, input) && Reading(input[|Text(pieces[0])|..], del, pieces[1..])
  }

  ghost function TextOf(pieces: seq<Piece>): seq<Char> {
    if pieces == [] then [] else Text(pieces[0]) + TextOf(pieces[1..])
  }

  ghost predicate Formed(pieces: seq<Piece>) {
    forall i :: 0 <= i < |pieces| ==> WellFormed(pieces[i])
  }

  ghost function MeaningOf(pieces: seq<Piece>): seq<Char>
    requires Formed(pieces)
  {
    if pieces == [] then [] else Meaning(pieces[0]) + MeaningOf(pieces[1..])
  }

  // ---------- the reading is unique ----------

  predicate Delimiter(del: int) { del == QUOTE || del == APOSTROPHE }

  /** The kind of a piece is told by its first two characters. */
  lemma Kind(p: Piece, del: Char, input: seq<Char>)
    requires Begins(p, del, input)
    ensures input != [] && (p.Plain? <==> input[0] != BACKSLASH)
      && (p.Plain? ==> input[0] != del && !IsNewline(input[0]))
    ensures !p.Plain? ==> |input| > 1
    ensures p.Escape? <==> input[0] == BACKSLASH && Named(input[1]) >= 0
    ensures p.Hexa? <==> input[0] == BACKSLASH && input[1] == LETTER_X
    ensures p.Point? <==> input[0] == BACKSLASH && input[1] == LETTER_U
    ensures p.Zap? <==> input[0] == BACKSLASH && input[1] == LETTER_Z
    ensures p.Break? <==> input[0] == BACKSLASH && IsNewline(input[1])
    ensures p.Decimal? <==> input[0] == BACKSLASH && IsDigit(input[1])
  {
    assert forall i :: 0 <= i < |Text(p)| ==> input[i] == Text(p)[i];
    assert Text(p) != [] && input[0] == Text(p)[0];
    assert !p.Plain? ==> |Text(p)| > 1 && input[1] == Text(p)[1];
  }

  /** A run of characters with property `f` stops where it fails. */
  lemma RunHead(x: seq<Char>, a: seq<Char>, y: seq<Char>, b: seq<Char>, f: int -> bool)
    requires x + a == y + b && forall i :: 0 <= i < |y| ==> f(y[i])
    ensures |x| < |y| ==> f(Head(a))
  {
    assert |x| < |y| ==> (x + a)[|x|] == Head(a) && (y + b)[|x|] == y[|x|];
  }

  lemma SameRun(x: seq<Char>, a: seq<Char>, y: seq<Char>, b: seq<Char>, f: int -> bool)
    requires x + a == y + b && !f(Head(a)) && !f(Head(b))
    requires (forall i :: 0 <= i < |x| ==> f(x[i])) && (forall i :: 0 <= i < |y| ==> f(y[i]))
    ensures x == y
  {
    RunHead(x, a, y, b, f);
    RunHead(y, b, x, a, f);
    assert x == (x + a)[..|x|] && y == (y + b)[..|y|];
  }

  lemma SameKind(p: Piece, q: Piece, del: Char, input: seq<Char>)
    requires Begins(p, del, input) && Begins(q, del, input)
    ensures p.Plain? == q.Plain? && p.Escape? == q.Escape? && p.Hexa? == q.Hexa? && p.Point? == q.Point?
    ensures p.Break? == q.Break? && p.Zap? == q.Zap? && p.Decimal? == q.Decimal?
  {
    Kind(p, del, input);
    Kind(q, del, input);
  }

  lemma Rest(p: seq<Char>, x: seq<Char>, a: seq<Char>, y: seq<Char>, b: seq<Char>)
    requires (p + x) + a == (p + y) + b
    ensures x + a == y + b
  {
    assert x + a == ((p + x) + a)[|p|..];
    assert y + b == ((p + y) + b)[|p|..];
  }

  /** At most one piece begins the input. */
  lemma SamePiece(p: Piece, q: Piece, del: Char, input: seq<Char>)
    requires Begins(p, del, input) && Begins(q, del, input)
    ensures p == q
  {
    SameKind(p, q, del, input);
    var a, b := input[|Text(p)|..], input[|Text(q)|..];
    assert input == Text(p) + a == Text(q) + b;
    if p.Plain? || p.Escape? || p.Hexa? {
      assert |Text(p)| == |Text(q)| && Text(p) == input[..|Text(p)|] == Text(q);
      SameShort(p, q);
    } else {
      SameLong(p, a, q, b);
    }
  }

  lemma SameShort(p: Piece, q: Piece)
    requires Text(p) == Text(q) && (p.Plain? || p.Escape? || p.Hexa?)
    requires p.Plain? == q.Plain? && p.Escape? == q.Escape? && p.Hexa? == q.Hexa?
    ensures p == q
  {
    assert p.Plain? ==> Text(p)[0] == Text(q)[0];
    assert p.Escape? ==> Text(p)[1] == Text(q)[1];
    assert p.Hexa? ==> Text(p)[2] == Text(q)[2] && Text(p)[3] == Text(q)[3];
  }

  lemma SameLong(p: Piece, a: seq<Char>, q: Piece, b: seq<Char>)
    requires Text(p) + a == Text(q) + b && WellFormed(p) && WellFormed(q) && Ends(p, Head(a)) && Ends(q, Head(b))
    requires !p.Plain? && !p.Escape? && !p.Hexa? && p.Point? == q.Point? && p.Break? == q.Break? && p.Zap? == q.Zap?
      && p.Decimal? == q.Decimal?
    ensures p == q
  {
    match p
    case Point(d) =>
      PointTail(d, a);
      PointTail(q.digits, b);
      Rest([BACKSLASH, LETTER_U, OPEN_BRACE], d, [CLOSE_BRACE] + a, q.digits, [CLOSE_BRACE] + b);
      SameRun(d, [CLOSE_BRACE] + a, q.digits, [CLOSE_BRACE] + b, c => IsHexDigit(c));
    case Zap(s) =>
      Rest([BACKSLASH, LETTER_Z], s, a, q.spaces, b);
      SameRun(s, a, q.spaces, b, c => IsSpace(c));
    case Break(n) =>
      Rest([BACKSLASH], n, a, q.newline, b);
      BreakHead(n, a, q.newline, b);
      BreakHead(q.newline, b, n, a);
      assert n == (n + a)[..|n|] && q.newline == (q.newline + b)[..|q.newline|];
    case Decimal(d) =>
      Rest([BACKSLASH], d, a, q.digits, b);
      SameDigits(d, a, q.digits, b);
  }

  lemma PointTail(d: seq<Char>, a: seq<Char>)
    ensures Text(Point(d)) + a == ([BACKSLASH, LETTER_U, OPEN_BRACE] + d) + ([CLOSE_BRACE] + a)
  {
  }

  lemma BreakHead(n: seq<Char>, a: seq<Char>, m: seq<Char>, b: seq<Char>)
    requires n + a == m + b && IsBreak(n) && IsBreak(m)
    ensures |n| == 1 && |m| == 2 ==> IsNewline(Head(a)) && Head(a) != n[0]
  {
    assert (n + a)[0] == n[0] && (m + b)[0] == m[0];
    assert |n| == 1 && |m| == 2 ==> (n + a)[1] == Head(a) && (m + b)[1] == m[1];
  }

  lemma SameDigits(d: seq<Char>, a: seq<Char>, e: seq<Char>, b: seq<Char>)
    requires d + a == e + b && AllDigits(d) && AllDigits(e) && 1 <= |d| <= 3 && 1 <= |e| <= 3
    requires (|d| < 3 ==> !IsDigit(Head(a))) && (|e| < 3 ==> !IsDigit(Head(b)))
    ensures d == e
  {
    RunHead(d, a, e, b, c => IsDigit(c));
    RunHead(e, b, d, a, c => IsDigit(c));
    assert d == (d + a)[..|d|] && e == (e + b)[..|e|];
  }

  /** A string has only one reading. */
  lemma {:induction false} SameReading(input: seq<Char>, del: Char, p: seq<Piece>, q: seq<Piece>)
    requires Delimiter(del) && Reading(input, del, p) && Reading(input, del, q)
    ensures p == q
    decreases |p|
  {
    if p != [] {
      Kind(p[0], del, input);
    }
    if q != [] {
      Kind(q[0], del, input);
    }
    if p != [] && q != [] {
      SamePiece(p[0], q[0], del, input);
      SameReading(input[|Text(p[0])|..], del, p[1..], q[1..]);
      assert p == [p[0]] + p[1..] && q == [q[0]] + q[1..];
    }
  }
}
