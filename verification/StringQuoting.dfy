/** Quoting of a byte string, as the format option `%q` does it, and the proof that the
    lexer reads it back. */
module StringQuoting {
  import opened QuotedPieces
  import opened StringLexer

  /** The decimal digits of a byte, without leading zeros. */
  function Digits(n: nat): (d: seq<Char>)
    requires n < 256
    ensures 1 <= |d| <= 3 && AllDigits(d) && DecimalValue(d) == n
  {
    if n < 10 then OneDigit(n); [48 + n]
    else if n < 100 then TwoDigits(n / 10, n % 10); [48 + n / 10, 48 + n % 10]
    else PaddedDigits(n)
  }

  /** Three digits, with leading zeros. */
  function PaddedDigits(n: nat): (d: seq<Char>)
    requires n < 256
    ensures |d| == 3 && AllDigits(d) && DecimalValue(d) == n
  {
    Places(n);
    ThreeDigits(n / 100, n / 10 % 10, n % 10);
    [48 + n / 100, 48 + n / 10 % 10, 48 + n % 10]
  }

  lemma Places(n: nat)
    requires n < 256
    ensures n / 100 < 10 && n == 100 * (n / 100) + 10 * (n / 10 % 10) + n % 10
  {
    assert n / 100 == n / 10 / 10;
  }

  lemma OneDigit(a: nat)
    requires a < 10
    ensures AllDigits([48 + a]) && DecimalValue([48 + a]) == a
  {
    assert [48 + a][..0] == [];
  }

  lemma TwoDigits(a: nat, b: nat)
    requires a < 10 && b < 10
    ensures AllDigits([48 + a, 48 + b]) && DecimalValue([48 + a, 48 + b]) == 10 * a + b
  {
    hide AllDigits, DecimalValue;
    OneDigit(a);
    DigitsMore([48 + a], 48 + b);
    assert [48 + a] + [48 + b] == [48 + a, 48 + b];
  }

  lemma ThreeDigits(a: nat, b: nat, c: nat)
    requires a < 10 && b < 10 && c < 10
    ensures AllDigits([48 + a, 48 + b, 48 + c]) && DecimalValue([48 + a, 48 + b, 48 + c]) == 100 * a + 10 * b + c
  {
    hide AllDigits, DecimalValue;
    TwoDigits(a, b);
    DigitsMore([48 + a, 48 + b], 48 + c);
    assert [48 + a, 48 + b] + [48 + c] == [48 + a, 48 + b, 48 + c];
  }

  /** The piece that stands for the byte `c` before the byte `next`; the string ends with a
      zero byte. */
  function PieceFor(c: Char, next: Char): (p: Piece)
    ensures WellFormed(p) && Meaning(p) == [c] && p != Plain(QUOTE)
  {
    if c == QUOTE || c == BACKSLASH then Escape(c)
    else if c == NEWLINE then Break([c])
    else if IsControl(c) then Decimal(if IsDigit(next) then PaddedDigits(c) else Digits(c))
    else Plain(c)
  }

  function ByteAt(s: seq<Char>, i: nat): Char {
    if i < |s| then s[i] else 0
  }

  /** The pieces for a string from index `i` on. */
  function PiecesFrom(s: seq<Char>, i: nat): (p: seq<Piece>)
    requires i <= |s|
    ensures |p| == |s| - i
    decreases |s| - i
  {
    if i == |s| then [] else [PieceFor(s[i], ByteAt(s, i + 1))] + PiecesFrom(s, i + 1)
  }

  /** Appends the quoted form of a string. */
  method AddQuoted(s: seq<Char>) returns (b: seq<Char>)
    ensures b == [QUOTE] + TextOf(PiecesFrom(s, 0)) + [QUOTE]
  {
    hide PieceFor, Text, TextOf, PiecesFrom, PaddedDigits, Digits, ByteAt, IsControl;
    b := [QUOTE];
    var i := 0;
    NoText(s);
    while i < |s|
      invariant i <= |s| && [QUOTE] + TextOf(PiecesFrom(s, 0)) == b + TextOf(PiecesFrom(s, i))
    {
      TextStep(s, i, b);
      PieceText(s[i], ByteAt(s, i + 1));
      if s[i] == QUOTE || s[i] == BACKSLASH || s[i] == NEWLINE {
        assert b + [BACKSLASH] + [s[i]] == b + [BACKSLASH, s[i]];
        b := b + [BACKSLASH];
        b := b + [s[i]];
      } else if IsControl(s[i]) {
        var d := if !IsDigit(ByteAt(s, i + 1)) then Digits(s[i]) else PaddedDigits(s[i]);
        b := b + ([BACKSLASH] + d);
      } else {
        b := b + [s[i]];
      }
      i := i + 1;
    }
    assert TextOf(PiecesFrom(s, |s|)) == [];
    b := b + [QUOTE];
  }

  lemma TextStep(s: seq<Char>, i: nat, b: seq<Char>)
    requires i < |s|
    ensures
      var t := Text(PieceFor(s[i], ByteAt(s, i + 1)));
      b + TextOf(PiecesFrom(s, i)) == b + t + TextOf(PiecesFrom(s, i + 1))
  {
    hide PieceFor, Text, ByteAt, TextOf, PiecesFrom;
    FirstPiece(s, i);
  }

  lemma FirstPiece(s: seq<Char>, i: nat)
    requires i < |s|
    ensures
      var p := PieceFor(s[i], ByteAt(s, i + 1));
      && PiecesFrom(s, i) == [p] + PiecesFrom(s, i + 1)
      && TextOf(PiecesFrom(s, i)) == Text(p) + TextOf(PiecesFrom(s, i + 1))
  {
    hide PieceFor, Text, ByteAt;
    assert PiecesFrom(s, i)[1..] == PiecesFrom(s, i + 1);
  }

  lemma NoText(s: seq<Char>)
    ensures TextOf(PiecesFrom(s, |s|)) == []
  {
  }

  /** How each byte is written. */
  lemma PieceText(c: Char, next: Char)
    ensures Text(PieceFor(c, next)) ==
      if c == QUOTE || c == BACKSLASH || c == NEWLINE then [BACKSLASH, c]
      else if IsControl(c) then [BACKSLASH] + (if !IsDigit(next) then Digits(c) else PaddedDigits(c))
      else [c]
  {
  }

  /** The first character of what stands for the rest of the string. */
  lemma NextChar(s: seq<Char>, i: nat, rest: seq<Char>)
    requires i <= |s|
    ensures
      var after := TextOf(PiecesFrom(s, i)) + [QUOTE] + rest;
      after != [] && (IsDigit(after[0]) ==> IsDigit(ByteAt(s, i))) && after[0] != RETURN
  {
    if i < |s| {
      var p := PieceFor(s[i], ByteAt(s, i + 1));
      assert Text(p) != [] && TextOf(PiecesFrom(s, i))[0] == Text(p)[0];
    } else {
      assert TextOf(PiecesFrom(s, i)) == [];
    }
  }

  /** The quoted form is a sequence of pieces that the lexer reads one by one. */
  lemma {:induction false} QuotedReads(s: seq<Char>, i: nat, rest: seq<Char>)
    requires i <= |s|
    ensures Reading(TextOf(PiecesFrom(s, i)) + [QUOTE] + rest, QUOTE, PiecesFrom(s, i))
    decreases |s| - i
  {
    hide PieceFor, Text, Begins, Ends, ByteAt, Reading, PiecesFrom, TextOf;
    if i < |s| {
      var p, ps := PieceFor(s[i], ByteAt(s, i + 1)), PiecesFrom(s, i + 1);
      var after := TextOf(ps) + [QUOTE] + rest;
      QuotedReads(s, i + 1, rest);
      NextChar(s, i + 1, rest);
      PieceEnds(s[i], ByteAt(s, i + 1), after);
      FirstPiece(s, i);
      ReadFirst(p, ps, after);
      assert Text(p) + TextOf(ps) + [QUOTE] + rest == Text(p) + after;
    } else {
      NoPiece(s, rest);
    }
  }

  lemma NoPiece(s: seq<Char>, rest: seq<Char>)
    ensures Reading(TextOf(PiecesFrom(s, |s|)) + [QUOTE] + rest, QUOTE, PiecesFrom(s, |s|))
  {
    assert TextOf(PiecesFrom(s, |s|)) == [];
  }

  lemma ReadFirst(p: Piece, ps: seq<Piece>, after: seq<Char>)
    requires Begins(p, QUOTE, Text(p) + after) && Reading(after, QUOTE, ps)
    ensures Reading(Text(p) + after, QUOTE, [p] + ps)
  {
    hide Text, Begins;
    assert ([p] + ps)[1..] == ps;
    assert (Text(p) + after)[|Text(p)|..] == after;
  }

  lemma PieceEnds(c: Char, next: Char, after: seq<Char>)
    requires after != [] && (IsDigit(after[0]) ==> IsDigit(next)) && after[0] != RETURN
    ensures var p := PieceFor(c, next); Begins(p, QUOTE, Text(p) + after)
  {
    hide Text;
    var p := PieceFor(c, next);
    assert (Text(p) + after)[|Text(p)|..] == after;
  }

  /** The pieces stand for the bytes of the string. */
  lemma {:induction false} QuotedMeaning(s: seq<Char>, i: nat)
    requires i <= |s|
    ensures Formed(PiecesFrom(s, i)) && MeaningOf(PiecesFrom(s, i)) == s[i..]
    decreases |s| - i
  {
    if i < |s| {
      QuotedMeaning(s, i + 1);
      var ps := PiecesFrom(s, i);
      assert ps[1..] == PiecesFrom(s, i + 1);
      forall j | 0 <= j < |ps| ensures WellFormed(ps[j]) {
        assert j > 0 ==> ps[j] == ps[1..][j - 1];
      }
      assert s[i..] == [s[i]] + s[i + 1..];
    }
  }

  /** Reading back a quoted string in front of any text delivers the string, and leaves
      the text. */
  method ReadBack(s: seq<Char>, rest: seq<Char>) returns (r: seq<Char>, ok: bool, ls: LexState)
    requires 4 * |s| + |rest| + 3 < MAX_INT
    ensures ok && r == s && ls.Valid() && ls.Rest() == rest
  {
    var b := AddQuoted(s);
    var ps := PiecesFrom(s, 0);
    QuotedReads(s, 0, rest);
    QuotedMeaning(s, 0);
    QuotedLength(s, 0);
    assert s[0..] == s;
    var input := TextOf(ps) + [QUOTE] + rest;
    assert b + rest == [QUOTE] + input;
    ls := new LexState(b + rest);
    assert ls.Rest()[1..] == input;
    r, ok := ls.ReadString(QUOTE);
    assert Readable(input, QUOTE);
    assert TextOf(ps) + [QUOTE] + rest == TextOf(ps) + [QUOTE] + ls.Rest();
    SameRest(TextOf(ps) + [QUOTE], rest, ls.Rest());
  }

  lemma SameRest(a: seq<Char>, x: seq<Char>, y: seq<Char>)
    requires a + x == a + y
    ensures x == y
  {
    assert x == (a + x)[|a|..];
    assert y == (a + y)[|a|..];
  }

  lemma {:induction false} QuotedLength(s: seq<Char>, i: nat)
    requires i <= |s|
    ensures |TextOf(PiecesFrom(s, i))| <= 4 * (|s| - i)
    decreases |s| - i
  {
    hide PieceFor, Text, ByteAt, PiecesFrom;
    if i < |s| {
      QuotedLength(s, i + 1);
      TextStep(s, i, []);
      PieceLength(s[i], ByteAt(s, i + 1));
    } else {
      NoPieces(s);
    }
  }

  lemma NoPieces(s: seq<Char>)
    ensures TextOf(PiecesFrom(s, |s|)) == []
  {
  }

  lemma PieceLength(c: Char, next: Char)
    ensures |Text(PieceFor(c, next))| <= 4
  {
  }
}
