/** How patterns are written, after section 6.4.1 of the Lua 5.3 Reference Manual, and that
    the matcher reads them so. */
module PatternSyntax {
  import opened Options
  import opened PatternItems

  // ---------- character classes ----------

  predicate Plain(text: string) {
    forall i :: 0 <= i < |text| ==> text[i] as int < 256
  }

  /** The bytes of a text. */
  function Codes(text: string): (s: seq<Char>)
    requires Plain(text)
    ensures |s| == |text| && forall i :: 0 <= i < |s| ==> s[i] == text[i] as int
  {
    if text == "" then [] else [text[0] as int] + Codes(text[1..])
  }

  /** The class of a pattern that is nothing but a class has the character. */
  predicate Accepts(text: string, c: Char)
    requires text != "" && Plain(text)
  {
    SingleMatch([c], Codes(text), 0, 0, |text|)
  }

  lemma LetterClass(text: string, c: Char)
    requires |text| == 2 && Plain(text) && text[0] == '%'
    ensures Accepts(text, c) <==> MatchClass(c, text[1] as int)
  {
    hide MatchClass;
  }

  lemma InRange(pat: seq<Char>, c: Char, p: nat, ec: nat)
    requires p + 2 < ec <= |pat| && pat[p] != ESC && pat[p + 1] == MINUS
    ensures InSet(pat, c, p, ec) <==> pat[p] <= c <= pat[p + 2] || InSet(pat, c, p + 3, ec)
  {
  }

  lemma InNone(pat: seq<Char>, c: Char, ec: nat)
    ensures !InSet(pat, c, ec, ec)
  {
  }

  /** A set of one range. */
  lemma RangeClass(text: string, c: Char)
    requires |text| == 5 && Plain(text) && text[0] == '[' && text[2] == '-' && text[4] == ']'
    requires text[1] != '%' && text[1] != '^'
    ensures Accepts(text, c) <==> text[1] as int <= c <= text[3] as int
  {
    hide InSet;
    var pat := Codes(text);
    InRange(pat, c, 1, 4);
    InNone(pat, c, 4);
  }

  /** The classes with a letter, by sets of characters and by each other. */
  lemma Letters(c: Char)
    ensures Accepts("%l", c) <==> Accepts("[a-z]", c)
    ensures Accepts("%u", c) <==> Accepts("[A-Z]", c)
  {
    hide Accepts;
    LetterClass("%l", c);
    LetterClass("%u", c);
    RangeClass("[a-z]", c);
    RangeClass("[A-Z]", c);
  }

  lemma Digits(c: Char)
    ensures Accepts("%d", c) <==> Accepts("[0-9]", c)
    ensures Accepts("%g", c) <==> Accepts("[!-~]", c)
    ensures Accepts("%z", c) <==> c == 0
  {
    hide Accepts;
    LetterClass("%d", c);
    LetterClass("%g", c);
    LetterClass("%z", c);
    RangeClass("[0-9]", c);
    RangeClass("[!-~]", c);
  }

  /** Letters and digits are the disjoint unions of their kinds, and punctuation is what
      else is printed. */
  lemma Unions(c: Char)
    ensures Accepts("%a", c) <==> Accepts("%l", c) != Accepts("%u", c)
    ensures Accepts("%w", c) <==> Accepts("%a", c) != Accepts("%d", c)
    ensures Accepts("%p", c) <==> Accepts("%g", c) && !Accepts("%w", c)
  {
    hide Accepts;
    LetterClass("%l", c);
    LetterClass("%u", c);
    LetterClass("%d", c);
    LetterClass("%g", c);
    LetterClass("%a", c);
    LetterClass("%w", c);
    LetterClass("%p", c);
  }

  lemma HexDigits(c: Char)
    ensures Accepts("%x", c) <==> Accepts("[0-9]", c) || Accepts("[a-f]", c) || Accepts("[A-F]", c)
  {
    hide Accepts;
    LetterClass("%x", c);
    RangeClass("[0-9]", c);
    RangeClass("[a-f]", c);
    RangeClass("[A-F]", c);
  }

  lemma Spaces(c: Char)
    ensures Accepts("%s", c) <==> Accepts("[\t-\r]", c) || c == ' ' as int
    ensures Accepts("%c", c) <==> c < 128 && !Accepts("[ -~]", c)
  {
    hide Accepts;
    LetterClass("%s", c);
    LetterClass("%c", c);
    RangeClass("[\t-\r]", c);
    RangeClass("[ -~]", c);
  }

  const CLASS_LETTERS := "acdglpsuwxz"

  /** A capital letter stands for the complement. */
  lemma Capitals(i: nat, c: Char)
    requires i < |CLASS_LETTERS|
    ensures
      var l := CLASS_LETTERS[i];
      l >= 'a' && Accepts(['%', l - ' '], c) != Accepts(['%', l], c)
  {
    hide Accepts;
    var l := CLASS_LETTERS[i];
    LetterClass(['%', l - ' '], c);
    LetterClass(['%', l], c);
  }

  // ---------- sets ----------

  predicate Alnum(c: Char) {
    'a' as int <= c <= 'z' as int || 'A' as int <= c <= 'Z' as int || '0' as int <= c <= '9' as int
  }

  /** A letter that names a class, small or capital. */
  predicate ClassLetter(l: Char) {
    exists i :: 0 <= i < |CLASS_LETTERS| && (l == CLASS_LETTERS[i] as int || l + 32 == CLASS_LETTERS[i] as int)
  }

  datatype Element = One(c: Char) | Range(lo: Char, hi: Char) | Named(letter: Char)

  /** `Literal` is a character that stands for itself. */
  datatype CharSet =
    | Any
    | Literal(c: Char)
    | Class(letter: Char)
    | OneOf(elems: seq<Element>)
    | NoneOf(elems: seq<Element>)

  /** A character that is no letter and no digit is written with a percent sign. */
  function Quoted(c: Char): seq<Char> {
    if Alnum(c) then [c] else ['%' as int, c]
  }

  function ElementText(e: Element): seq<Char> {
    match e
    case One(c) => Quoted(c)
    case Range(lo, hi) => [lo, '-' as int, hi]
    case Named(l) => ['%' as int, l]
  }

  function ElementsText(elems: seq<Element>): seq<Char> {
    if elems == [] then [] else ElementText(elems[0]) + ElementsText(elems[1..])
  }

  function SetText(cs: CharSet): seq<Char> {
    match cs
    case Any => ['.' as int]
    case Literal(c) => Quoted(c)
    case Class(l) => ['%' as int, l]
    case OneOf(elems) => ['[' as int] + ElementsText(elems) + [']' as int]
    case NoneOf(elems) => ['[' as int, '^' as int] + ElementsText(elems) + [']' as int]
  }

  predicate ElementOk(e: Element) {
    match e
    case One(_) => true
    case Range(lo, hi) => Alnum(lo) && Alnum(hi)
    case Named(l) => ClassLetter(l)
  }

  predicate ElementsOk(elems: seq<Element>) {
    elems != [] && forall e :: e in elems ==> ElementOk(e)
  }

  predicate SetOk(cs: CharSet) {
    match cs
    case Class(l) => ClassLetter(l)
    case OneOf(elems) => ElementsOk(elems)
    case NoneOf(elems) => ElementsOk(elems)
    case _ => true
  }

  /** What a class letter accepts. */
  predicate LetterHas(l: Char, c: Char) {
    Accepts(['%', l as char], c)
  }

  predicate ElementHas(e: Element, c: Char) {
    match e
    case One(d) => c == d
    case Range(lo, hi) => lo <= c <= hi
    case Named(l) => LetterHas(l, c)
  }

  predicate SomeHas(elems: seq<Element>, c: Char) {
    exists i :: 0 <= i < |elems| && ElementHas(elems[i], c)
  }

  /** The characters of a set. */
  predicate SetHas(cs: CharSet, c: Char) {
    match cs
    case Any => true
    case Literal(d) => c == d
    case Class(l) => LetterHas(l, c)
    case OneOf(elems) => SomeHas(elems, c)
    case NoneOf(elems) => !SomeHas(elems, c)
  }

  /** `t` stands in the pattern at `p`. */
  predicate TextAt(pat: seq<Char>, p: nat, t: seq<Char>) {
    p + |t| <= |pat| && pat[p..p + |t|] == t
  }

  lemma TextSplit(pat: seq<Char>, p: nat, a: seq<Char>, b: seq<Char>)
    requires TextAt(pat, p, a + b)
    ensures TextAt(pat, p, a) && TextAt(pat, p + |a|, b)
  {
    assert pat[p..p + |a|] == pat[p..p + |a + b|][..|a|] == a;
    assert pat[p + |a|..p + |a| + |b|] == pat[p..p + |a + b|][|a|..] == b;
  }

  lemma TextIndex(pat: seq<Char>, p: nat, t: seq<Char>, i: nat)
    requires TextAt(pat, p, t) && i < |t|
    ensures p + i < |pat| && At(pat, p + i) == pat[p + i] == t[i]
  {
    assert pat[p..p + |t|][i] == t[i];
  }

  lemma Associate(a: seq<Char>, b: seq<Char>, c: seq<Char>)
    ensures a + b + c == a + (b + c)
  {
  }

  lemma LetterMatch(l: Char, c: Char)
    ensures LetterHas(l, c) <==> MatchClass(c, l)
  {
    LetterClass(['%', l as char], c);
  }

  lemma QuotedMatch(d: Char, c: Char)
    requires !Alnum(d)
    ensures MatchClass(c, d) <==> c == d
  {
  }

  /** How an element begins: not with a bracket, and not with a sign for a range. */
  lemma ElementStart(e: Element)
    requires ElementOk(e)
    ensures
      var t := ElementText(e);
      && 1 <= |t| <= 3 && t[0] != ']' as int && t[0] != '-' as int && t[0] != '^' as int
      && (t[0] == '%' as int <==> |t| == 2)
      && (|t| == 1 ==> e == One(t[0]) && Alnum(t[0]))
      && (|t| == 2 ==> forall c: Char :: ElementHas(e, c) <==> MatchClass(c, t[1]))
      && (|t| == 3 ==> e == Range(t[0], t[2]) && t[1] == '-' as int && t[2] != ']' as int && t[2] != '%' as int)
  {
    hide MatchClass, LetterHas;
    forall c: Char | |ElementText(e)| == 2 ensures ElementHas(e, c) <==> MatchClass(c, ElementText(e)[1]) {
      match e
      case One(d) => QuotedMatch(d, c);
      case Named(l) => LetterMatch(l, c);
      case _ =>
    }
  }

  /** Behind the elements from index `k` on is the bracket. */
  ghost predicate ElementsAt(pat: seq<Char>, p: nat, elems: seq<Element>) {
    TextAt(pat, p, ElementsText(elems) + [']' as int]) && forall e :: e in elems ==> ElementOk(e)
  }

  /** The first element, and what is behind it. */
  lemma FirstElement(pat: seq<Char>, p: nat, elems: seq<Element>)
    requires ElementsAt(pat, p, elems) && elems != []
    ensures
      var t := ElementText(elems[0]);
      && ElementOk(elems[0]) && TextAt(pat, p, t) && ElementsAt(pat, p + |t|, elems[1..])
      && p + |t| < |pat| && pat[p + |t|] != '-' as int
      && (elems[1..] != [] ==> pat[p + |t|] != ']' as int) && (elems[1..] == [] ==> pat[p + |t|] == ']' as int)
  {
    hide TextAt, ElementText, ElementHas, MatchClass, ElementOk, ElementsText;
    var t, rest := ElementText(elems[0]), elems[1..];
    assert elems[0] in elems && forall e :: e in rest ==> e in elems;
    var behind := ElementsText(rest) + [']' as int];
    FirstText(elems);
    TextSplit(pat, p, t, behind);
    TextIndex(pat, p + |t|, behind, 0);
    BehindStart(rest);
  }

  lemma FirstText(elems: seq<Element>)
    requires elems != []
    ensures ElementsText(elems) + [']' as int] ==
      ElementText(elems[0]) + (ElementsText(elems[1..]) + [']' as int])
  {
    hide ElementText;
    Associate(ElementText(elems[0]), ElementsText(elems[1..]), [']' as int]);
  }

  lemma BehindStart(elems: seq<Element>)
    requires forall e :: e in elems ==> ElementOk(e)
    ensures
      var t := ElementsText(elems) + [']' as int];
      t[0] != '-' as int && (t[0] == ']' as int <==> elems == [])
  {
    hide ElementText, ElementHas, MatchClass, ElementOk;
    if elems != [] {
      assert elems[0] in elems;
      ElementStart(elems[0]);
    }
  }

  lemma ElementStep(pat: seq<Char>, c: Char, p: nat, ec: nat, e: Element)
    requires ElementOk(e) && TextAt(pat, p, ElementText(e)) && p + |ElementText(e)| <= ec < |pat|
    requires pat[p + |ElementText(e)|] != '-' as int
    ensures InSet(pat, c, p, ec) <==> ElementHas(e, c) || InSet(pat, c, p + |ElementText(e)|, ec)
  {
    var t := ElementText(e);
    ElementStart(e);
    TextIndex(pat, p, t, 0);
    hide ElementHas, MatchClass, TextAt, ElementText, Alnum;
    if |t| == 2 {
      TextIndex(pat, p, t, 1);
    } else if |t| == 3 {
      TextIndex(pat, p, t, 1);
      TextIndex(pat, p, t, 2);
    }
  }

  /** A set has the characters of its elements. */
  lemma {:induction false} ElementsRead(pat: seq<Char>, c: Char, p: nat, elems: seq<Element>)
    requires ElementsAt(pat, p, elems)
    ensures
      var ec := p + |ElementsText(elems)|;
      ec < |pat| && pat[ec] == ']' as int && (InSet(pat, c, p, ec) <==> SomeHas(elems, c))
    decreases |elems|
  {
    hide InSet, ElementHas, TextAt, ElementText;
    if elems == [] {
      assert ElementsText(elems) + [']' as int] == [']' as int];
      TextIndex(pat, p, [']' as int], 0);
      InNone(pat, c, p);
    } else {
      var t, rest := ElementText(elems[0]), elems[1..];
      FirstElement(pat, p, elems);
      ElementsRead(pat, c, p + |t|, rest);
      ElementStep(pat, c, p, p + |t| + |ElementsText(rest)|, elems[0]);
      SomeFirst(elems, c);
    }
  }

  lemma SomeFirst(elems: seq<Element>, c: Char)
    requires elems != []
    ensures SomeHas(elems, c) <==> ElementHas(elems[0], c) || SomeHas(elems[1..], c)
  {
    hide ElementHas;
    if SomeHas(elems, c) && !ElementHas(elems[0], c) {
      var i :| 0 <= i < |elems| && ElementHas(elems[i], c);
      assert elems[1..][i - 1] == elems[i];
    }
    if SomeHas(elems[1..], c) {
      var i :| 0 <= i < |elems[1..]| && ElementHas(elems[1..][i], c);
      assert elems[i + 1] == elems[1..][i];
    }
  }

  /** The end of a set is looked for behind each element. */
  lemma EndStep(pat: seq<Char>, p: nat, e: Element)
    requires ElementOk(e) && TextAt(pat, p, ElementText(e)) && p + |ElementText(e)| < |pat|
    ensures
      var q := p + |ElementText(e)|;
      BracketEnd(pat, p) == if pat[q] == ']' as int then Some(q + 1) else BracketEnd(pat, q)
  {
    var t := ElementText(e);
    ElementStart(e);
    TextIndex(pat, p, t, 0);
    hide ElementHas, MatchClass, TextAt, ElementText, Alnum;
    if |t| == 2 {
      TextIndex(pat, p, t, 1);
    } else if |t| == 3 {
      TextIndex(pat, p, t, 1);
      TextIndex(pat, p, t, 2);
      assert BracketEnd(pat, p) == BracketEnd(pat, p + 1);
      assert BracketEnd(pat, p + 1) == BracketEnd(pat, p + 2);
    }
  }

  lemma {:induction false} ElementsEnd(pat: seq<Char>, p: nat, elems: seq<Element>)
    requires ElementsAt(pat, p, elems) && elems != []
    ensures BracketEnd(pat, p) == Some(p + |ElementsText(elems)| + 1)
    decreases |elems|
  {
    hide TextAt, ElementText, BracketEnd;
    var t, rest := ElementText(elems[0]), elems[1..];
    FirstElement(pat, p, elems);
    EndStep(pat, p, elems[0]);
    if rest != [] {
      ElementsEnd(pat, p + |t|, rest);
    } else {
      assert ElementsText(rest) == [];
    }
  }

  /** The class at `p` ends at `ep` and has the characters of the set. */
  ghost predicate ReadsAs(pat: seq<Char>, p: nat, ep: nat, cs: CharSet) {
    p < ep <= |pat| && forall src, s: nat :: SingleMatch(src, pat, s, p, ep) <==> s < |src| && SetHas(cs, src[s])
  }

  lemma BracketRead(pat: seq<Char>, p: nat, elems: seq<Element>, none: bool)
    requires
      var open := if none then ['[' as int, '^' as int] else ['[' as int];
      ElementsOk(elems) && TextAt(pat, p, open) && ElementsAt(pat, p + |open|, elems)
    ensures
      var ep := p + (if none then 2 else 1) + |ElementsText(elems)| + 1;
      && p < |pat| && p < ep <= |pat| && pat[p] == '[' as int && ClassEnd(pat, p) == Some(ep)
      && forall c :: InBracket(pat, c, p, ep - 1) <==> SomeHas(elems, c) != none
  {
    hide InSet, SomeHas, TextAt, ElementsAt, ElementText, ElementsText, BracketEnd, ElementOk, ElementsOk;
    var open := if none then ['[' as int, '^' as int] else ['[' as int];
    var q := p + |open|;
    TextIndex(pat, p, open, 0);
    if none {
      TextIndex(pat, p, open, 1);
    }
    FirstCharacter(pat, q, elems);
    ElementsEnd(pat, q, elems);
    forall c ensures InSet(pat, c, q, q + |ElementsText(elems)|) <==> SomeHas(elems, c) {
      ElementsRead(pat, c, q, elems);
    }
    ElementsRead(pat, 0, q, elems);
  }

  lemma FirstCharacter(pat: seq<Char>, p: nat, elems: seq<Element>)
    requires ElementsAt(pat, p, elems) && ElementsOk(elems)
    ensures elems != [] && At(pat, p) != '^' as int
  {
    hide TextAt, ElementsAt, ElementText, ElementHas, MatchClass, ElementsText;
    assert elems[0] in elems;
    FirstElement(pat, p, elems);
    ElementStart(elems[0]);
    TextIndex(pat, p, ElementText(elems[0]), 0);
  }

  /** A class is read as it was written. */
  lemma SetRead(pat: seq<Char>, p: nat, cs: CharSet)
    requires SetOk(cs) && TextAt(pat, p, SetText(cs))
    ensures
      var ep := p + |SetText(cs)|;
      p < |pat| && ClassEnd(pat, p) == Some(ep) && ReadsAs(pat, p, ep, cs)
  {
    hide TextAt, ElementsOk, ElementsText, LetterHas, MatchClass, InBracket;
    match cs
    case Any => TextIndex(pat, p, SetText(cs), 0);
    case Literal(c) => QuotedRead(pat, p, cs);
    case Class(l) => QuotedRead(pat, p, cs);
    case OneOf(elems) => BracketSetRead(pat, p, cs);
    case NoneOf(elems) => BracketSetRead(pat, p, cs);
  }

  lemma BracketSetRead(pat: seq<Char>, p: nat, cs: CharSet)
    requires (cs.OneOf? || cs.NoneOf?) && ElementsOk(cs.elems) && TextAt(pat, p, SetText(cs))
    ensures
      var ep := p + |SetText(cs)|;
      p < |pat| && ClassEnd(pat, p) == Some(ep) && ReadsAs(pat, p, ep, cs)
  {
    hide TextAt, ClassEnd, ElementsOk, ElementsText, InBracket, SomeHas, ElementsAt;
    var elems, none := cs.elems, cs.NoneOf?;
    var open := if none then ['[' as int, '^' as int] else ['[' as int];
    assert SetText(cs) == open + ElementsText(elems) + [']' as int];
    BracketAt(pat, p, open, elems);
    BracketRead(pat, p, elems, none);
  }

  lemma BracketAt(pat: seq<Char>, p: nat, open: seq<Char>, elems: seq<Element>)
    requires ElementsOk(elems) && TextAt(pat, p, open + ElementsText(elems) + [']' as int])
    ensures TextAt(pat, p, open) && ElementsAt(pat, p + |open|, elems)
  {
    assert open + ElementsText(elems) + [']' as int] == open + (ElementsText(elems) + [']' as int]);
    TextSplit(pat, p, open, ElementsText(elems) + [']' as int]);
  }

  lemma QuotedRead(pat: seq<Char>, p: nat, cs: CharSet)
    requires (cs.Literal? || cs.Class?) && TextAt(pat, p, SetText(cs))
    ensures
      var ep := p + |SetText(cs)|;
      p < |pat| && ClassEnd(pat, p) == Some(ep) && ReadsAs(pat, p, ep, cs)
  {
    var t := SetText(cs);
    TextIndex(pat, p, t, 0);
    if |t| == 2 {
      TextIndex(pat, p, t, 1);
    }
    forall c: Char ensures |t| == 2 ==> (SetHas(cs, c) <==> MatchClass(c, t[1])) {
      if cs.Class? {
        LetterMatch(cs.letter, c);
      } else if |t| == 2 {
        QuotedMatch(cs.c, c);
      }
    }
    hide MatchClass, LetterHas, TextAt;
  }

  // ---------- items ----------

  datatype Part =
    | Opening
    | Closing
    | Place
    | Pair(b: Char, e: Char)
    | Edge(cs: CharSet)
    | Reference(digit: Char)
    | Repeat(cs: CharSet, suffix: Suffix)

  function SuffixText(x: Suffix): seq<Char> {
    match x
    case Once => []
    case Optional => ['?' as int]
    case Star => ['*' as int]
    case Plus => ['+' as int]
    case Minus => ['-' as int]
  }

  function PartText(part: Part): seq<Char> {
    match part
    case Opening => ['(' as int]
    case Closing => [')' as int]
    case Place => ['(' as int, ')' as int]
    case Pair(b, e) => ['%' as int, 'b' as int, b, e]
    case Edge(cs) => ['%' as int, 'f' as int] + SetText(cs)
    case Reference(d) => ['%' as int, d]
    case Repeat(cs, x) => SetText(cs) + SuffixText(x)
  }

  /** The parts one after the other, and a dollar sign for the end of the subject. */
  function PartsText(parts: seq<Part>, end: bool): seq<Char> {
    if parts == [] then (if end then ['$' as int] else []) else PartText(parts[0]) + PartsText(parts[1..], end)
  }

  predicate PartOk(part: Part) {
    match part
    case Edge(cs) => SetOk(cs) && (cs.OneOf? || cs.NoneOf?)
    case Reference(d) => '0' as int <= d <= '9' as int
    case Repeat(cs, _) => SetOk(cs)
    case _ => true
  }

  /** An opening that is closed at once would be a position. */
  predicate PartsOk(parts: seq<Part>) {
    && (forall part :: part in parts ==> PartOk(part))
    && forall i :: 0 < i < |parts| && parts[i - 1] == Opening ==> parts[i] != Closing
  }

  /** The item is what the part stands for. */
  ghost predicate Means(pat: seq<Char>, it: Item, part: Part) {
    match part
    case Opening => it == Start
    case Closing => it == End
    case Place => it == Position
    case Pair(b, e) => it == Balance(b, e)
    case Edge(cs) =>
      it.Frontier? && it.p < it.ep <= |pat| && forall c :: InBracket(pat, c, it.p, it.ep - 1) <==> SetHas(cs, c)
    case Reference(d) => it == Back(d)
    case Repeat(cs, x) => it.Single? && it.suffix == x && ReadsAs(pat, it.p, it.ep, cs)
  }

  /** Signs that mean something behind a class. */
  predicate SuffixSign(c: Char) {
    c == '?' as int || c == '*' as int || c == '+' as int || c == '-' as int
  }

  lemma SetStart(cs: CharSet)
    requires SetOk(cs)
    ensures
      var t := SetText(cs);
      && t != [] && t[0] != '(' as int && t[0] != ')' as int && t[0] != '$' as int && !SuffixSign(t[0])
      && (t[0] == '%' as int ==> |t| == 2 && t[1] != 'b' as int && t[1] != 'f' as int && !IsDigit(t[1]))
  {
  }

  lemma PartStart(part: Part)
    requires PartOk(part)
    ensures PartText(part) != [] && !SuffixSign(PartText(part)[0])
    ensures PartText(part)[0] == ')' as int ==> part == Closing
  {
    if part.Repeat? {
      SetStart(part.cs);
    }
    hide SetText;
  }

  lemma RepeatRead(pat: seq<Char>, p: nat, part: Part)
    requires part.Repeat? && PartOk(part) && TextAt(pat, p, PartText(part))
    requires part.suffix == Once ==> !SuffixSign(At(pat, p + |PartText(part)|))
    ensures
      var q := p + |PartText(part)|;
      p < |pat| && ItemAt(pat, p).Some? && ItemAt(pat, p).value.1 == q && Means(pat, ItemAt(pat, p).value.0, part)
  {
    hide SetText, ReadsAs, TextAt, SetOk, ClassEnd, ItemAt;
    var t, x := SetText(part.cs), SuffixText(part.suffix);
    TextSplit(pat, p, t, x);
    SetStart(part.cs);
    TextIndex(pat, p, t, 0);
    if |t| == 2 {
      TextIndex(pat, p, t, 1);
    }
    SetRead(pat, p, part.cs);
    SetBounds(pat, p, p + |t|, part.cs);
    if x != [] {
      TextIndex(pat, p + |t|, x, 0);
    }
    SingleItem(pat, p, p + |t|);
  }

  lemma SetBounds(pat: seq<Char>, p: nat, ep: nat, cs: CharSet)
    requires ReadsAs(pat, p, ep, cs)
    ensures p < ep <= |pat|
  {
  }

  lemma SingleItem(pat: seq<Char>, p: nat, ep: nat)
    requires p < |pat| && ClassEnd(pat, p) == Some(ep)
    requires pat[p] != '(' as int && pat[p] != ')' as int && pat[p] != '$' as int
    requires pat[p] == '%' as int ==>
      At(pat, p + 1) != 'b' as int && At(pat, p + 1) != 'f' as int && !IsDigit(At(pat, p + 1))
    ensures
      var x := SuffixOf(At(pat, ep));
      ItemAt(pat, p) == Some((Single(p, ep, x), if x == Once then ep else ep + 1))
  {
    hide ClassEnd;
  }

  lemma SignRead(pat: seq<Char>, p: nat, part: Part)
    requires !part.Repeat? && !part.Edge? && PartOk(part) && TextAt(pat, p, PartText(part))
    requires part == Opening ==> At(pat, p + 1) != ')' as int
    ensures
      var q := p + |PartText(part)|;
      p < |pat| && ItemAt(pat, p).Some? && ItemAt(pat, p).value.1 == q && Means(pat, ItemAt(pat, p).value.0, part)
  {
    var t := PartText(part);
    TextIndex(pat, p, t, 0);
    if |t| >= 2 {
      TextIndex(pat, p, t, 1);
    }
    if |t| == 4 {
      TextIndex(pat, p, t, 2);
      TextIndex(pat, p, t, 3);
    }
    hide TextAt, ClassEnd;
  }

  lemma EdgeRead(pat: seq<Char>, p: nat, part: Part)
    requires part.Edge? && PartOk(part) && TextAt(pat, p, PartText(part))
    ensures
      var q := p + |PartText(part)|;
      p < |pat| && ItemAt(pat, p).Some? && ItemAt(pat, p).value.1 == q && Means(pat, ItemAt(pat, p).value.0, part)
  {
    hide TextAt, ClassEnd, ElementsOk, ElementsText, InBracket, SomeHas, ItemAt, ElementsAt;
    var sign, elems, none := ['%' as int, 'f' as int], part.cs.elems, part.cs.NoneOf?;
    var open := if none then ['[' as int, '^' as int] else ['[' as int];
    assert SetText(part.cs) == open + ElementsText(elems) + [']' as int];
    TextSplit(pat, p, sign, SetText(part.cs));
    TextIndex(pat, p, sign, 0);
    TextIndex(pat, p, sign, 1);
    BracketAt(pat, p + 2, open, elems);
    BracketRead(pat, p + 2, elems, none);
    FrontierItem(pat, p);
  }

  lemma FrontierItem(pat: seq<Char>, p: nat)
    requires p + 2 < |pat| && pat[p] == '%' as int && pat[p + 1] == 'f' as int && pat[p + 2] == '[' as int
    requires ClassEnd(pat, p + 2).Some?
    ensures
      var ep := ClassEnd(pat, p + 2).value;
      ItemAt(pat, p) == Some((Frontier(p + 2, ep), ep))
  {
    hide ClassEnd;
  }

  lemma PartRead(pat: seq<Char>, p: nat, part: Part)
    requires PartOk(part) && TextAt(pat, p, PartText(part))
    requires part.Repeat? && part.suffix == Once ==> !SuffixSign(At(pat, p + |PartText(part)|))
    requires part == Opening ==> At(pat, p + 1) != ')' as int
    ensures
      var q := p + |PartText(part)|;
      p < |pat| && ItemAt(pat, p).Some? && ItemAt(pat, p).value.1 == q && Means(pat, ItemAt(pat, p).value.0, part)
  {
    hide TextAt, PartOk, PartText, Means, ItemAt;
    match part
    case Repeat(_, _) => RepeatRead(pat, p, part);
    case Edge(_) => EdgeRead(pat, p, part);
    case _ => SignRead(pat, p, part);
  }

  /** A pattern is read as the parts that it was written for. */
  lemma {:induction false} PartsRead(pat: seq<Char>, p: nat, parts: seq<Part>, end: bool)
    requires PartsOk(parts) && TextAt(pat, p, PartsText(parts, end)) && p + |PartsText(parts, end)| == |pat|
    ensures Items(pat, p).Some?
    ensures
      var items := Items(pat, p).value;
      && |items| == |parts| + (if end then 1 else 0) && (end ==> items[|parts|] == AtEnd)
      && forall i :: 0 <= i < |parts| ==> Means(pat, items[i], parts[i])
    decreases |parts|
  {
    hide TextAt, PartOk, PartText, Means, SuffixSign;
    if parts == [] {
      NothingRead(pat, p, end);
    } else {
      var t, rest := PartText(parts[0]), parts[1..];
      RestOk(parts);
      TextSplit(pat, p, t, PartsText(rest, end));
      NextSign(pat, p + |t|, rest, end);
      PartsRead(pat, p + |t|, rest, end);
      if parts[0] == Opening {
        OpeningLength();
      }
      PartRead(pat, p, parts[0]);
      var it := ItemAt(pat, p).value.0;
      assert Items(pat, p).value == [it] + Items(pat, p + |t|).value;
    }
  }

  lemma OpeningLength()
    ensures |PartText(Opening)| == 1
  {
  }

  lemma RestOk(parts: seq<Part>)
    requires PartsOk(parts) && parts != []
    ensures PartOk(parts[0]) && PartsOk(parts[1..])
    ensures parts[0] == Opening && parts[1..] != [] ==> parts[1..][0] != Closing
  {
    hide PartOk;
    assert parts[0] in parts && forall part :: part in parts[1..] ==> part in parts;
    if parts[1..] != [] {
      assert parts[1..][0] == parts[1];
    }
  }

  /** What comes next is no suffix, and a closing parenthesis only for a closing. */
  lemma NextSign(pat: seq<Char>, p: nat, parts: seq<Part>, end: bool)
    requires PartsOk(parts) && TextAt(pat, p, PartsText(parts, end)) && p + |PartsText(parts, end)| == |pat|
    ensures !SuffixSign(At(pat, p))
    ensures At(pat, p) == ')' as int ==> parts != [] && parts[0] == Closing
  {
    hide TextAt, PartOk, PartText;
    if parts != [] {
      RestOk(parts);
      PartStart(parts[0]);
      TextIndex(pat, p, PartsText(parts, end), 0);
    } else if end {
      TextIndex(pat, p, PartsText(parts, end), 0);
    }
  }

  lemma NothingRead(pat: seq<Char>, p: nat, end: bool)
    requires TextAt(pat, p, PartsText([], end)) && p + |PartsText([], end)| == |pat|
    ensures Items(pat, p) == Some(if end then [AtEnd] else [])
  {
    if end {
      TextIndex(pat, p, PartsText([], end), 0);
      assert Items(pat, p + 1) == Some([]);
      assert ItemAt(pat, p) == Some((AtEnd, p + 1));
      assert [AtEnd] + [] == [AtEnd];
    }
  }
}
