/** Patterns: character classes, and a pattern as a sequence of items. */
module PatternItems {
  import opened Options

  type Char = x: int | 0 <= x < 256

  const ESC: Char := 37
  const OPEN: Char := 40
  const CLOSE: Char := 41
  const STAR: Char := 42
  const PLUS: Char := 43
  const MINUS: Char := 45
  const DOT: Char := 46
  const DOLLAR: Char := 36
  const QUESTION: Char := 63
  const LBRACKET: Char := 91
  const RBRACKET: Char := 93
  const CARET: Char := 94

  /** The character at an index; strings end with a zero character. */
  function At(s: seq<Char>, i: nat): Char {
    if i < |s| then s[i] else 0
  }

  // ---------- classes ----------

  predicate IsUpper(c: int) { 65 <= c <= 90 }

  predicate IsLower(c: int) { 97 <= c <= 122 }

  predicate IsDigit(c: int) { 48 <= c <= 57 }

  predicate IsAlnum(c: int) { IsUpper(c) || IsLower(c) || IsDigit(c) }

  predicate IsGraph(c: int) { 33 <= c <= 126 }

  function ToLower(c: int): int {
    if IsUpper(c) then c + 32 else c
  }

  /** The class that a lower-case letter names. */
  function ClassOf(letter: int, c: int): Option<bool> {
    if letter == 97 then Some(IsUpper(c) || IsLower(c))
    else if letter == 99 then Some(c < 32 || c == 127)
    else if letter == 100 then Some(IsDigit(c))
    else if letter == 103 then Some(IsGraph(c))
    else if letter == 108 then Some(IsLower(c))
    else if letter == 112 then Some(IsGraph(c) && !IsAlnum(c))
    else if letter == 115 then Some(c == 32 || 9 <= c <= 13)
    else if letter == 117 then Some(IsUpper(c))
    else if letter == 119 then Some(IsAlnum(c))
    else if letter == 120 then Some(IsDigit(c) || 65 <= c <= 70 || 97 <= c <= 102)
    else if letter == 122 then Some(c == 0)
    else None
  }

  predicate MatchClass(c: int, cl: int) {
    match ClassOf(ToLower(cl), c)
    case None => cl == c
    case Some(b) => if IsLower(cl) then b else !b
  }

  /** The end of the class that begins at `p`, unless the pattern is malformed. */
  function ClassEnd(pat: seq<Char>, p: nat): (ep: Option<nat>)
    requires p < |pat|
    ensures ep.Some? ==> p < ep.value <= |pat|
  {
    if pat[p] == ESC then (if p + 1 == |pat| then None else Some(p + 2))
    else if pat[p] == LBRACKET then BracketEnd(pat, if At(pat, p + 1) == CARET then p + 2 else p + 1)
    else Some(p + 1)
  }

  function BracketEnd(pat: seq<Char>, p: nat): (ep: Option<nat>)
    requires p <= |pat|
    ensures ep.Some? ==> p < ep.value <= |pat|
    decreases |pat| - p
  {
    if p == |pat| then None
    else
      var q := if pat[p] == ESC && p + 1 < |pat| then p + 2 else p + 1;
      if At(pat, q) == RBRACKET then Some(q + 1) else BracketEnd(pat, q)
  }

  /** Whether one of the elements of a set from `p` to `ec` has the character. */
  predicate InSet(pat: seq<Char>, c: Char, p: nat, ec: nat)
    decreases ec - p
  {
    if p >= ec then false
    else if At(pat, p) == ESC then MatchClass(c, At(pat, p + 1)) || InSet(pat, c, p + 2, ec)
    else if At(pat, p + 1) == MINUS && p + 2 < ec then At(pat, p) <= c <= At(pat, p + 2) || InSet(pat, c, p + 3, ec)
    else At(pat, p) == c || InSet(pat, c, p + 1, ec)
  }

  predicate InBracket(pat: seq<Char>, c: Char, p: nat, ec: nat) {
    if At(pat, p + 1) == CARET then !InSet(pat, c, p + 2, ec) else InSet(pat, c, p + 1, ec)
  }

  /** Whether the character at `s` is in the class from `p` to `ep`. */
  predicate SingleMatch(src: seq<Char>, pat: seq<Char>, s: nat, p: nat, ep: nat)
    requires p < ep
  {
    s < |src| &&
    if At(pat, p) == DOT then true
    else if At(pat, p) == ESC then MatchClass(src[s], At(pat, p + 1))
    else if At(pat, p) == LBRACKET then InBracket(pat, src[s], p, ep - 1)
    else At(pat, p) == src[s]
  }

  method MatchBracketClass(pat: seq<Char>, c: Char, p0: nat, ec: nat) returns (b: bool)
    ensures b == InBracket(pat, c, p0, ec)
  {
    var sig, p := true, p0;
    if At(pat, p + 1) == CARET {
      sig := false;
      p := p + 1;
    }
    p := p + 1;
    while p < ec
      invariant InBracket(pat, c, p0, ec) == if InSet(pat, c, p, ec) then sig else !sig
      decreases ec - p
    {
      if At(pat, p) == ESC {
        p := p + 1;
        if MatchClass(c, At(pat, p)) {
          return sig;
        }
      } else if At(pat, p + 1) == MINUS && p + 2 < ec {
        p := p + 2;
        if At(pat, p - 2) <= c && c <= At(pat, p) {
          return sig;
        }
      } else if At(pat, p) == c {
        return sig;
      }
      p := p + 1;
    }
    b := !sig;
  }

  method FindClassEnd(pat: seq<Char>, p0: nat) returns (ep: Option<nat>)
    requires p0 < |pat|
    ensures ep == ClassEnd(pat, p0)
  {
    var p := p0 + 1;
    if pat[p0] == ESC {
      if p == |pat| {
        return None;
      }
      return Some(p + 1);
    } else if pat[p0] == LBRACKET {
      if At(pat, p) == CARET {
        p := p + 1;
      }
      ghost var start := p;
      while true
        invariant p <= |pat| && BracketEnd(pat, p) == BracketEnd(pat, start)
        decreases |pat| - p
      {
        if p == |pat| {
          return None;
        }
        p := p + 1;
        if pat[p - 1] == ESC && p < |pat| {
          p := p + 1;
        }
        if At(pat, p) == RBRACKET {
          break;
        }
      }
      return Some(p + 1);
    }
    ep := Some(p);
  }

  // ---------- items ----------

  datatype Suffix = Once | Optional | Star | Plus | Minus

  datatype Item =
    | Start
    | Position
    | End
    | AtEnd
    | Balance(b: Char, e: Char)
    | Frontier(p: nat, ep: nat)
    | Back(digit: Char)
    | Single(p: nat, ep: nat, suffix: Suffix)

  function SuffixOf(c: Char): Suffix {
    if c == QUESTION then Optional else if c == STAR then Star else if c == PLUS then Plus else if c == MINUS then Minus
    else Once
  }

  /** The item at `p` and where the next one begins, unless the pattern is malformed. */
  function ItemAt(pat: seq<Char>, p: nat): (r: Option<(Item, nat)>)
    requires p < |pat|
    ensures r.Some? ==>
      p < r.value.1 <= |pat| && (r.value.0.Single? ==> r.value.0.p < r.value.0.ep <= |pat|)
        && (r.value.0.Frontier? ==> r.value.0.p < r.value.0.ep <= |pat|)
  {
    var c, d := pat[p], At(pat, p + 1);
    if c == OPEN then (if d == CLOSE then Some((Position, p + 2)) else Some((Start, p + 1)))
    else if c == CLOSE then Some((End, p + 1))
    else if c == DOLLAR && p + 1 == |pat| then Some((AtEnd, p + 1))
    else if c == ESC && d == 98 then (if p + 3 < |pat| then Some((Balance(pat[p + 2], pat[p + 3]), p + 4)) else None)
    else if c == ESC && d == 102 then
      if At(pat, p + 2) != LBRACKET then None
      else match ClassEnd(pat, p + 2) case None => None case Some(ep) => Some((Frontier(p + 2, ep), ep))
    else if c == ESC && IsDigit(d) then Some((Back(d), p + 2))
    else
      match ClassEnd(pat, p)
      case None => None
      case Some(ep) =>
        var suffix := SuffixOf(At(pat, ep));
        Some((Single(p, ep, suffix), if suffix == Once then ep else ep + 1))
  }

  /** The items of a pattern from `p` on, unless it is malformed. */
  function Items(pat: seq<Char>, p: nat): (r: Option<seq<Item>>)
    requires p <= |pat|
    decreases |pat| - p
  {
    if p == |pat| then Some([])
    else
      match ItemAt(pat, p)
      case None => None
      case Some((it, next)) =>
        match Items(pat, next)
        case None => None
        case Some(rest) => Some([it] + rest)
  }
}
