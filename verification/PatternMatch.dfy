/** The backtracking matcher. */
module PatternMatch {
  import opened Options
  import opened PatternItems
  import opened PatternSearch

  const MAXCCALLS: nat := 200

  datatype Answer = Error | Fail | Ok(end: nat)

  /** Whether the matcher calls itself for what comes after the item. */
  predicate Nested(it: Item) {
    it == Start || it == Position || it == End || (it.Single? && it.suffix != Once)
  }

  function Depth(items: seq<Item>): nat {
    if items == [] then 0 else (if Nested(items[0]) then 1 else 0) + Depth(items[1..])
  }

  /** The pattern from `p` on is well-formed and raises no error about captures at `s`. */
  ghost predicate Sound(src: seq<Char>, pat: seq<Char>, s: nat, p: nat, caps: Captures) {
    p <= |pat| && Items(pat, p).Some? && Ready(src, Items(pat, p).value, s, caps)
  }

  /** The pattern from `p` on needs less than `depth` nested calls. */
  ghost predicate Shallow(pat: seq<Char>, p: nat, depth: int) {
    p <= |pat| && Items(pat, p).Some? && Depth(Items(pat, p).value) < depth
  }

  /** The pattern raises no error at all. */
  ghost predicate Fine(src: seq<Char>, pat: seq<Char>, s: nat, p: nat, caps: Captures, depth: int) {
    Sound(src, pat, s, p, caps) && Shallow(pat, p, depth)
  }

  /** A depth that is enough for the pattern from `p` on: the given one if it is. */
  ghost function Enough(pat: seq<Char>, p: nat, depth: int): int {
    if Shallow(pat, p, depth) || p > |pat| || Items(pat, p).None? then depth else Depth(Items(pat, p).value) + 1
  }

  lemma EnoughFine(src: seq<Char>, pat: seq<Char>, s: nat, p: nat, caps: Captures, depth: int)
    ensures Sound(src, pat, s, p, caps) ==> Fine(src, pat, s, p, caps, Enough(pat, p, depth))
    ensures Shallow(pat, p, depth) ==> Enough(pat, p, depth) == depth
  {
  }

  /** What the search finds with the pattern from `p` on. */
  ghost function Result(src: seq<Char>, pat: seq<Char>, s: nat, p: nat, caps: Captures): Option<Found> {
    if p <= |pat| && Items(pat, p).Some? && Ready(src, Items(pat, p).value, s, caps) then
      First(src, pat, Items(pat, p).value, s, caps)
    else None
  }

  /** The first item of the pattern, and the others. */
  lemma FirstItem(src: seq<Char>, pat: seq<Char>, s: nat, p: nat, caps: Captures, depth: int)
    requires Fine(src, pat, s, p, caps, depth) && p < |pat|
    ensures ItemAt(pat, p).Some?
    ensures
      var (it, next) := ItemAt(pat, p).value;
      && Items(pat, next).Some? && Items(pat, p).value == [it] + Items(pat, next).value
      && Items(pat, p).value[0] == it && Items(pat, p).value[1..] == Items(pat, next).value && Legal(it, StatusOf(caps))
      && AllLegal(Items(pat, next).value, StatusAfter(it, StatusOf(caps)))
      && Depth(Items(pat, next).value) + (if Nested(it) then 1 else 0) < depth
  {
  }

  /** Tries the rest of a pattern at `s + i`, and then nearer to `s`. */
  ghost function Down(src: seq<Char>, pat: seq<Char>, rest: seq<Item>, s: nat, caps: Captures, i: int): Option<Found>
    requires s + i <= |src| && Ready(src, rest, s, caps)
    decreases i + 1
  {
    if i < 0 then None
    else
      var f := First(src, pat, rest, s + i, caps);
      if f.Some? then f else Down(src, pat, rest, s, caps, i - 1)
  }

  /** The results from `s + i` down to `s`, for the pattern from `p` on. */
  ghost function DownFrom(src: seq<Char>, pat: seq<Char>, s: nat, p: nat, caps: Captures, i: int): Option<Found> {
    if p <= |pat| && Items(pat, p).Some? && Ready(src, Items(pat, p).value, s, caps) && s + i <= |src| then
      Down(src, pat, Items(pat, p).value, s, caps, i)
    else None
  }

  /** The results from `n` repetitions on up to `max`. */
  ghost function UpFrom(src: seq<Char>, pat: seq<Char>, items: seq<Item>, s: nat, caps: Captures, n: nat,
                        max: nat): Option<Found> {
    if items != [] && items[0].Single? && Ready(src, items, s, caps) && s + max <= |src| && n <= max + 1 then
      Shortest(src, pat, items, s, caps, n, max)
    else None
  }

  lemma {:induction false} GreedyDown(src: seq<Char>, pat: seq<Char>, items: seq<Item>, s: nat, caps: Captures, n: int)
    requires items != [] && items[0].Single? && Ready(src, items, s, caps) && s + n <= |src|
      && s + Least(items[0].suffix) <= |src|
    ensures Ready(src, items[1..], s + Least(items[0].suffix), caps)
    ensures n >= Least(items[0].suffix) - 1 ==>
      Greedy(src, pat, items, s, caps, n) == Down(src, pat, items[1..], s + Least(items[0].suffix), caps,
        n - Least(items[0].suffix))
    decreases n + 1
  {
    var l := Least(items[0].suffix);
    SingleReady(src, items, s, caps, l);
    if n >= l {
      GreedyDown(src, pat, items, s, caps, n - 1);
    }
  }

  /** What an item with a class does, by its suffix. */
  lemma SingleResult(src: seq<Char>, pat: seq<Char>, items: seq<Item>, s: nat, caps: Captures)
    requires items != [] && items[0].Single? && Ready(src, items, s, caps)
    ensures items[0].p < items[0].ep && Ready(src, items[1..], s, caps)
    ensures
      var it, rest := items[0], items[1..];
      var r := First(src, pat, items, s, caps);
      if !SingleMatch(src, pat, s, it.p, it.ep) then r == if Least(it.suffix) == 0 then First(src, pat, rest, s, caps)
      else None
      else
        && s < |src| && Ready(src, rest, s + 1, caps)
        && (it.suffix == Once ==> r == First(src, pat, rest, s + 1, caps))
        && (it.suffix == Optional ==>
            r == var f := First(src, pat, rest, s + 1, caps); if f.Some? then f else First(src, pat, rest, s, caps))
        && (it.suffix == Star ==> r == Down(src, pat, rest, s, caps, Longest(src, pat, it, s)))
        && (it.suffix == Plus ==> r == Down(src, pat, rest, s + 1, caps, Longest(src, pat, it, s + 1)))
        && (it.suffix == Minus ==> r == Shortest(src, pat, items, s, caps, 0, Longest(src, pat, it, s)))
  {
    hide First, Greedy, Shortest, Down, Most, Longest, Ready, SingleMatch;
    var it := items[0];
    FirstSingle(src, pat, items, s, caps);
    SingleReady(src, items, s, caps, 0);
    MostSteps(src, pat, it, s);
    var n := Most(src, pat, it, s);
    if SingleMatch(src, pat, s, it.p, it.ep) {
      SingleReady(src, items, s, caps, 1);
      if it.suffix != Minus {
        GreedyDown(src, pat, items, s, caps, n);
        DownTwo(src, pat, items[1..], s, caps);
        DownTwo(src, pat, items[1..], s + 1, caps);
      }
    } else if it.suffix == Minus {
      ShortestOne(src, pat, items, s, caps);
    } else {
      GreedyOne(src, pat, items, s, caps);
    }
  }

  /** How often a class can be taken, by its suffix. */
  lemma MostSteps(src: seq<Char>, pat: seq<Char>, it: Item, s: nat)
    requires it.Single? && it.p < it.ep && s <= |src|
    ensures
      var n := Most(src, pat, it, s);
      if !SingleMatch(src, pat, s, it.p, it.ep) then n == 0
      else
        && s < |src| && n == (if Bounded(it.suffix) then 1 else Longest(src, pat, it, s))
        && Longest(src, pat, it, s) == 1 + Longest(src, pat, it, s + 1)
  {
  }

  lemma DownTwo(src: seq<Char>, pat: seq<Char>, rest: seq<Item>, s: nat, caps: Captures)
    requires Ready(src, rest, s, caps)
    ensures Down(src, pat, rest, s, caps, 0) == First(src, pat, rest, s, caps)
    ensures s < |src| ==>
      Ready(src, rest, s + 1, caps) && Down(src, pat, rest, s, caps, 1) ==
        var f := First(src, pat, rest, s + 1, caps); if f.Some? then f else First(src, pat, rest, s, caps)
  {
    assert Down(src, pat, rest, s, caps, -1) == None;
    assert s + 0 == s;
  }

  lemma ShortestOne(src: seq<Char>, pat: seq<Char>, items: seq<Item>, s: nat, caps: Captures)
    requires items != [] && items[0].Single? && Ready(src, items, s, caps)
    ensures Ready(src, items[1..], s, caps) && Shortest(src, pat, items, s, caps, 0, 0) ==
      First(src, pat, items[1..], s, caps)
  {
    SingleReady(src, items, s, caps, 0);
    assert Shortest(src, pat, items, s, caps, 1, 0) == None;
  }

  lemma GreedyOne(src: seq<Char>, pat: seq<Char>, items: seq<Item>, s: nat, caps: Captures)
    requires items != [] && items[0].Single? && Ready(src, items, s, caps)
    ensures Ready(src, items[1..], s, caps)
    ensures Greedy(src, pat, items, s, caps, 0) ==
      if Least(items[0].suffix) == 0 then First(src, pat, items[1..], s, caps) else None
  {
    SingleReady(src, items, s, caps, 0);
    assert Greedy(src, pat, items, s, caps, -1) == None;
  }

  class MatchState {
    const src: seq<Char>
    const pat: seq<Char>
    var matchdepth: nat
    var level: nat
    var capture: seq<Capture>

    predicate Valid()
      reads this
    {
      |capture| == MAXCAPTURES && level <= MAXCAPTURES
    }

    /** The captures so far. */
    ghost function Caps(): Captures
      requires Valid()
      reads this
    {
      capture[..level]
    }

    constructor (src: seq<Char>, pat: seq<Char>)
      ensures Valid() && this.src == src && this.pat == pat && matchdepth == MAXCCALLS && Caps() == []
    {
      this.src, this.pat := src, pat;
      matchdepth, level := MAXCCALLS, 0;
      capture := seq(MAXCAPTURES, i => Capture(0, Unfinished));
    }

    /** The answer is the result of the search; the captures are those of the result, and
        after a failure they are as they were. */
    ghost predicate Answers(a: Answer, f: Option<Found>, before: Captures)
      requires Valid()
      reads this
    {
      match f
      case None => a == Fail && Caps() == before
      case Some(r) => a == Ok(r.end) && Caps() == r.caps
    }

    method SingleAt(s: nat, p: nat, ep: nat) returns (b: bool)
      requires p < ep <= |pat|
      ensures b == SingleMatch(src, pat, s, p, ep)
    {
      if s >= |src| {
        return false;
      }
      var c := src[s];
      if pat[p] == DOT {
        b := true;
      } else if pat[p] == ESC {
        b := MatchClass(c, At(pat, p + 1));
      } else if pat[p] == LBRACKET {
        b := MatchBracketClass(pat, c, p, ep - 1);
      } else {
        b := pat[p] == c;
      }
    }

    /** The end of a balanced string. */
    method MatchBalance(s0: nat, p: nat) returns (ok: bool, r: Option<nat>)
      requires s0 <= |src|
      ensures ok <==> p + 1 < |pat|
      ensures ok ==> r == if At(src, s0) != pat[p] then None else Scan(src, s0 + 1, pat[p], pat[p + 1], 1)
    {
      if p + 1 >= |pat| {
        return false, None;
      }
      ok := true;
      if At(src, s0) != pat[p] {
        return true, None;
      }
      var b, e, s := pat[p], pat[p + 1], s0;
      var cont: nat := 1;
      s := s + 1;
      while s < |src|
        invariant cont > 0 && Scan(src, s, b, e, cont) == Scan(src, s0 + 1, b, e, 1)
        decreases |src| - s
      {
        if src[s] == e {
          cont := cont - 1;
          if cont == 0 {
            return true, Some(s + 1);
          }
        } else if src[s] == b {
          cont := cont + 1;
        }
        s := s + 1;
      }
      r := None;
    }

    /** The last capture that is still open. */
    method CaptureToClose() returns (l: Option<nat>)
      requires Valid()
      ensures l == LastOpen(Caps())
    {
      var k: nat := level;
      assert capture[..level] == Caps();
      while k > 0
        invariant k <= level && LastOpen(capture[..k]) == LastOpen(Caps())
      {
        assert capture[..k][..k - 1] == capture[..k - 1];
        k := k - 1;
        if capture[k].len == Unfinished {
          return Some(k);
        }
      }
      l := None;
    }

    /** Opens a capture, or records a position, and matches the rest. */
    method StartCapture(s: nat, p: nat, what: Length) returns (a: Answer)
      requires Valid() && s <= |src| && p <= |pat| && Begun(Caps(), s)
      modifies this
      ensures a != Error ==> Valid() && matchdepth == old(matchdepth)
      ensures a == Fail ==> Caps() == old(Caps())
      ensures
        var c := old(Caps()) + [Capture(s, what)];
        old(level) < MAXCAPTURES && Sound(src, pat, s, p, c) ==>
          && (a != Error ==> Answers(a, Result(src, pat, s, p, c), old(Caps())))
          && (Shallow(pat, p, old(matchdepth)) ==> a != Error)
      decreases |pat| - p, 3
    {
      hide Sound, Shallow, Result;
      ghost var c0 := Caps();
      if level >= MAXCAPTURES {
        return Error;
      }
      capture := capture[level := Capture(s, what)];
      level := level + 1;
      assert Caps() == c0 + [Capture(s, what)];
      a := Match(s, p);
      if a == Fail {
        level := level - 1;
        assert Caps() == (c0 + [Capture(s, what)])[..level] == c0;
      }
    }

    /** Closes the last open capture and matches the rest. */
    method EndCapture(s: nat, p: nat) returns (a: Answer)
      requires Valid() && s <= |src| && p <= |pat| && Begun(Caps(), s)
      modifies this
      ensures a != Error ==> Valid() && matchdepth == old(matchdepth)
      ensures a == Fail ==> Caps() == old(Caps())
      ensures LastOpen(old(Caps())).Some? ==>
        var l := LastOpen(old(Caps())).value;
        && old(Caps())[l].init <= s
        && var c := old(Caps())[l := old(Caps())[l].(len := Closed(s - old(Caps())[l].init))];
        Sound(src, pat, s, p, c) ==>
          && (a != Error ==> Answers(a, Result(src, pat, s, p, c), old(Caps())))
          && (Shallow(pat, p, old(matchdepth)) ==> a != Error)
      decreases |pat| - p, 3
    {
      hide Sound, Shallow, Result;
      ghost var c0 := Caps();
      var open := CaptureToClose();
      if open.None? {
        return Error;
      }
      var l := open.value;
      assert capture[l] == c0[l];
      capture := capture[l := capture[l].(len := Closed(s - capture[l].init))];
      ghost var c := c0[l := c0[l].(len := Closed(s - c0[l].init))];
      assert Caps() == c;
      a := Match(s, p);
      if a == Fail {
        assert capture[l] == Caps()[l];
        capture := capture[l := capture[l].(len := Unfinished)];
        assert Caps() == c[l := c[l].(len := Unfinished)] == c0;
      }
    }

    /** Matches the text of a capture. */
    method MatchCapture(s: nat, digit: Char) returns (ok: bool, r: Option<nat>)
      requires Valid() && s <= |src|
      ensures ok <==> CaptureOk(Caps(), digit)
      ensures ok ==> r == BackEnd(src, s, Caps()[digit - 49])
    {
      var l := digit - 49;
      if l < 0 || l >= level || capture[l].len == Unfinished {
        return false, None;
      }
      assert Caps()[l] == capture[l];
      ok, r := true, BackEnd(src, s, capture[l]);
    }

    /** Matches the class as often as possible, and then less often until the rest matches. */
    method MaxExpand(s: nat, p: nat, ep: nat) returns (a: Answer)
      requires Valid() && s <= |src| && p < ep < |pat| && Begun(Caps(), s)
      modifies this
      ensures a != Error ==> Valid() && matchdepth == old(matchdepth)
      ensures a == Fail ==> Caps() == old(Caps())
      ensures Sound(src, pat, s, ep + 1, old(Caps())) ==>
        && (a != Error ==>
            Answers(a, DownFrom(src, pat, s, ep + 1, old(Caps()), Longest(src, pat, Single(p, ep, Star), s)),
              old(Caps())))
        && (Shallow(pat, ep + 1, old(matchdepth)) ==> a != Error)
      decreases |pat| - ep, 4
    {
      hide Sound, Shallow, Result, DownFrom, Longest, Begun;
      ghost var c0, it := Caps(), Single(p, ep, Star);
      ghost var sound := Sound(src, pat, s, ep + 1, c0);
      ghost var goal := DownFrom(src, pat, s, ep + 1, c0, Longest(src, pat, it, s));
      var i: int := 0;
      var more := SingleAt(s + i, p, ep);
      LongestStep(src, pat, it, s);
      while more
        invariant Valid() && Caps() == c0 && matchdepth == old(matchdepth)
        invariant 0 <= i && s + i <= |src| && (more <==> SingleMatch(src, pat, s + i, p, ep))
        invariant i + Longest(src, pat, it, s + i) == Longest(src, pat, it, s)
        decreases |src| - s - i
      {
        LongestStep(src, pat, it, s + i);
        i := i + 1;
        more := SingleAt(s + i, p, ep);
      }
      LongestStep(src, pat, it, s + i);
      while i >= 0
        invariant -1 <= i && s + i <= |src| && Valid() && Caps() == c0 && matchdepth == old(matchdepth)
        invariant sound ==> goal == DownFrom(src, pat, s, ep + 1, c0, i)
        decreases i
      {
        BegunLater(c0, s, s + i);
        if sound {
          DownStep(src, pat, s, ep + 1, c0, i);
        }
        a := Match(s + i, ep + 1);
        if a != Fail {
          return;
        }
        i := i - 1;
      }
      if sound {
        DownEnd(src, pat, s, ep + 1, c0);
      }
      a := Fail;
    }

    /** Matches the class as seldom as possible, and then more often until the rest matches. */
    method MinExpand(s0: nat, p: nat, ep: nat, ghost items: seq<Item>) returns (a: Answer)
      requires Valid() && s0 <= |src| && p < ep < |pat| && Begun(Caps(), s0)
      modifies this
      ensures a != Error ==> Valid() && matchdepth == old(matchdepth)
      ensures a == Fail ==> Caps() == old(Caps())
      ensures Rest(src, pat, items, s0, p, ep, old(Caps())) ==>
        && (a != Error ==>
            Answers(a, UpFrom(src, pat, items, s0, old(Caps()), 0, Longest(src, pat, Single(p, ep, Minus), s0)),
              old(Caps())))
        && (Shallow(pat, ep + 1, old(matchdepth)) ==> a != Error)
      decreases |pat| - ep, 4
    {
      hide Sound, Shallow, Result, UpFrom, Longest, Begun, Rest;
      ghost var c0, it := Caps(), Single(p, ep, Minus);
      ghost var sound := Rest(src, pat, items, s0, p, ep, c0);
      ghost var max := Longest(src, pat, it, s0);
      ghost var goal := UpFrom(src, pat, items, s0, c0, 0, max);
      var s := s0;
      while true
        invariant s0 <= s <= |src| && Valid() && Caps() == c0 && matchdepth == old(matchdepth)
        invariant s - s0 + Longest(src, pat, it, s) == max && s0 + max <= |src|
        invariant sound ==> goal == UpFrom(src, pat, items, s0, c0, s - s0, max)
        decreases |src| - s
      {
        BegunLater(c0, s0, s);
        LongestStep(src, pat, it, s);
        if sound {
          ShortestStep(src, pat, items, s0, p, ep, c0, s - s0, max);
        }
        a := Match(s, ep + 1);
        if a != Fail {
          return;
        }
        var b := SingleAt(s, p, ep);
        if b {
          s := s + 1;
        } else {
          return Fail;
        }
      }
    }

    /** Matches the pattern from `p0` on at `s0`. */
    method Match(s0: nat, p0: nat) returns (a: Answer)
      requires Valid() && s0 <= |src| && p0 <= |pat| && Begun(Caps(), s0)
      modifies this
      ensures a != Error ==> Valid() && matchdepth == old(matchdepth)
      ensures a == Fail ==> Caps() == old(Caps())
      ensures Sound(src, pat, s0, p0, old(Caps())) ==>
        && (a != Error ==> Answers(a, Result(src, pat, s0, p0, old(Caps())), old(Caps())))
        && (Shallow(pat, p0, old(matchdepth)) ==> a != Error)
      decreases |pat| - p0, 2
    {
      hide Sound, Shallow, Result, Begun;
      if matchdepth == 0 {
        NoDepth(pat, p0);
        return Error;
      }
      matchdepth := matchdepth - 1;
      ghost var c0, depth := Caps(), matchdepth + 1;
      ghost var sound, shallow := Sound(src, pat, s0, p0, c0), Shallow(pat, p0, depth);
      ghost var goal := Result(src, pat, s0, p0, c0);
      var s, p := s0, p0;
      var done := false;
      a := Fail;
      while !done
        invariant p0 <= p <= |pat| && s0 <= s <= |src|
        invariant !done ==> Valid() && Caps() == c0 && matchdepth + 1 == depth
        invariant !done && sound ==>
          Sound(src, pat, s, p, c0) && Result(src, pat, s, p, c0) == goal && (shallow ==> Shallow(pat, p, depth))
        invariant done ==> Finished(a, depth - 1, c0)
        invariant done && sound ==> (a != Error ==> Answers(a, goal, c0)) && (shallow ==> a != Error)
        decreases !done, |pat| - p
      {
        BegunLater(c0, s0, s);
        if p == |pat| {
          AtPatternEnd(src, pat, s, c0);
          a, done := Ok(s), true;
        } else {
          a, done, s, p := Step(s, p);
        }
      }
      if a != Error {
        matchdepth := matchdepth + 1;
      }
    }

    ghost predicate Finished(a: Answer, depth: int, before: Captures)
      reads this
    {
      a != Error ==> Valid() && matchdepth == depth && (a == Fail ==> Caps() == before)
    }

    /** Matches one item: it is done with the whole rest, or the rest is left to match. */
    method Step(s: nat, p: nat) returns (a: Answer, done: bool, s': nat, p': nat)
      requires Valid() && s <= |src| && p < |pat| && Begun(Caps(), s)
      modifies this
      ensures done ==> s' == s && p' == p && Finished(a, old(matchdepth), old(Caps()))
      ensures !done ==>
        Valid() && Caps() == old(Caps()) && matchdepth == old(matchdepth) && s <= s' <= |src| && p < p' <= |pat|
      ensures Sound(src, pat, s, p, old(Caps())) ==>
        if done then
          && (a != Error ==> Answers(a, Result(src, pat, s, p, old(Caps())), old(Caps())))
          && (Shallow(pat, p, old(matchdepth) + 1) ==> a != Error)
        else
          && Sound(src, pat, s', p', old(Caps()))
          && Result(src, pat, s', p', old(Caps())) == Result(src, pat, s, p, old(Caps()))
          && (Shallow(pat, p, old(matchdepth) + 1) ==> Shallow(pat, p', old(matchdepth) + 1))
      decreases |pat| - p, 1
    {
      hide Sound, Shallow, Result, Begun, Enough;
      ghost var c0, depth := Caps(), Enough(pat, p, matchdepth + 1);
      ghost var sound := Sound(src, pat, s, p, c0);
      EnoughFine(src, pat, s, p, c0, matchdepth + 1);
      a, done, s', p' := Fail, true, s, p;
      if pat[p] == OPEN {
        if sound {
          StartResult(src, pat, s, p, c0, depth);
        }
        if At(pat, p + 1) == CLOSE {
          a := StartCapture(s, p + 2, PositionOnly);
        } else {
          a := StartCapture(s, p + 1, Unfinished);
        }
      } else if pat[p] == CLOSE {
        if sound {
          EndResult(src, pat, s, p, c0, depth);
        }
        a := EndCapture(s, p + 1);
      } else if pat[p] == DOLLAR && p + 1 == |pat| {
        if sound {
          AtEndResult(src, pat, s, p, c0, depth);
        }
        a := if s == |src| then Ok(s) else Fail;
      } else if pat[p] == ESC && (At(pat, p + 1) == 98 || At(pat, p + 1) == 102 || IsDigit(At(pat, p + 1))) {
        a, done, s', p' := EscapeStep(s, p);
      } else {
        a, done, s', p' := ClassStep(s, p);
      }
    }

    /** A balanced string, a frontier, or the text of a capture. */
    method EscapeStep(s: nat, p: nat) returns (a: Answer, done: bool, s': nat, p': nat)
      requires Valid() && s <= |src| && p + 1 < |pat| && pat[p] == ESC
        && (pat[p + 1] == 98 || pat[p + 1] == 102 || IsDigit(pat[p + 1]))
      ensures done ==> s' == s && p' == p && !a.Ok?
      ensures !done ==> s <= s' <= |src| && p < p' <= |pat|
      ensures Sound(src, pat, s, p, Caps()) ==>
        if done then a == Fail && Result(src, pat, s, p, Caps()) == None
        else
          && Sound(src, pat, s', p', Caps()) && Result(src, pat, s', p', Caps()) == Result(src, pat, s, p, Caps())
          && (Shallow(pat, p, matchdepth + 1) ==> Shallow(pat, p', matchdepth + 1))
    {
      hide Sound, Shallow, Result, Enough;
      a, done, s', p' := Fail, true, s, p;
      EnoughFine(src, pat, s, p, Caps(), matchdepth + 1);
      if Sound(src, pat, s, p, Caps()) {
        EscapeResult(src, pat, s, p, Caps(), Enough(pat, p, matchdepth + 1));
      }
      if pat[p + 1] == 98 {
        var ok, r := MatchBalance(s, p + 2);
        if !ok {
          a := Error;
        } else if r.Some? {
          done, s', p' := false, r.value, p + 4;
        }
      } else if pat[p + 1] == 102 {
        if At(pat, p + 2) != LBRACKET {
          return Error, true, s, p;
        }
        var ep := FindClassEnd(pat, p + 2);
        if ep.None? {
          return Error, true, s, p;
        }
        var previous := if s == 0 then 0 else At(src, s - 1);
        var before := MatchBracketClass(pat, previous, p + 2, ep.value - 1);
        var here := MatchBracketClass(pat, At(src, s), p + 2, ep.value - 1);
        if !before && here {
          done, p' := false, ep.value;
        }
      } else {
        var ok, r := MatchCapture(s, pat[p + 1]);
        if !ok {
          a := Error;
        } else if r.Some? {
          done, s', p' := false, r.value, p + 2;
        }
      }
    }

    /** A class with its suffix. */
    method ClassStep(s: nat, p: nat) returns (a: Answer, done: bool, s': nat, p': nat)
      requires Valid() && s <= |src| && p < |pat| && Begun(Caps(), s) && IsClass(pat, p)
      modifies this
      ensures done ==> s' == s && p' == p && Finished(a, old(matchdepth), old(Caps()))
      ensures !done ==>
        Valid() && Caps() == old(Caps()) && matchdepth == old(matchdepth) && s <= s' <= |src| && p < p' <= |pat|
      ensures Sound(src, pat, s, p, old(Caps())) ==>
        if done then
          && (a != Error ==> Answers(a, Result(src, pat, s, p, old(Caps())), old(Caps())))
          && (Shallow(pat, p, old(matchdepth) + 1) ==> a != Error)
        else
          && Sound(src, pat, s', p', old(Caps()))
          && Result(src, pat, s', p', old(Caps())) == Result(src, pat, s, p, old(Caps()))
          && (Shallow(pat, p, old(matchdepth) + 1) ==> Shallow(pat, p', old(matchdepth) + 1))
      decreases |pat| - p, 0
    {
      hide Sound, Shallow, Result, Begun, IsClass, DownFrom, UpFrom, Longest, ClassEnd, Rest, Enough;
      ghost var c0, depth := Caps(), Enough(pat, p, matchdepth + 1);
      EnoughFine(src, pat, s, p, c0, matchdepth + 1);
      ghost var items: seq<Item> := [];
      a, done, s', p' := Fail, true, s, p;
      var end := FindClassEnd(pat, p);
      ClassEnds(pat, p);
      if Sound(src, pat, s, p, c0) {
        items := ClassResult(src, pat, s, p, c0, depth);
      }
      if end.None? {
        return Error, true, s, p;
      }
      var ep := end.value;
      var c := At(pat, ep);
      var b := SingleAt(s, p, ep);
      if !b {
        if c == STAR || c == QUESTION || c == MINUS {
          done, p' := false, ep + 1;
        }
      } else if c == QUESTION {
        BegunLater(c0, s, s + 1);
        a := Match(s + 1, ep + 1);
        if a == Fail {
          done, p' := false, ep + 1;
        }
      } else if c == PLUS {
        BegunLater(c0, s, s + 1);
        SameLongest(src, pat, p, ep, s + 1);
        a := MaxExpand(s + 1, p, ep);
      } else if c == STAR {
        a := MaxExpand(s, p, ep);
      } else if c == MINUS {
        a := MinExpand(s, p, ep, items);
      } else {
        done, s', p' := false, s + 1, ep;
      }
    }
  }

  lemma NoDepth(pat: seq<Char>, p: nat)
    ensures !Shallow(pat, p, 0)
  {
  }

  lemma AtPatternEnd(src: seq<Char>, pat: seq<Char>, s: nat, caps: Captures)
    ensures Sound(src, pat, s, |pat|, caps) ==> Result(src, pat, s, |pat|, caps) == Some(Found(s, caps))
  {
  }

  lemma StartResult(src: seq<Char>, pat: seq<Char>, s: nat, p: nat, caps: Captures, depth: int)
    requires Fine(src, pat, s, p, caps, depth) && p < |pat| && pat[p] == OPEN
    ensures
      var position := At(pat, p + 1) == CLOSE;
      var next, c := if position then p + 2 else p + 1,
        caps + [Capture(s, if position then PositionOnly else Unfinished)];
      && |caps| < MAXCAPTURES && Fine(src, pat, s, next, c, depth - 1)
      && Result(src, pat, s, p, caps) == Result(src, pat, s, next, c)
  {
    FirstItem(src, pat, s, p, caps, depth);
    SimpleReady(src, pat, Items(pat, p).value, s, caps);
  }

  lemma EndResult(src: seq<Char>, pat: seq<Char>, s: nat, p: nat, caps: Captures, depth: int)
    requires Fine(src, pat, s, p, caps, depth) && p < |pat| && pat[p] == CLOSE
    ensures LastOpen(caps).Some? && caps[LastOpen(caps).value].init <= s
    ensures
      var l := LastOpen(caps).value;
      var c := caps[l := caps[l].(len := Closed(s - caps[l].init))];
      Fine(src, pat, s, p + 1, c, depth - 1) && Result(src, pat, s, p, caps) == Result(src, pat, s, p + 1, c)
  {
    FirstItem(src, pat, s, p, caps, depth);
    SimpleReady(src, pat, Items(pat, p).value, s, caps);
  }

  lemma AtEndResult(src: seq<Char>, pat: seq<Char>, s: nat, p: nat, caps: Captures, depth: int)
    requires Fine(src, pat, s, p, caps, depth) && p < |pat| && pat[p] == DOLLAR && p + 1 == |pat|
    ensures Result(src, pat, s, p, caps) == if s == |src| then Some(Found(s, caps)) else None
  {
    FirstItem(src, pat, s, p, caps, depth);
    SimpleReady(src, pat, Items(pat, p).value, s, caps);
    assert Items(pat, p + 1) == Some([]);
    assert Items(pat, p).value[1..] == [] && AllLegal([], StatusOf(caps));
    assert First(src, pat, [], s, caps) == Some(Found(s, caps));
    assert ItemAt(pat, p).value.0 == AtEnd;
  }

  lemma EscapeResult(src: seq<Char>, pat: seq<Char>, s: nat, p: nat, caps: Captures, depth: int)
    requires Fine(src, pat, s, p, caps, depth) && p + 1 < |pat| && pat[p] == ESC
      && (pat[p + 1] == 98 || pat[p + 1] == 102 || IsDigit(pat[p + 1]))
    ensures ItemAt(pat, p).Some? && !ItemAt(pat, p).value.0.Single?
    ensures
      var (it, next) := ItemAt(pat, p).value;
      && (it.Back? ==> CaptureOk(caps, it.digit)) && it != End
      && var r := Simple(src, pat, it, s, caps);
      if r.None? then Result(src, pat, s, p, caps) == None
      else
        r.value.caps == caps && Fine(src, pat, r.value.end, next, caps, depth)
        && Result(src, pat, s, p, caps) == Result(src, pat, r.value.end, next, caps)
  {
    FirstItem(src, pat, s, p, caps, depth);
    SimpleReady(src, pat, Items(pat, p).value, s, caps);
  }

  /** At `p` there is a class, not one of the other items. */
  ghost predicate IsClass(pat: seq<Char>, p: nat)
    requires p < |pat|
  {
    && pat[p] != OPEN && pat[p] != CLOSE && !(pat[p] == DOLLAR && p + 1 == |pat|)
    && !(pat[p] == ESC && (At(pat, p + 1) == 98 || At(pat, p + 1) == 102 || IsDigit(At(pat, p + 1))))
  }

  lemma ClassEnds(pat: seq<Char>, p: nat)
    requires p < |pat|
    ensures ClassEnd(pat, p).Some? ==>
      p < ClassEnd(pat, p).value <= |pat| && (At(pat, ClassEnd(pat, p).value) != 0 ==> ClassEnd(pat, p).value < |pat|)
  {
  }

  lemma SameLongest(src: seq<Char>, pat: seq<Char>, p: nat, ep: nat, s: nat)
    requires p < ep && s <= |src|
    ensures Longest(src, pat, Single(p, ep, Plus), s) == Longest(src, pat, Single(p, ep, Star), s)
    decreases |src| - s
  {
    if SingleMatch(src, pat, s, p, ep) {
      SameLongest(src, pat, p, ep, s + 1);
    }
  }

  /** What a class with its suffix does. */
  lemma ClassResult(src: seq<Char>, pat: seq<Char>, s: nat, p: nat, caps: Captures, depth: int)
    returns (items: seq<Item>)
    requires Fine(src, pat, s, p, caps, depth) && p < |pat| && IsClass(pat, p)
    ensures ClassEnd(pat, p).Some?
    ensures
      var ep := ClassEnd(pat, p).value;
      var x := SuffixOf(At(pat, ep));
      var next := if x == Once then ep else ep + 1;
      var r := Result(src, pat, s, p, caps);
      && p < ep <= |pat| && next <= |pat| && Fine(src, pat, s, next, caps, if x == Once then depth else depth - 1)
      && Fine(src, pat, s, next, caps, depth)
      && items == Items(pat, p).value && items != [] && items[0] == Single(p, ep, x) && Ready(src, items, s, caps)
      && items[1..] == Items(pat, next).value
      && var it := Single(p, ep, x);
      if !SingleMatch(src, pat, s, p, ep) then r == if Least(x) == 0 then Result(src, pat, s, next, caps) else None
      else
        && s < |src| && Fine(src, pat, s + 1, next, caps, if x == Once then depth else depth - 1)
        && (x == Once ==> r == Result(src, pat, s + 1, next, caps))
        && (x == Optional ==>
            r == var f := Result(src, pat, s + 1, next, caps); if f.Some? then f else Result(src, pat, s, next, caps))
        && (x == Star ==> r == DownFrom(src, pat, s, next, caps, Longest(src, pat, it, s)))
        && (x == Plus ==> r == DownFrom(src, pat, s + 1, next, caps, Longest(src, pat, it, s + 1)))
        && (x == Minus ==>
            Rest(src, pat, items, s, p, ep, caps) && r == UpFrom(src, pat, items, s, caps, 0, Longest(src, pat, it, s)))
  {
    hide First, Greedy, Shortest, Down, Most, Longest, SingleMatch, Depth, AllLegal, StatusOf, StatusAfter, Items,
         Legal;
    FirstItem(src, pat, s, p, caps, depth);
    items := Items(pat, p).value;
    SingleResult(src, pat, items, s, caps);
  }

  lemma LongestStep(src: seq<Char>, pat: seq<Char>, it: Item, s: nat)
    requires it.Single? && it.p < it.ep && s <= |src|
    ensures s + Longest(src, pat, it, s) <= |src|
    ensures
      if SingleMatch(src, pat, s, it.p, it.ep) then
        s < |src| && Longest(src, pat, it, s) == 1 + Longest(src, pat, it, s + 1)
      else Longest(src, pat, it, s) == 0
  {
  }

  lemma BegunLater(caps: Captures, s: nat, t: nat)
    requires Begun(caps, s)
    ensures s <= t ==> Begun(caps, t)
  {
  }

  /** `items` are the item with the suffix `-` from `p` to `ep`, and those after it. */
  ghost predicate Rest(src: seq<Char>, pat: seq<Char>, items: seq<Item>, s: nat, p: nat, ep: nat, caps: Captures) {
    && items != [] && p < ep && items[0] == Single(p, ep, Minus) && Ready(src, items, s, caps)
    && Sound(src, pat, s, ep + 1, caps) && items[1..] == Items(pat, ep + 1).value
  }

  lemma DownStep(src: seq<Char>, pat: seq<Char>, s: nat, p: nat, caps: Captures, i: nat)
    requires Sound(src, pat, s, p, caps) && s + i <= |src|
    ensures Sound(src, pat, s + i, p, caps)
    ensures
      var f := Result(src, pat, s + i, p, caps);
      DownFrom(src, pat, s, p, caps, i) == if f.Some? then f else DownFrom(src, pat, s, p, caps, i - 1)
  {
  }

  lemma DownEnd(src: seq<Char>, pat: seq<Char>, s: nat, p: nat, caps: Captures)
    ensures DownFrom(src, pat, s, p, caps, -1) == None
  {
  }

  lemma ShortestStep(src: seq<Char>, pat: seq<Char>, items: seq<Item>, s: nat, p: nat, ep: nat, caps: Captures, n: nat,
                     max: nat)
    requires Rest(src, pat, items, s, p, ep, caps) && n <= max && s + max <= |src|
    ensures Sound(src, pat, s + n, ep + 1, caps)
    ensures
      var f := Result(src, pat, s + n, ep + 1, caps);
      UpFrom(src, pat, items, s, caps, n, max) == if f.Some? then f else UpFrom(src, pat, items, s, caps, n + 1, max)
    ensures n == max ==> UpFrom(src, pat, items, s, caps, n + 1, max) == None
  {
    SingleReady(src, items, s, caps, n);
  }

  // ---------- searching ----------

  /** A well-formed pattern whose captures are closed after they were opened. */
  ghost predicate Regular(pat: seq<Char>) {
    Items(pat, 0).Some? && AllLegal(Items(pat, 0).value, [])
  }

  lemma RegularFine(src: seq<Char>, pat: seq<Char>, s: nat)
    requires Regular(pat) && s <= |src|
    ensures Sound(src, pat, s, 0, []) && Ready(src, Items(pat, 0).value, s, [])
  {
    assert StatusOf([]) == [];
  }

  /** No way of taking the items matches at `s`. */
  ghost predicate Nowhere(src: seq<Char>, pat: seq<Char>, s: nat)
    requires Regular(pat) && s <= |src|
  {
    RegularFine(src, pat, s);
    NoWay(src, pat, Items(pat, 0).value, s, [])
  }

  /** The most preferred of all ways of matching at `s` ends there, with those captures. */
  ghost predicate MatchesAt(src: seq<Char>, pat: seq<Char>, s: nat, f: Found)
    requires Regular(pat) && s <= |src|
  {
    RegularFine(src, pat, s);
    exists way :: Best(src, pat, Items(pat, 0).value, s, [], way, f)
  }

  /** What the search finds is the most preferred match; where it finds none there is none. */
  lemma ResultMeans(src: seq<Char>, pat: seq<Char>, s: nat)
    requires Regular(pat) && s <= |src|
    ensures
      var r := Result(src, pat, s, 0, []);
      if r.None? then Nowhere(src, pat, s) else MatchesAt(src, pat, s, r.value)
  {
    RegularFine(src, pat, s);
    var way := FirstIsBest(src, pat, Items(pat, 0).value, s, []);
  }

  /** Looks for the pattern from index `init` on, or only there if the pattern begins with
      a caret: the match is at the first place where there is any way of matching, and it is
      the most preferred one there. */
  method StrFindAux(src: seq<Char>, p: seq<Char>, init: nat)
    returns (found: bool, start: nat, end: nat, caps: seq<Capture>, error: bool)
    requires init <= |src|
    ensures
      var anchor := p != [] && p[0] == CARET;
      var pat := if anchor then p[1..] else p;
      && (Regular(pat) && Shallow(pat, 0, MAXCCALLS) ==> !error)
      && (Regular(pat) && !error ==>
        && (found ==>
            init <= start <= |src| && (anchor ==> start == init) && MatchesAt(src, pat, start, Found(end, caps)))
        && forall s :: init <= s <= |src| && (anchor ==> s == init) && (found ==> s < start) ==> Nowhere(src, pat, s))
  {
    hide Sound, Shallow, Result, Nowhere, MatchesAt, Regular;
    var anchor := p != [] && p[0] == CARET;
    var pat := if anchor then p[1..] else p;
    found, start, end, caps, error := false, init, 0, [], false;
    var ms := new MatchState(src, pat);
    var s1 := init;
    while true
      invariant init <= s1 <= |src| && fresh(ms) && ms.Valid() && ms.matchdepth == MAXCCALLS && ms.src == src
        && ms.pat == pat && (anchor ==> s1 == init)
      invariant Regular(pat) ==> forall s :: init <= s < s1 ==> Nowhere(src, pat, s)
      decreases |src| - s1
    {
      ms.level := 0;
      assert ms.Caps() == [];
      if Regular(pat) {
        RegularFine(src, pat, s1);
        ResultMeans(src, pat, s1);
      }
      var a := ms.Match(s1, 0);
      if a == Error {
        error := true;
        return;
      }
      if a != Fail {
        found, start, end, caps := true, s1, a.end, ms.capture[..ms.level];
        return;
      }
      if s1 >= |src| || anchor {
        return;
      }
      s1 := s1 + 1;
    }
  }
}
