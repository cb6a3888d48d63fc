/** What a written pattern matches, after section 6.4.1 of the Lua 5.3 Reference Manual, and
    that the search goes by it. */
module PatternMeaning {
  import opened Options
  import opened PatternItems
  import opened PatternMatch
  import opened PatternSearch
  import opened PatternSyntax

  /** How often a part with this suffix may be taken. */
  predicate Allowed(x: Suffix, n: nat) {
    match x
    case Once => n == 1
    case Optional => n <= 1
    case Plus => n >= 1
    case _ => true
  }

  /** How many brackets are open at `k`, one of them from before `i`; a closing bracket that is
      the same as the opening one closes. */
  function Depth(src: seq<Char>, b: Char, e: Char, i: nat, k: nat, open: nat): int
    requires i <= k <= |src|
  {
    var text := multiset(src[i..k]);
    open + (if b == e then 0 else text[b]) - text[e]
  }

  /** The open brackets are closed at `r`, and not before. */
  ghost predicate ClosedAt(src: seq<Char>, b: Char, e: Char, i: nat, open: nat, r: nat) {
    && i < r <= |src| && Depth(src, b, e, i, r, open) == 0
    && forall k :: i <= k < r ==> Depth(src, b, e, i, k, open) > 0
  }

  /** The character before or at a place, with zeros around the subject. */
  function Around(src: seq<Char>, s: int): Char {
    if 0 <= s < |src| then src[s] else 0
  }

  /** The last capture that is still open is the one at `l`. */
  ghost predicate Innermost(caps: Captures, l: nat) {
    && l < |caps| && caps[l].len == Unfinished
    && forall i :: l < i < |caps| ==> caps[i].len != Unfinished
  }

  /** The innermost open capture, at `l`, is closed at `s`. */
  ghost predicate Closes(caps: Captures, l: nat, s: nat, f: Found) {
    && Innermost(caps, l) && caps[l].init <= s
    && f == Found(s, caps[l := Capture(caps[l].init, Closed(s - caps[l].init))])
  }

  /** The part, taken `n` times at `s`, leads to `f`. */
  ghost predicate Takes(src: seq<Char>, part: Part, n: nat, s: nat, caps: Captures, f: Found) {
    match part
    case Repeat(cs, x) =>
      && Allowed(x, n) && s + n <= |src| && f == Found(s + n, caps)
      && forall i :: s <= i < s + n ==> SetHas(cs, src[i])
    case Opening => n == 1 && f == Found(s, caps + [Capture(s, Unfinished)])
    case Place => n == 1 && f == Found(s, caps + [Capture(s, PositionOnly)])
    case Closing =>
      n == 1 && exists l: nat :: Closes(caps, l, s, f)
    case Pair(b, e) =>
      n == 1 && s < |src| && src[s] == b && f.caps == caps && ClosedAt(src, b, e, s + 1, 1, f.end)
    case Edge(cs) => n == 1 && f == Found(s, caps) && !SetHas(cs, Around(src, s - 1)) && SetHas(cs, Around(src, s))
    case Reference(d) =>
      var l := d - '1' as int;
      && n == 1 && 0 <= l < |caps| && caps[l].len.Closed?
      && var m := caps[l].len.n;
         && caps[l].init + m <= |src| && s + m <= |src| && f == Found(s + m, caps)
         && src[s..s + m] == src[caps[l].init..caps[l].init + m]
  }

  /** The parts, taken as often as the way says, lead to `f`, with `end` at the end of the subject. */
  ghost predicate Leads(src: seq<Char>, parts: seq<Part>, end: bool, way: seq<nat>, s: nat, caps: Captures, f: Found)
    decreases |parts|
  {
    if parts == [] then
      f == Found(s, caps) && way == (if end then [1] else []) && (end ==> s == |src|)
    else
      way != [] && exists g ::
        Takes(src, parts[0], way[0], s, caps, g) && Leads(src, parts[1..], end, way[1..], g.end, g.caps, f)
  }

  // ---------- the single parts ----------

  /** The scan ends where the open brackets are closed. */
  lemma {:induction false} ScanCloses(src: seq<Char>, i: nat, b: Char, e: Char, open: nat, r: nat)
    requires open > 0
    ensures Scan(src, i, b, e, open) == Some(r) <==> ClosedAt(src, b, e, i, open, r)
    decreases |src| - i
  {
    hide Depth;
    if i < |src| {
      var next := if src[i] == e then open - 1 else if src[i] == b then open + 1 else open;
      CloseStep(src, i, b, e, open, r);
      if next > 0 {
        ScanCloses(src, i + 1, b, e, next, r);
      }
    }
  }

  /** The brackets are closed at once, or from the next character on. */
  lemma CloseStep(src: seq<Char>, i: nat, b: Char, e: Char, open: nat, r: nat)
    requires i < |src| && open > 0
    ensures
      var next := if src[i] == e then open - 1 else if src[i] == b then open + 1 else open;
      ClosedAt(src, b, e, i, open, r) <==> if next == 0 then r == i + 1 else ClosedAt(src, b, e, i + 1, next, r)
  {
    hide Depth;
    var next := if src[i] == e then open - 1 else if src[i] == b then open + 1 else open;
    NoDepth(src, b, e, i, open);
    NoDepth(src, b, e, i + 1, next);
    forall k | i < k <= |src| ensures Depth(src, b, e, i, k, open) == Depth(src, b, e, i + 1, k, next) {
      SameDepth(src, b, e, i, k, open);
    }
    if ClosedAt(src, b, e, i, open, r) && next > 0 {
      assert Depth(src, b, e, i, i + 1, open) == next;
      var j := i + 1;
      forall k | j <= k < r ensures Depth(src, b, e, j, k, next) > 0 {
        assert Depth(src, b, e, i, k, open) > 0;
      }
    }
    assert next == 0 && ClosedAt(src, b, e, i, open, r) ==> Depth(src, b, e, i, i + 1, open) == 0;
  }

  lemma SameDepth(src: seq<Char>, b: Char, e: Char, i: nat, k: nat, open: nat)
    requires i < k <= |src| && open > 0
    ensures
      var next := if src[i] == e then open - 1 else if src[i] == b then open + 1 else open;
      Depth(src, b, e, i, k, open) == Depth(src, b, e, i + 1, k, next)
  {
    assert src[i..k] == [src[i]] + src[i + 1..k];
  }

  lemma NoDepth(src: seq<Char>, b: Char, e: Char, i: nat, open: nat)
    requires i <= |src|
    ensures Depth(src, b, e, i, i, open) == open
  {
    assert src[i..i] == [];
  }

  lemma {:induction false} LastIsInnermost(caps: Captures, l: nat)
    ensures LastOpen(caps) == Some(l) <==> Innermost(caps, l)
    decreases |caps|
  {
    if caps != [] {
      LastIsInnermost(caps[..|caps| - 1], l);
    }
  }

  lemma PairTakes(src: seq<Char>, pat: seq<Char>, b: Char, e: Char, s: nat, caps: Captures, f: Found)
    requires s <= |src|
    ensures Simple(src, pat, Balance(b, e), s, caps) == Some(f) <==> Takes(src, Pair(b, e), 1, s, caps, f)
  {
    hide ClosedAt, Scan;
    ScanCloses(src, s + 1, b, e, 1, f.end);
    NoScan(src, s + 1, b, e);
  }

  lemma ClosingTakes(src: seq<Char>, pat: seq<Char>, s: nat, caps: Captures, f: Found)
    requires s <= |src| && LastOpen(caps).Some? && caps[LastOpen(caps).value].init <= s
    ensures Simple(src, pat, End, s, caps) == Some(f) <==> Takes(src, Closing, 1, s, caps, f)
  {
    hide Innermost, LastOpen;
    var l := LastOpen(caps).value;
    LastIsInnermost(caps, l);
    forall k: nat | Innermost(caps, k) ensures k == l {
      LastIsInnermost(caps, k);
    }
    var g := Found(s, caps[l := Capture(caps[l].init, Closed(s - caps[l].init))]);
    assert Simple(src, pat, End, s, caps) == Some(g) && Closes(caps, l, s, g);
  }

  /** An item that is no class does what its part says. */
  lemma SimpleTakes(src: seq<Char>, pat: seq<Char>, it: Item, part: Part, s: nat, caps: Captures, f: Found)
    requires Means(pat, it, part) && !it.Single? && s <= |src| && (it.Frontier? ==> it.p < it.ep)
    requires it.Back? ==> CaptureOk(caps, it.digit)
    requires it == End ==> LastOpen(caps).Some? && caps[LastOpen(caps).value].init <= s
    ensures Simple(src, pat, it, s, caps) == Some(f) <==> Takes(src, part, 1, s, caps, f)
  {
    match part
    case Pair(b, e) =>
      hide Simple, Takes;
      PairTakes(src, pat, b, e, s, caps, f);
    case Closing =>
      hide Simple, Takes;
      ClosingTakes(src, pat, s, caps, f);
    case _ =>
      hide SetHas, InBracket;
  }

  lemma NoScan(src: seq<Char>, i: nat, b: Char, e: Char)
    ensures i >= |src| ==> Scan(src, i, b, e, 1).None?
  {
  }

  /** A class is taken as often as its part says. */
  lemma RunTakes(src: seq<Char>, pat: seq<Char>, it: Item, part: Part, n: nat, s: nat, caps: Captures)
    requires Means(pat, it, part) && it.Single? && it.p < it.ep && s <= |src|
    ensures
      !(n < Least(it.suffix) || (Bounded(it.suffix) && n > 1) || !Run(src, pat, it, s, n)) <==>
      Takes(src, part, n, s, caps, Found(s + n, caps))
  {
    hide SetHas, SingleMatch;
    if Run(src, pat, it, s, n) {
      LongestRun(src, pat, it, s, n);
    }
  }

  // ---------- the theorem ----------

  /** The items are those of the parts. */
  ghost predicate Stand(pat: seq<Char>, items: seq<Item>, parts: seq<Part>, end: bool) {
    && |items| == |parts| + (if end then 1 else 0) && (end ==> items[|parts|] == AtEnd)
    && forall i :: 0 <= i < |parts| ==> Means(pat, items[i], parts[i])
  }

  lemma StandRest(pat: seq<Char>, items: seq<Item>, parts: seq<Part>, end: bool)
    requires Stand(pat, items, parts, end) && parts != []
    ensures items != [] && Means(pat, items[0], parts[0]) && Stand(pat, items[1..], parts[1..], end)
  {
    hide Means;
    forall i | 0 <= i < |parts| - 1 ensures Means(pat, items[1..][i], parts[1..][i]) {
      assert items[1..][i] == items[i + 1] && parts[1..][i] == parts[i + 1];
    }
  }

  lemma SomeItems(pat: seq<Char>, items: seq<Item>, parts: seq<Part>, end: bool)
    requires Stand(pat, items, parts, end) && parts != []
    ensures items != []
  {
  }

  /** Where only `g` can come out of the first part, the way leads on from there. */
  lemma LeadsBy(src: seq<Char>, parts: seq<Part>, end: bool, way: seq<nat>, s: nat, caps: Captures, f: Found, g: Found)
    requires parts != [] && way != []
    requires forall h :: Takes(src, parts[0], way[0], s, caps, h) ==> h == g
    ensures
      Leads(src, parts, end, way, s, caps, f) <==>
      Takes(src, parts[0], way[0], s, caps, g) && Leads(src, parts[1..], end, way[1..], g.end, g.caps, f)
  {
    hide Takes;
  }

  lemma EndLeads(src: seq<Char>, pat: seq<Char>, items: seq<Item>, end: bool, way: seq<nat>, s: nat, caps: Captures,
                 f: Found)
    requires Ready(src, items, s, caps) && Stand(pat, items, [], end)
    ensures Outcome(src, pat, items, way, s, caps) == Some(f) <==> Leads(src, [], end, way, s, caps, f)
  {
    if end {
      assert items == [AtEnd] && items[1..] == [];
      SimpleReady(src, pat, items, s, caps);
      if way != [] {
        assert way == [way[0]] + way[1..];
      }
    }
  }

  /** No class is taken more often than it can be, and no other item more than once. */
  lemma TakenOnce(src: seq<Char>, part: Part, n: nat, s: nat, caps: Captures, h: Found)
    requires Takes(src, part, n, s, caps, h)
    ensures if part.Repeat? then h == Found(s + n, caps) && s + n <= |src| else n == 1
  {
    hide SetHas, Closes, ClosedAt;
  }

  /** A way of taking the items is a way of taking the parts, with the same result. */
  lemma {:induction false} OutcomeLeads(src: seq<Char>, pat: seq<Char>, items: seq<Item>, parts: seq<Part>, end: bool,
                                        way: seq<nat>, s: nat, caps: Captures, f: Found)
    requires Ready(src, items, s, caps) && Stand(pat, items, parts, end)
    ensures Outcome(src, pat, items, way, s, caps) == Some(f) <==> Leads(src, parts, end, way, s, caps, f)
    decreases |parts|
  {
    hide Ready, Stand, Means, Takes, Simple, Run;
    if parts == [] {
      EndLeads(src, pat, items, end, way, s, caps, f);
    } else if way == [] {
      SomeItems(pat, items, parts, end);
    } else {
      StandRest(pat, items, parts, end);
      var n := way[0];
      SameKind(pat, items[0], parts[0]);
      ReadyBound(src, items, s, caps);
      forall h | Takes(src, parts[0], n, s, caps, h)
        ensures if parts[0].Repeat? then h == Found(s + n, caps) && s + n <= |src| else n == 1
      {
        TakenOnce(src, parts[0], n, s, caps, h);
      }
      if items[0].Single? {
        LeadsBy(src, parts, end, way, s, caps, f, Found(s + n, caps));
        SingleReady(src, items, s, caps, 0);
        RunTakes(src, pat, items[0], parts[0], n, s, caps);
        if Takes(src, parts[0], n, s, caps, Found(s + n, caps)) {
          SingleReady(src, items, s, caps, n);
          OutcomeLeads(src, pat, items[1..], parts[1..], end, way[1..], s + n, caps, f);
        }
      } else if n == 1 {
        SimpleReady(src, pat, items, s, caps);
        forall h ensures Simple(src, pat, items[0], s, caps) == Some(h) <==> Takes(src, parts[0], 1, s, caps, h) {
          SimpleTakes(src, pat, items[0], parts[0], s, caps, h);
        }
        match Simple(src, pat, items[0], s, caps)
        case None =>
        case Some(g) =>
          LeadsBy(src, parts, end, way, s, caps, f, g);
          OutcomeLeads(src, pat, items[1..], parts[1..], end, way[1..], g.end, g.caps, f);
      }
    }
  }

  lemma SameKind(pat: seq<Char>, it: Item, part: Part)
    requires Means(pat, it, part)
    ensures it.Single? <==> part.Repeat?
  {
  }

  lemma ReadyBound(src: seq<Char>, items: seq<Item>, s: nat, caps: Captures)
    requires Ready(src, items, s, caps)
    ensures s <= |src|
  {
  }

  // ---------- the order of preference ----------

  /** The way `a` is preferred to the way `b`: more of the first part where they differ, or
      fewer if its suffix is `-`. */
  ghost predicate Prefers(parts: seq<Part>, a: seq<nat>, b: seq<nat>)
    decreases |parts|
  {
    parts != [] && a != [] && b != [] &&
    if a[0] == b[0] then Prefers(parts[1..], a[1..], b[1..])
    else if parts[0].Repeat? && parts[0].suffix == Minus then a[0] < b[0]
    else a[0] > b[0]
  }

  /** One number for each part, and a one for the end. */
  predicate Formed(parts: seq<Part>, end: bool, way: seq<nat>) {
    |way| == |parts| + (if end then 1 else 0) && (end ==> way[|parts|] == 1)
  }

  lemma {:induction false} LeadsFormed(src: seq<Char>, parts: seq<Part>, end: bool, way: seq<nat>, s: nat,
                                       caps: Captures, f: Found)
    requires Leads(src, parts, end, way, s, caps, f)
    ensures Formed(parts, end, way)
    decreases |parts|
  {
    hide Takes;
    if parts != [] {
      var g :| Takes(src, parts[0], way[0], s, caps, g) && Leads(src, parts[1..], end, way[1..], g.end, g.caps, f);
      LeadsFormed(src, parts[1..], end, way[1..], g.end, g.caps, f);
    }
  }

  lemma {:induction false} SamePreference(pat: seq<Char>, items: seq<Item>, parts: seq<Part>, end: bool, a: seq<nat>,
                                          b: seq<nat>)
    requires Stand(pat, items, parts, end) && Formed(parts, end, a) && Formed(parts, end, b)
    ensures Preferred(items, a, b) <==> Prefers(parts, a, b)
    decreases |parts|
  {
    hide Means, Stand;
    if parts != [] {
      StandRest(pat, items, parts, end);
      SameSuffix(pat, items[0], parts[0]);
      SamePreference(pat, items[1..], parts[1..], end, a[1..], b[1..]);
    } else {
      ItemsEnd(pat, items, end);
      assert items[|items|..] == [];
    }
  }

  lemma ItemsEnd(pat: seq<Char>, items: seq<Item>, end: bool)
    requires Stand(pat, items, [], end)
    ensures |items| == if end then 1 else 0
  {
  }

  lemma SameSuffix(pat: seq<Char>, it: Item, part: Part)
    requires Means(pat, it, part)
    ensures (it.Single? && it.suffix == Minus) <==> (part.Repeat? && part.suffix == Minus)
  {
  }

  // ---------- written patterns ----------

  /** `way` leads to `f`, and every other way that leads anywhere is less preferred. */
  ghost predicate LeadsBest(src: seq<Char>, parts: seq<Part>, end: bool, way: seq<nat>, s: nat, f: Found) {
    && Leads(src, parts, end, way, s, [], f)
    && forall other, g :: Leads(src, parts, end, other, s, [], g) ==> other == way || Prefers(parts, way, other)
  }

  lemma WholeText(pat: seq<Char>)
    ensures TextAt(pat, 0, pat)
  {
  }

  /** What the search says of a place in terms of the written pattern. */
  lemma WrittenSearch(src: seq<Char>, parts: seq<Part>, end: bool, s: nat)
    requires PartsOk(parts) && Regular(PartsText(parts, end)) && s <= |src|
    ensures
      var pat := PartsText(parts, end);
      && (Nowhere(src, pat, s) <==> forall way, f :: !Leads(src, parts, end, way, s, [], f))
      && forall f :: MatchesAt(src, pat, s, f) <==> exists way :: LeadsBest(src, parts, end, way, s, f)
  {
    hide Ready, Leads, Outcome, Means, Regular, Preferred, Prefers, Stand, Formed;
    var pat := PartsText(parts, end);
    RegularFine(src, pat, s);
    WholeText(pat);
    PartsRead(pat, 0, parts, end);
    var items := Items(pat, 0).value;
    WholeStand(pat, items, parts, end);
    forall way, f
      ensures Outcome(src, pat, items, way, s, []) == Some(f) <==> Leads(src, parts, end, way, s, [], f)
    {
      OutcomeLeads(src, pat, items, parts, end, way, s, [], f);
    }
    NoWayWritten(src, pat, items, parts, end, s);
    forall f ensures MatchesAt(src, pat, s, f) <==> exists way :: LeadsBest(src, parts, end, way, s, f) {
      forall way ensures Best(src, pat, items, s, [], way, f) <==> LeadsBest(src, parts, end, way, s, f) {
        BestWritten(src, pat, items, parts, end, way, s, f);
      }
      assert MatchesAt(src, pat, s, f) <==> exists way :: Best(src, pat, items, s, [], way, f);
    }
  }

  lemma WholeStand(pat: seq<Char>, items: seq<Item>, parts: seq<Part>, end: bool)
    requires |items| == |parts| + (if end then 1 else 0) && (end ==> items[|parts|] == AtEnd)
    requires forall i :: 0 <= i < |parts| ==> Means(pat, items[i], parts[i])
    ensures Stand(pat, items, parts, end)
  {
  }

  lemma NoWayWritten(src: seq<Char>, pat: seq<Char>, items: seq<Item>, parts: seq<Part>, end: bool, s: nat)
    requires Ready(src, items, s, [])
    requires forall way, f ::
      Outcome(src, pat, items, way, s, []) == Some(f) <==> Leads(src, parts, end, way, s, [], f)
    ensures NoWay(src, pat, items, s, []) <==> forall way, f :: !Leads(src, parts, end, way, s, [], f)
  {
    hide Ready, Leads, Outcome;
    if NoWay(src, pat, items, s, []) {
      forall way, f ensures !Leads(src, parts, end, way, s, [], f) {
        assert Outcome(src, pat, items, way, s, []) != Some(f);
      }
    } else {
      var way :| Outcome(src, pat, items, way, s, []).Some?;
      var f := Outcome(src, pat, items, way, s, []).value;
      assert Leads(src, parts, end, way, s, [], f);
    }
  }

  lemma BestWritten(src: seq<Char>, pat: seq<Char>, items: seq<Item>, parts: seq<Part>, end: bool, way: seq<nat>,
                    s: nat, f: Found)
    requires Ready(src, items, s, []) && Stand(pat, items, parts, end)
    requires forall way, f ::
      Outcome(src, pat, items, way, s, []) == Some(f) <==> Leads(src, parts, end, way, s, [], f)
    ensures Best(src, pat, items, s, [], way, f) <==> LeadsBest(src, parts, end, way, s, f)
  {
    hide Ready, Leads, Outcome, Stand, Preferred, Prefers, Formed;
    forall a, b, g, h | Leads(src, parts, end, a, s, [], g) && Leads(src, parts, end, b, s, [], h)
      ensures Preferred(items, a, b) <==> Prefers(parts, a, b)
    {
      LeadsFormed(src, parts, end, a, s, [], g);
      LeadsFormed(src, parts, end, b, s, [], h);
      SamePreference(pat, items, parts, end, a, b);
    }
  }
}
