/** What a pattern matches: every item is taken some number of times, and the first way in
    the order of preference is the result. */
module PatternSearch {
  import opened Options
  import opened PatternItems

  const MAXCAPTURES: nat := 32

  datatype Length = Unfinished | PositionOnly | Closed(n: nat)

  datatype Capture = Capture(init: nat, len: Length)

  type Captures = seq<Capture>

  /** The end of a match and its captures. */
  datatype Found = Found(end: nat, caps: Captures)

  // ---------- single items ----------

  /** The index of the last capture that is still open. */
  function LastOpen(caps: Captures): (l: Option<nat>)
    ensures l.Some? ==> l.value < |caps| && caps[l.value].len == Unfinished
    ensures l.None? ==> forall i :: 0 <= i < |caps| ==> caps[i].len != Unfinished
  {
    if caps == [] then None
    else if caps[|caps| - 1].len == Unfinished then Some(|caps| - 1)
    else LastOpen(caps[..|caps| - 1])
  }

  /** The end of a balanced string: reading from `i` with `cont` open. */
  function Scan(src: seq<Char>, i: nat, b: Char, e: Char, cont: nat): (r: Option<nat>)
    requires cont > 0
    ensures r.Some? ==> i < r.value <= |src|
    decreases |src| - i
  {
    if i >= |src| then None
    else if src[i] == e then (if cont == 1 then Some(i + 1) else Scan(src, i + 1, b, e, cont - 1))
    else Scan(src, i + 1, b, e, if src[i] == b then cont + 1 else cont)
  }

  predicate AtFrontier(src: seq<Char>, pat: seq<Char>, s: nat, p: nat, ep: nat)
    requires p < ep
  {
    !InBracket(pat, if s == 0 then 0 else At(src, s - 1), p, ep - 1) && InBracket(pat, At(src, s), p, ep - 1)
  }

  /** The index of the capture that a digit names. */
  predicate CaptureOk(caps: Captures, digit: Char) {
    49 <= digit && digit - 49 < |caps| && caps[digit - 49].len != Unfinished
  }

  /** The text of a capture occurs at `s`; a position never does. */
  function BackEnd(src: seq<Char>, s: nat, cap: Capture): (r: Option<nat>)
    ensures r.Some? ==> cap.len.Closed? && r.value == s + cap.len.n && s + cap.len.n <= |src|
  {
    if cap.len.Closed? && cap.init + cap.len.n <= |src| && s + cap.len.n <= |src|
      && src[cap.init..cap.init + cap.len.n] == src[s..s + cap.len.n]
    then Some(s + cap.len.n) else None
  }

  /** The items that are matched in one way only. */
  function Simple(src: seq<Char>, pat: seq<Char>, it: Item, s: nat, caps: Captures): (r: Option<Found>)
    requires !it.Single? && s <= |src| && (it.Frontier? ==> it.p < it.ep)
    requires it.Back? ==> CaptureOk(caps, it.digit)
    requires it == End ==> LastOpen(caps).Some? && caps[LastOpen(caps).value].init <= s
    ensures r.Some? ==> s <= r.value.end <= |src|
  {
    match it
    case Start => Some(Found(s, caps + [Capture(s, Unfinished)]))
    case Position => Some(Found(s, caps + [Capture(s, PositionOnly)]))
    case End =>
      var l := LastOpen(caps).value;
      Some(Found(s, caps[l := caps[l].(len := Closed(s - caps[l].init))]))
    case AtEnd => if s == |src| then Some(Found(s, caps)) else None
    case Balance(b, e) =>
      if At(src, s) != b then None
      else var end := Scan(src, s + 1, b, e, 1); if end.Some? then Some(Found(end.value, caps)) else None
    case Frontier(p, ep) => if AtFrontier(src, pat, s, p, ep) then Some(Found(s, caps)) else None
    case Back(d) => var end := BackEnd(src, s, caps[d - 49]); if end.Some? then Some(Found(end.value, caps)) else None
  }

  // ---------- repetitions ----------

  function Least(x: Suffix): nat {
    if x == Once || x == Plus then 1 else 0
  }

  predicate Bounded(x: Suffix) {
    x == Once || x == Optional
  }

  /** `n` characters from `s` on are in the class of the item. */
  ghost predicate Run(src: seq<Char>, pat: seq<Char>, it: Item, s: nat, n: nat)
    requires it.Single? && it.p < it.ep
  {
    forall i :: s <= i < s + n ==> SingleMatch(src, pat, i, it.p, it.ep)
  }

  /** How many characters from `s` on are in the class. */
  function Longest(src: seq<Char>, pat: seq<Char>, it: Item, s: nat): (n: nat)
    requires it.Single? && it.p < it.ep && s <= |src|
    ensures s + n <= |src|
    decreases |src| - s
  {
    if SingleMatch(src, pat, s, it.p, it.ep) then 1 + Longest(src, pat, it, s + 1) else 0
  }

  lemma {:induction false} LongestRun(src: seq<Char>, pat: seq<Char>, it: Item, s: nat, n: nat)
    requires it.Single? && it.p < it.ep && s <= |src|
    ensures Run(src, pat, it, s, n) <==> n <= Longest(src, pat, it, s)
    decreases |src| - s
  {
    if SingleMatch(src, pat, s, it.p, it.ep) && n > 0 {
      LongestRun(src, pat, it, s + 1, n - 1);
    }
  }

  function Most(src: seq<Char>, pat: seq<Char>, it: Item, s: nat): (n: nat)
    requires it.Single? && it.p < it.ep && s <= |src|
    ensures s + n <= |src|
  {
    var n := Longest(src, pat, it, s);
    if Bounded(it.suffix) && n > 1 then 1 else n
  }

  // ---------- well-formed items ----------

  /** What is known of the captures without matching: whether they are open. */
  type Status = seq<bool>

  function StatusOf(caps: Captures): (t: Status)
    ensures |t| == |caps|
  {
    seq(|caps|, i requires 0 <= i < |caps| => caps[i].len == Unfinished)
  }

  function LastTrue(t: Status): (l: Option<nat>)
    ensures l.Some? ==> l.value < |t| && t[l.value]
  {
    if t == [] then None else if t[|t| - 1] then Some(|t| - 1) else LastTrue(t[..|t| - 1])
  }

  /** The item raises no error: there is room for a capture, one to close, one to refer to. */
  predicate Legal(it: Item, t: Status) {
    match it
    case Start => |t| < MAXCAPTURES
    case Position => |t| < MAXCAPTURES
    case End => LastTrue(t).Some?
    case Back(d) => 49 <= d && d - 49 < |t| && !t[d - 49]
    case Frontier(p, ep) => p < ep
    case Single(p, ep, _) => p < ep
    case _ => true
  }

  function StatusAfter(it: Item, t: Status): Status
    requires Legal(it, t)
  {
    match it
    case Start => t + [true]
    case Position => t + [false]
    case End => t[LastTrue(t).value := false]
    case _ => t
  }

  predicate AllLegal(items: seq<Item>, t: Status)
    decreases |items|
  {
    items == [] || (Legal(items[0], t) && AllLegal(items[1..], StatusAfter(items[0], t)))
  }

  /** Every open capture began before `s`. */
  ghost predicate Begun(caps: Captures, s: nat) {
    forall i :: 0 <= i < |caps| ==> caps[i].init <= s
  }

  /** The items can be matched at `s` without an error. */
  ghost predicate Ready(src: seq<Char>, items: seq<Item>, s: nat, caps: Captures) {
    s <= |src| && AllLegal(items, StatusOf(caps)) && Begun(caps, s)
  }

  lemma {:induction false} LastSame(caps: Captures)
    ensures LastOpen(caps) == LastTrue(StatusOf(caps))
    decreases |caps|
  {
    if caps != [] {
      var k := |caps| - 1;
      LastSame(caps[..k]);
      assert StatusOf(caps)[..k] == StatusOf(caps[..k]);
    }
  }

  /** A legal item can be matched, and what comes after it is legal too. */
  lemma SimpleReady(src: seq<Char>, pat: seq<Char>, items: seq<Item>, s: nat, caps: Captures)
    requires items != [] && !items[0].Single? && Ready(src, items, s, caps)
    ensures
      var it := items[0];
      && (it.Frontier? ==> it.p < it.ep) && (it.Back? ==> CaptureOk(caps, it.digit))
      && (it == End ==> LastOpen(caps).Some? && caps[LastOpen(caps).value].init <= s)
      && var r := Simple(src, pat, it, s, caps); r.Some? ==> Ready(src, items[1..], r.value.end, r.value.caps)
  {
    LastSame(caps);
    var it := items[0];
    var r := Simple(src, pat, it, s, caps);
    if r.Some? {
      assert StatusOf(r.value.caps) == StatusAfter(it, StatusOf(caps));
    }
  }

  lemma SingleReady(src: seq<Char>, items: seq<Item>, s: nat, caps: Captures, n: nat)
    requires items != [] && items[0].Single? && Ready(src, items, s, caps) && s + n <= |src|
    ensures items[0].p < items[0].ep && Ready(src, items[1..], s + n, caps)
  {
  }

  // ---------- the first match ----------

  /** The result of the backtracking search. */
  function First(src: seq<Char>, pat: seq<Char>, items: seq<Item>, s: nat, caps: Captures): (r: Option<Found>)
    requires Ready(src, items, s, caps)
    decreases |items|, 0, 0
  {
    if items == [] then Some(Found(s, caps))
    else if items[0].Single? then
      SingleReady(src, items, s, caps, 0);
      var n := Most(src, pat, items[0], s);
      if items[0].suffix == Minus then Shortest(src, pat, items, s, caps, 0, n) else Greedy(src, pat, items, s, caps, n)
    else
      SimpleReady(src, pat, items, s, caps);
      match Simple(src, pat, items[0], s, caps)
      case None => None
      case Some(f) => First(src, pat, items[1..], f.end, f.caps)
  }

  /** Tries `n` repetitions of the first item, and then fewer. */
  function Greedy(src: seq<Char>, pat: seq<Char>, items: seq<Item>, s: nat, caps: Captures, n: int): (r: Option<Found>)
    requires items != [] && items[0].Single? && Ready(src, items, s, caps) && s + n <= |src|
    decreases |items| - 1, 1, n + 1
  {
    if n < Least(items[0].suffix) then None
    else
      SingleReady(src, items, s, caps, n);
      match First(src, pat, items[1..], s + n, caps)
      case Some(f) => Some(f)
      case None => Greedy(src, pat, items, s, caps, n - 1)
  }

  /** Tries `n` repetitions of the first item, and then more, up to `max`. */
  function Shortest(src: seq<Char>, pat: seq<Char>, items: seq<Item>, s: nat, caps: Captures, n: nat,
                    max: nat): (r: Option<Found>)
    requires items != [] && items[0].Single? && Ready(src, items, s, caps) && s + max <= |src| && n <= max + 1
    decreases |items| - 1, 1, max + 1 - n
  {
    if n > max then None
    else
      SingleReady(src, items, s, caps, n);
      match First(src, pat, items[1..], s + n, caps)
      case Some(f) => Some(f)
      case None => Shortest(src, pat, items, s, caps, n + 1, max)
  }

  lemma FirstSingle(src: seq<Char>, pat: seq<Char>, items: seq<Item>, s: nat, caps: Captures)
    requires items != [] && items[0].Single? && Ready(src, items, s, caps)
    ensures s <= |src| && items[0].p < items[0].ep && s + Most(src, pat, items[0], s) <= |src|
    ensures
      var n := Most(src, pat, items[0], s);
      First(src, pat, items, s, caps) ==
        if items[0].suffix == Minus then Shortest(src, pat, items, s, caps, 0, n)
        else Greedy(src, pat, items, s, caps, n)
  {
    SingleReady(src, items, s, caps, 0);
  }

  // ---------- the declarative meaning ----------

  /** What comes out when each item is taken as often as the way says: an item with a class
      as many times as its suffix allows, any other item once. */
  ghost function Outcome(src: seq<Char>, pat: seq<Char>, items: seq<Item>, way: seq<nat>, s: nat,
                         caps: Captures): Option<Found>
    requires Ready(src, items, s, caps)
    decreases |items|
  {
    if items == [] then (if way == [] then Some(Found(s, caps)) else None)
    else if way == [] then None
    else if items[0].Single? then
      SingleReady(src, items, s, caps, 0);
      if way[0] < Least(items[0].suffix) || (Bounded(items[0].suffix) && way[0] > 1)
        || !Run(src, pat, items[0], s, way[0]) then None
      else
        LongestRun(src, pat, items[0], s, way[0]);
        SingleReady(src, items, s, caps, way[0]);
        Outcome(src, pat, items[1..], way[1..], s + way[0], caps)
    else if way[0] != 1 then None
    else
      SimpleReady(src, pat, items, s, caps);
      match Simple(src, pat, items[0], s, caps)
      case None => None
      case Some(f) => Outcome(src, pat, items[1..], way[1..], f.end, f.caps)
  }

  /** The way `a` is preferred to the way `b`: at the first item where they differ it has
      more repetitions, or fewer where the suffix is `-`. */
  ghost predicate Preferred(items: seq<Item>, a: seq<nat>, b: seq<nat>)
    decreases |items|
  {
    items != [] && a != [] && b != [] &&
    if a[0] == b[0] then Preferred(items[1..], a[1..], b[1..])
    else if items[0].Single? && items[0].suffix == Minus then a[0] < b[0]
    else a[0] > b[0]
  }

  /** `way` gives `f`, and every other way that gives anything is less preferred. */
  ghost predicate Best(src: seq<Char>, pat: seq<Char>, items: seq<Item>, s: nat, caps: Captures, way: seq<nat>,
                       f: Found)
    requires Ready(src, items, s, caps)
  {
    && Outcome(src, pat, items, way, s, caps) == Some(f)
    && forall other :: Outcome(src, pat, items, other, s, caps).Some? ==> other == way || Preferred(items, way, other)
  }

  ghost predicate NoWay(src: seq<Char>, pat: seq<Char>, items: seq<Item>, s: nat, caps: Captures)
    requires Ready(src, items, s, caps)
  {
    forall way :: Outcome(src, pat, items, way, s, caps).None?
  }

  /** What the search says about one number of repetitions of the first item. */
  ghost predicate FailsWith(src: seq<Char>, pat: seq<Char>, items: seq<Item>, s: nat, caps: Captures, n: nat)
    requires items != [] && items[0].Single? && Ready(src, items, s, caps)
  {
    s + n <= |src| && (SingleReady(src, items, s, caps, n); First(src, pat, items[1..], s + n, caps).None?)
  }

  lemma {:induction false} GreedyFirst(src: seq<Char>, pat: seq<Char>, items: seq<Item>, s: nat, caps: Captures, n: int)
    returns (k: nat)
    requires items != [] && items[0].Single? && Ready(src, items, s, caps) && s + n <= |src|
    ensures
      var r := Greedy(src, pat, items, s, caps, n);
      if r.None? then forall j: nat :: Least(items[0].suffix) <= j <= n ==> FailsWith(src, pat, items, s, caps, j)
      else
        && Least(items[0].suffix) <= k <= n && s + k <= |src| && Ready(src, items[1..], s + k, caps)
        && First(src, pat, items[1..], s + k, caps) == r
        && forall j: nat :: k < j <= n ==> FailsWith(src, pat, items, s, caps, j)
    decreases n + 1
  {
    k := 0;
    if n >= Least(items[0].suffix) {
      SingleReady(src, items, s, caps, n);
      if First(src, pat, items[1..], s + n, caps).Some? {
        k := n;
      } else {
        assert FailsWith(src, pat, items, s, caps, n);
        k := GreedyFirst(src, pat, items, s, caps, n - 1);
      }
    }
  }

  lemma {:induction false} ShortestFirst(src: seq<Char>, pat: seq<Char>, items: seq<Item>, s: nat, caps: Captures,
                                         n: nat, max: nat) returns (k: nat)
    requires items != [] && items[0].Single? && Ready(src, items, s, caps) && s + max <= |src| && n <= max + 1
    ensures
      var r := Shortest(src, pat, items, s, caps, n, max);
      if r.None? then forall j: nat :: n <= j <= max ==> FailsWith(src, pat, items, s, caps, j)
      else
        && n <= k <= max && Ready(src, items[1..], s + k, caps)
        && First(src, pat, items[1..], s + k, caps) == r
        && forall j: nat :: n <= j < k ==> FailsWith(src, pat, items, s, caps, j)
    decreases max + 1 - n
  {
    k := n;
    if n <= max {
      SingleReady(src, items, s, caps, n);
      if First(src, pat, items[1..], s + n, caps).None? {
        assert FailsWith(src, pat, items, s, caps, n);
        k := ShortestFirst(src, pat, items, s, caps, n + 1, max);
      }
    }
  }

  /** The search finds something exactly when there is a way, and then it finds what the
      most preferred way gives. */
  lemma {:induction false} FirstIsBest(src: seq<Char>, pat: seq<Char>, items: seq<Item>, s: nat, caps: Captures)
    returns (way: seq<nat>)
    requires Ready(src, items, s, caps)
    ensures
      var r := First(src, pat, items, s, caps);
      if r.None? then NoWay(src, pat, items, s, caps) else Best(src, pat, items, s, caps, way, r.value)
    decreases |items|, 2
  {
    if items == [] {
      way := [];
    } else if items[0].Single? {
      way := SingleIsBest(src, pat, items, s, caps);
    } else {
      SimpleReady(src, pat, items, s, caps);
      var f := Simple(src, pat, items[0], s, caps);
      if f.Some? {
        var way' := FirstIsBest(src, pat, items[1..], f.value.end, f.value.caps);
        way := [1] + way';
        assert way[1..] == way';
        forall other | Outcome(src, pat, items, other, s, caps).Some? && way != other
          ensures Preferred(items, way, other)
        {
          assert other == [1] + other[1..] && other[1..] != way';
          assert Outcome(src, pat, items[1..], other[1..], f.value.end, f.value.caps).Some?;
          assert Preferred(items[1..], way', other[1..]);
        }
      } else {
        way := [];
      }
    }
  }

  lemma {:induction false} SingleIsBest(src: seq<Char>, pat: seq<Char>, items: seq<Item>, s: nat, caps: Captures)
    returns (way: seq<nat>)
    requires Ready(src, items, s, caps) && items != [] && items[0].Single?
    ensures
      var r := First(src, pat, items, s, caps);
      if r.None? then NoWay(src, pat, items, s, caps) else Best(src, pat, items, s, caps, way, r.value)
    decreases |items|, 1
  {
    hide First, Greedy, Shortest, Most, Outcome, FailsWith, Preferred, Ready;
    FirstSingle(src, pat, items, s, caps);
    var max := Most(src, pat, items[0], s);
    var k: nat;
    if items[0].suffix == Minus {
      k := ShortestFirst(src, pat, items, s, caps, 0, max);
    } else {
      k := GreedyFirst(src, pat, items, s, caps, max);
    }
    var r := First(src, pat, items, s, caps);
    way := [];
    if r.Some? {
      var way' := FirstIsBest(src, pat, items[1..], s + k, caps);
      way := [k] + way';
      SingleOutcome(src, pat, items, s, caps, k, way');
    }
    forall other | Outcome(src, pat, items, other, s, caps).Some?
      ensures r.Some? && (other == way || Preferred(items, way, other))
    {
      var n := OtherWay(src, pat, items, s, caps, other);
      if r.Some? {
        assert way == [k] + way[1..];
        PreferredStep(items, k, way[1..], n, other[1..]);
      }
    }
  }

  lemma SingleOutcome(src: seq<Char>, pat: seq<Char>, items: seq<Item>, s: nat, caps: Captures, k: nat, way: seq<nat>)
    requires items != [] && items[0].Single? && Ready(src, items, s, caps) && items[0].p < items[0].ep
    requires Least(items[0].suffix) <= k <= Most(src, pat, items[0], s)
    ensures s + k <= |src| && Ready(src, items[1..], s + k, caps)
    ensures Outcome(src, pat, items, [k] + way, s, caps) == Outcome(src, pat, items[1..], way, s + k, caps)
  {
    LongestRun(src, pat, items[0], s, k);
    SingleReady(src, items, s, caps, k);
    assert ([k] + way)[1..] == way;
  }

  lemma PreferredStep(items: seq<Item>, k: nat, a: seq<nat>, n: nat, b: seq<nat>)
    requires items != [] && items[0].Single?
    requires if items[0].suffix == Minus then k <= n else k >= n
    requires k == n ==> a == b || Preferred(items[1..], a, b)
    ensures [k] + a == [n] + b || Preferred(items, [k] + a, [n] + b)
  {
    assert ([k] + a)[1..] == a && ([n] + b)[1..] == b;
  }

  /** Another way takes the first item a number of times with which the search succeeds. */
  lemma OtherWay(src: seq<Char>, pat: seq<Char>, items: seq<Item>, s: nat, caps: Captures, other: seq<nat>)
    returns (n: nat)
    requires Ready(src, items, s, caps) && items != [] && items[0].Single?
      && Outcome(src, pat, items, other, s, caps).Some?
    ensures items[0].p < items[0].ep && other == [n] + other[1..]
      && Least(items[0].suffix) <= n <= Most(src, pat, items[0], s)
    ensures Ready(src, items[1..], s + n, caps) && Outcome(src, pat, items[1..], other[1..], s + n, caps).Some?
    ensures !FailsWith(src, pat, items, s, caps, n)
    decreases |items|, 0
  {
    n := other[0];
    SingleReady(src, items, s, caps, 0);
    LongestRun(src, pat, items[0], s, n);
    SingleReady(src, items, s, caps, n);
    var w := FirstIsBest(src, pat, items[1..], s + n, caps);
    assert other == [n] + other[1..];
  }
}
