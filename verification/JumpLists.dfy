/** Lists of pending jumps. The list lives in the jump instructions: the offset of
    each one points to the next, and an offset of NO_JUMP ends the list. */
module JumpLists {
  import opened LuaVM

  function NextJump(p: int, sbx: int): int {
    if sbx == NO_JUMP then NO_JUMP else p + 1 + sbx
  }

  ghost predicate Chain(code: seq<Instr>, h: int, s: seq<int>)
    decreases |s|
  {
    if s == [] then h == NO_JUMP
    else
      && h == s[0] && 0 <= h < |code|
      && code[h].JMP? && Chain(code, NextJump(h, code[h].sbx), s[1..])
  }

  ghost predicate IsList(code: seq<Instr>, h: int) {
    exists s :: Chain(code, h, s)
  }

  ghost function Order(code: seq<Instr>, h: int): seq<int>
    requires IsList(code, h)
  {
    var s :| Chain(code, h, s); s
  }

  /** The jumps on the list headed by `h`. */
  ghost function JS(code: seq<Instr>, h: int): set<int> {
    if IsList(code, h) then set p | p in Order(code, h) else {}
  }

  lemma {:induction false} ChainUnique(code: seq<Instr>, h: int, s: seq<int>, t: seq<int>)
    requires Chain(code, h, s) && Chain(code, h, t)
    ensures s == t
    decreases |s|
  {
    if s != [] && t != [] {
      ChainUnique(code, NextJump(h, code[h].sbx), s[1..], t[1..]);
      assert s == [s[0]] + s[1..] && t == [t[0]] + t[1..];
    }
  }

  lemma ChainIs(code: seq<Instr>, h: int, s: seq<int>)
    requires Chain(code, h, s)
    ensures IsList(code, h) && JS(code, h) == set p | p in s
  {
    ChainUnique(code, h, s, Order(code, h));
  }

  lemma {:induction false} ChainDrop(code: seq<Instr>, h: int, s: seq<int>, k: nat)
    requires Chain(code, h, s) && k < |s|
    ensures Chain(code, s[k], s[k..])
    decreases k
  {
    if k > 0 {
      ChainDrop(code, NextJump(h, code[h].sbx), s[1..], k - 1);
      assert s[1..][k - 1..] == s[k..];
    }
  }

  lemma NoJump(code: seq<Instr>)
    ensures IsList(code, NO_JUMP) && JS(code, NO_JUMP) == {}
  {
    ChainIs(code, NO_JUMP, []);
  }

  lemma EmptyList(code: seq<Instr>, h: int)
    requires IsList(code, h)
    ensures JS(code, h) == {} <==> h == NO_JUMP
  {
    NoJump(code);
    if h != NO_JUMP {
      Head(code, h);
    }
  }

  /** No jump is twice on its list: the list would never end. */
  lemma Head(code: seq<Instr>, h: int)
    requires IsList(code, h) && h != NO_JUMP
    ensures 0 <= h < |code| && code[h].JMP?
    ensures
      var n := NextJump(h, code[h].sbx);
      IsList(code, n) && h !in JS(code, n) && JS(code, h) == {h} + JS(code, n)
  {
    var s := Order(code, h);
    var n := NextJump(h, code[h].sbx);
    ChainIs(code, n, s[1..]);
    if h in JS(code, n) {
      var k :| 0 <= k < |s[1..]| && s[1..][k] == h;
      ChainDrop(code, n, s[1..], k);
      ChainUnique(code, h, s, s[1..][k..]);
    }
    assert s == [h] + s[1..];
  }

  lemma {:induction false} InBounds(code: seq<Instr>, h: int)
    requires IsList(code, h)
    ensures forall p :: p in JS(code, h) ==> 0 <= p < |code| && code[p].JMP?
  {
    forall p | p in JS(code, h) ensures 0 <= p < |code| && code[p].JMP? {
      var s := Order(code, h);
      var k :| 0 <= k < |s| && s[k] == p;
      ChainDrop(code, h, s, k);
    }
  }

  lemma {:induction false} ChainFrame(c1: seq<Instr>, c2: seq<Instr>, h: int, s: seq<int>)
    requires Chain(c1, h, s)
    requires forall p :: p in s ==> Op(c1, p) == Op(c2, p)
    ensures Chain(c2, h, s)
    decreases |s|
  {
    if s != [] {
      assert s == [s[0]] + s[1..];
      assert Op(c1, h) == Op(c2, h);
      ChainFrame(c1, c2, NextJump(h, c1[h].sbx), s[1..]);
    }
  }

  /** A list only depends on its own jumps. */
  lemma ListFrame(c1: seq<Instr>, c2: seq<Instr>, h: int)
    requires IsList(c1, h)
    requires forall p :: p in JS(c1, h) ==> Op(c1, p) == Op(c2, p)
    ensures IsList(c2, h) && JS(c2, h) == JS(c1, h)
  {
    ChainFrame(c1, c2, h, Order(c1, h));
    ChainIs(c2, h, Order(c1, h));
  }

  lemma {:induction false} ChainLast(code: seq<Instr>, h: int, s: seq<int>, p: int)
    requires Chain(code, h, s) && p in s && Op(code, p).JMP? && NextJump(p, Op(code, p).sbx) == NO_JUMP
    ensures s[|s| - 1] == p
    decreases |s|
  {
    if s[0] != p {
      assert s == [s[0]] + s[1..];
      ChainLast(code, NextJump(h, code[h].sbx), s[1..], p);
    } else {
      assert |s[1..]| == 0;
    }
  }

  lemma {:induction false} ChainConcat(code: seq<Instr>, h1: int, s1: seq<int>, h2: int, s2: seq<int>, last: int)
    requires s1 != [] && Chain(code, h1, s1) && Chain(code, h2, s2) && h2 != NO_JUMP
    requires last == s1[|s1| - 1] && last !in s2 && 0 <= last < |code|
    requires forall i :: 0 <= i < |s1| - 1 ==> s1[i] != last
    ensures Chain(code[last := JMP(h2 - (last + 1))], h1, s1 + s2)
    decreases |s1|
  {
    var c2 := code[last := JMP(h2 - (last + 1))];
    assert (s1 + s2)[1..] == s1[1..] + s2;
    if |s1| == 1 {
      ChainFrame(code, c2, h2, s2);
      assert s1[1..] + s2 == s2;
      assert h2 == s2[0];
    } else {
      ChainConcat(code, NextJump(h1, code[h1].sbx), s1[1..], h2, s2, last);
    }
  }

  /** Linking the last jump of one list to the head of another joins the lists. */
  lemma Join(code: seq<Instr>, h1: int, h2: int, last: int, c2: seq<Instr>)
    requires IsList(code, h1) && IsList(code, h2) && JS(code, h1) !! JS(code, h2)
    requires h2 != NO_JUMP && last in JS(code, h1)
    requires 0 <= last < |code| && code[last].JMP? && NextJump(last, code[last].sbx) == NO_JUMP
    requires c2 == code[last := JMP(h2 - (last + 1))]
    ensures IsList(c2, h1) && JS(c2, h1) == JS(code, h1) + JS(code, h2)
  {
    var s1, s2 := Order(code, h1), Order(code, h2);
    ChainLast(code, h1, s1, last);
    var n := |s1| - 1;
    forall i | 0 <= i < n ensures s1[i] != last {
      ChainDrop(code, h1, s1, i);
      ChainDrop(code, h1, s1, n);
      if s1[i] == last {
        ChainUnique(code, last, s1[i..], s1[n..]);
      }
    }
    assert last !in s2 by {
      assert last in JS(code, h1);
    }
    ChainConcat(code, h1, s1, h2, s2, last);
    ChainIs(c2, h1, s1 + s2);
    assert (set p | p in s1 + s2) == (set p | p in s1) + (set p | p in s2);
  }
}
