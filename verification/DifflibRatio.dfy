/** The similarity ratio over the matcher's blocks, and what the number means. */
module DifflibRatio {
  import opened Difflib

  // ---- what find_longest_match finds ------------------------------------------------------

  /** With or without autojunk, no common run of indexed characters is longer than the result. */
  lemma LongestBeatsIndexedRuns(a: seq<char>, b: seq<char>, w: Window, r: Block)
    requires Fits(a, b, w) && Common(a, b, w, r)
    requires forall t :: r.i <= t < r.i + r.size ==> Indexed(b, a[t])
    ensures r.size <= Seed(a, b, w).size <= Longest(a, b, w).size
    ensures r.size > 0 && r.size == Seed(a, b, w).size ==>
              Seed(a, b, w).i < r.i || (Seed(a, b, w).i == r.i && Seed(a, b, w).j <= r.j)
  {
    hide Seed, RunLen, Indexed, ExtendLeft, ExtendRight, Maximal;
    SeedIsFirst(a, b, w);
    var s := Seed(a, b, w);
    LongestGrows(a, b, w);
    if r.size > 0 {
      RunCovers(a, b, w, r.i, r.j, r.size);
      assert RunLen(a, b, w, r.i + r.size - 1, r.j + r.size - 1) <= s.size;
    }
  }

  lemma LongestGrows(a: seq<char>, b: seq<char>, w: Window)
    requires Fits(a, b, w)
    ensures Seed(a, b, w).size <= Longest(a, b, w).size
  {
    hide Seed, RunLen, FirstLongest;
    SeedIsFirst(a, b, w);
    ExtendLeftGrows(a, b, w, Seed(a, b, w));
    ExtendRightGrows(a, b, w, ExtendLeft(a, b, w, Seed(a, b, w)));
  }

  lemma CommonIsIndexed(a: seq<char>, b: seq<char>, w: Window, r: Block)
    requires Fits(a, b, w) && |b| < AUTOJUNK_FLOOR && Common(a, b, w, r)
    ensures forall t :: r.i <= t < r.i + r.size ==> Indexed(b, a[t])
  {
    forall t | r.i <= t < r.i + r.size ensures Indexed(b, a[t]) {
      assert a[t] == a[r.i..r.i + r.size][t - r.i] == b[r.j..r.j + r.size][t - r.i] == b[t - r.i + r.j];
    }
  }

  /** Below 200 characters every character of `b` is indexed: the result is a longest common
      block, leftmost in `a` among the longest and then leftmost in `b`, and the extension loops
      have nothing to add. */
  lemma LongestWithoutAutojunk(a: seq<char>, b: seq<char>, w: Window)
    requires Fits(a, b, w) && |b| < AUTOJUNK_FLOOR
    ensures Longest(a, b, w) == Seed(a, b, w)
    ensures forall r :: Common(a, b, w, r) ==>
              var best := Longest(a, b, w);
              && r.size <= best.size
              && (r.size == best.size ==> best.i < r.i || (best.i == r.i && best.j <= r.j))
  {
    hide Seed, FirstLongest, Indexed, RunLen, BestBefore;
    SeedIsFirst(a, b, w);
    var s := Seed(a, b, w);
    SeedStartsAtCorner(a, b, w);
    forall r | Common(a, b, w, r)
      ensures r.size <= s.size && (r.size == s.size ==> s.i < r.i || (s.i == r.i && s.j <= r.j))
    {
      CommonIsIndexed(a, b, w, r);
      LongestBeatsIndexedRuns(a, b, w, r);
    }
    var e := ExtendLeft(a, b, w, s);
    ExtendLeftGrows(a, b, w, s);
    assert e == s;
    ExtendRightGrows(a, b, w, s);
  }

  lemma SeedStartsAtCorner(a: seq<char>, b: seq<char>, w: Window)
    requires Fits(a, b, w)
    ensures Seed(a, b, w).size == 0 ==> Seed(a, b, w) == Block(w.alo, w.blo, 0)
  {
    SeedIsFirst(a, b, w);
  }

  /** Comparing a text with itself: the first longest run in scan order lies on the diagonal,
      whatever autojunk removed, because its mirror cells on the diagonal carry runs at least as
      long and come earlier. */
  lemma SelfSeedOnDiagonal(a: seq<char>)
    ensures Seed(a, a, Whole(a, a)).i == Seed(a, a, Whole(a, a)).j
  {
    hide Seed, RunLen, Indexed;
    var w := Whole(a, a);
    SeedIsFirst(a, a, w);
    var s := Seed(a, a, w);
    if s.size > 0 {
      RunIsCommon(a, a, w, s.i, s.j, s.size);
      SameRunIsIndexed(a, s);
      RunCovers(a, a, w, s.i, s.i, s.size);
      RunCovers(a, a, w, s.j, s.j, s.size);
      var i, j := s.i + s.size - 1, s.j + s.size - 1;
      assert RunLen(a, a, w, i, i) <= s.size && RunLen(a, a, w, j, j) <= s.size;
    }
  }

  lemma SameRunIsIndexed(a: seq<char>, s: Block)
    requires s.i + s.size <= |a| && s.j + s.size <= |a| && a[s.i..s.i + s.size] == a[s.j..s.j + s.size]
    requires forall t :: s.i <= t < s.i + s.size ==> Indexed(a, a[t])
    ensures forall t :: s.j <= t < s.j + s.size ==> Indexed(a, a[t])
  {
    hide Indexed;
    forall t | s.j <= t < s.j + s.size ensures Indexed(a, a[t]) {
      assert a[t] == a[s.j..s.j + s.size][t - s.j] == a[s.i..s.i + s.size][t - s.j] == a[s.i + (t - s.j)];
    }
  }

  lemma SelfLongestIsWhole(a: seq<char>)
    ensures Longest(a, a, Whole(a, a)) == Block(0, 0, |a|)
  {
    hide Seed, RunLen, FirstLongest, ExtendLeft, ExtendRight;
    var w := Whole(a, a);
    SelfSeedOnDiagonal(a);
    SeedIsFirst(a, a, w);
    var s := Seed(a, a, w);
    ExtendLeftGrows(a, a, w, s);
    var e := ExtendLeft(a, a, w, s);
    assert e.i == e.j == 0;
    ExtendRightGrows(a, a, w, e);
  }

  // ---- the blocks of a whole comparison ---------------------------------------------------

  ghost function LeftOf(w: Window, r: Block): Window {
    Window(w.alo, r.i, w.blo, r.j)
  }

  ghost function RightOf(w: Window, r: Block): Window {
    Window(r.i + r.size, w.ahi, r.j + r.size, w.bhi)
  }

  ghost predicate Wide(w: Window) {
    w.alo < w.ahi && w.blo < w.bhi
  }

  /** Total size of the blocks: the longest one, then both sides of it. */
  ghost function Total(a: seq<char>, b: seq<char>, w: Window): nat
    requires Fits(a, b, w)
    decreases w.ahi - w.alo
  {
    hide Longest, Maximal;
    var r := Longest(a, b, w);
    if r.size == 0 then 0
    else r.size
         + (if Wide(LeftOf(w, r)) then Total(a, b, LeftOf(w, r)) else 0)
         + (if Wide(RightOf(w, r)) then Total(a, b, RightOf(w, r)) else 0)
  }

  /** The positions matched by those blocks, left to right. */
  ghost function BlockPairs(r: Block): seq<(nat, nat)> {
    seq(r.size, t requires 0 <= t => (r.i + t, r.j + t))
  }

  ghost function Pairs(a: seq<char>, b: seq<char>, w: Window): seq<(nat, nat)>
    requires Fits(a, b, w)
    decreases w.ahi - w.alo
  {
    hide Longest, Maximal;
    var r := Longest(a, b, w);
    if r.size == 0 then []
    else (if Wide(LeftOf(w, r)) then Pairs(a, b, LeftOf(w, r)) else [])
         + BlockPairs(r)
         + (if Wide(RightOf(w, r)) then Pairs(a, b, RightOf(w, r)) else [])
  }

  /** `ps` spells a common subsequence of `a` and `b`, using only the window's positions. */
  ghost predicate CommonSubsequence(a: seq<char>, b: seq<char>, w: Window, ps: seq<(nat, nat)>)
    requires Fits(a, b, w)
  {
    && (forall t :: 0 <= t < |ps| ==> w.alo <= ps[t].0 < w.ahi && w.blo <= ps[t].1 < w.bhi && a[ps[t].0] == b[ps[t].1])
    && (forall s, t :: 0 <= s < t < |ps| ==> ps[s].0 < ps[t].0 && ps[s].1 < ps[t].1)
  }

  lemma BlockIsSubsequence(a: seq<char>, b: seq<char>, w: Window, r: Block)
    requires Fits(a, b, w) && Common(a, b, w, r)
    ensures CommonSubsequence(a, b, Window(r.i, r.i + r.size, r.j, r.j + r.size),
                              BlockPairs(r))
  {
    forall t | 0 <= t < r.size ensures a[BlockPairs(r)[t].0] == b[BlockPairs(r)[t].1] {
      assert a[r.i..r.i + r.size][t] == b[r.j..r.j + r.size][t];
    }
  }

  lemma JoinSubsequences(a: seq<char>, b: seq<char>, v: Window, w: Window, ps: seq<(nat, nat)>, qs: seq<(nat, nat)>)
    requires Fits(a, b, v) && Fits(a, b, w) && v.ahi <= w.alo && v.bhi <= w.blo
    requires CommonSubsequence(a, b, v, ps) && CommonSubsequence(a, b, w, qs)
    ensures CommonSubsequence(a, b, Window(v.alo, w.ahi, v.blo, w.bhi), ps + qs)
  {
  }

  lemma EmptySubsequence(a: seq<char>, b: seq<char>)
    ensures forall w :: Fits(a, b, w) ==> CommonSubsequence(a, b, w, [])
  {
  }

  /** The counted blocks neither overlap nor cross: their total is the length of a common
      subsequence. */
  lemma {:induction false} TotalIsCommonSubsequence(a: seq<char>, b: seq<char>, w: Window)
    requires Fits(a, b, w)
    ensures CommonSubsequence(a, b, w, Pairs(a, b, w)) && |Pairs(a, b, w)| == Total(a, b, w)
    decreases w.ahi - w.alo
  {
    hide Longest, CommonSubsequence;
    EmptySubsequence(a, b);
    var r := Longest(a, b, w);
    if r.size > 0 {
      var left, right := LeftOf(w, r), RightOf(w, r);
      var mid := Window(r.i, r.i + r.size, r.j, r.j + r.size);
      var ps := if Wide(left) then Pairs(a, b, left) else [];
      var qs := BlockPairs(r);
      var rs := if Wide(right) then Pairs(a, b, right) else [];
      if Wide(left) { TotalIsCommonSubsequence(a, b, left); }
      if Wide(right) { TotalIsCommonSubsequence(a, b, right); }
      BlockIsSubsequence(a, b, w, r);
      JoinSubsequences(a, b, left, mid, ps, qs);
      JoinSubsequences(a, b, Window(w.alo, r.i + r.size, w.blo, r.j + r.size), right, ps + qs, rs);
    }
  }

  // ---- what is left between the blocks ------------------------------------------------------

  /** `(i, j)` lies in the window after the first `k` pairs and before the others. */
  ghost predicate Between(w: Window, ps: seq<(nat, nat)>, k: nat, i: nat, j: nat) {
    && w.alo <= i < w.ahi && w.blo <= j < w.bhi && k <= |ps|
    && (k > 0 ==> ps[k - 1].0 < i && ps[k - 1].1 < j)
    && (k < |ps| ==> i < ps[k].0 && j < ps[k].1)
  }

  /** Nothing could be added: where the texts still agree strictly between two pairs, before the first or
      after the last, the character is one that autojunk dropped. */
  ghost predicate Saturated(a: seq<char>, b: seq<char>, w: Window, ps: seq<(nat, nat)>)
    requires Fits(a, b, w)
  {
    forall k: nat, i: nat, j: nat :: Between(w, ps, k, i, j) && a[i] == b[j] ==> !Indexed(b, a[i])
  }

  ghost predicate Inner(w: Window, ps: seq<(nat, nat)>) {
    forall t :: 0 <= t < |ps| ==> w.alo <= ps[t].0 < w.ahi && w.blo <= ps[t].1 < w.bhi
  }

  /** Two saturated halves that touch in a pair make a saturated whole. */
  lemma JoinSaturated(a: seq<char>, b: seq<char>, v: Window, w: Window, ps: seq<(nat, nat)>, qs: seq<(nat, nat)>)
    requires Fits(a, b, v) && Fits(a, b, w) && v.ahi == w.alo && v.bhi == w.blo
    requires Inner(v, ps) && Inner(w, qs) && Saturated(a, b, v, ps) && Saturated(a, b, w, qs)
    requires (qs != [] && qs[0] == (w.alo, w.blo)) || (ps != [] && ps[|ps| - 1].0 + 1 == v.ahi && ps[|ps| - 1].1 + 1 == v.bhi)
    ensures Saturated(a, b, Window(v.alo, w.ahi, v.blo, w.bhi), ps + qs)
    ensures Inner(Window(v.alo, w.ahi, v.blo, w.bhi), ps + qs)
  {
    hide Indexed;
    var (all, whole) := (ps + qs, Window(v.alo, w.ahi, v.blo, w.bhi));
    forall k: nat, i: nat, j: nat | Between(whole, all, k, i, j) && a[i] == b[j] ensures !Indexed(b, a[i]) {
      GapIsInOne(v, w, ps, qs, k, i, j);
      assert Between(v, ps, k, i, j) || Between(w, qs, k - |ps|, i, j);
    }
  }

  lemma GapIsInOne(v: Window, w: Window, ps: seq<(nat, nat)>, qs: seq<(nat, nat)>, k: nat, i: nat, j: nat)
    requires v.ahi == w.alo && v.bhi == w.blo && Inner(v, ps) && Inner(w, qs)
    requires (qs != [] && qs[0] == (w.alo, w.blo)) || (ps != [] && ps[|ps| - 1].0 + 1 == v.ahi && ps[|ps| - 1].1 + 1 == v.bhi)
    requires Between(Window(v.alo, w.ahi, v.blo, w.bhi), ps + qs, k, i, j)
    ensures Between(v, ps, k, i, j) || (k >= |ps| && Between(w, qs, k - |ps|, i, j))
  {
    var all := ps + qs;
    assert all[..|ps|] == ps && all[|ps|..] == qs;
    assert k < |all| ==> all[k] == if k < |ps| then ps[k] else qs[k - |ps|];
    assert k > 0 ==> all[k - 1] == if k - 1 < |ps| then ps[k - 1] else qs[k - 1 - |ps|];
  }

  lemma BlockIsSaturated(a: seq<char>, b: seq<char>, r: Block)
    requires r.i + r.size <= |a| && r.j + r.size <= |b|
    ensures var w := Window(r.i, r.i + r.size, r.j, r.j + r.size); Saturated(a, b, w, BlockPairs(r)) && Inner(w, BlockPairs(r))
    ensures |BlockPairs(r)| == r.size && forall t :: 0 <= t < r.size ==> BlockPairs(r)[t] == (r.i + t, r.j + t)
  {
    hide Indexed;
  }

  /** A narrow window has no room for a pair. */
  lemma NarrowIsSaturated(a: seq<char>, b: seq<char>, w: Window)
    requires Fits(a, b, w) && !Wide(w)
    ensures Saturated(a, b, w, [])
  {
    hide Indexed;
  }

  /** And one in which nothing is found has no indexed character in common. */
  lemma NothingFoundIsSaturated(a: seq<char>, b: seq<char>, w: Window)
    requires Fits(a, b, w) && Longest(a, b, w).size == 0
    ensures Saturated(a, b, w, [])
  {
    hide Longest, Indexed, Seed;
    forall k: nat, i: nat, j: nat | Between(w, [], k, i, j) && a[i] == b[j] ensures !Indexed(b, a[i]) {
      if Indexed(b, a[i]) {
        assert a[i..i + 1] == [a[i]] && b[j..j + 1] == [b[j]];
        LongestBeatsIndexedRuns(a, b, w, Block(i, j, 1));
      }
    }
  }

  lemma {:induction false} PairsAreSaturated(a: seq<char>, b: seq<char>, w: Window)
    requires Fits(a, b, w)
    ensures Saturated(a, b, w, Pairs(a, b, w))
    decreases w.ahi - w.alo
  {
    hide Longest, Saturated, BlockPairs, Wide;
    var r := Longest(a, b, w);
    if r.size == 0 {
      NothingFoundIsSaturated(a, b, w);
    } else {
      var left, right := LeftOf(w, r), RightOf(w, r);
      var mid := Window(r.i, r.i + r.size, r.j, r.j + r.size);
      var ps := if Wide(left) then Pairs(a, b, left) else [];
      var qs := BlockPairs(r);
      var rs := if Wide(right) then Pairs(a, b, right) else [];
      SideIsSaturated(a, b, w, left);
      SideIsSaturated(a, b, w, right);
      BlockIsSaturated(a, b, r);
      JoinSaturated(a, b, left, mid, ps, qs);
      JoinSaturated(a, b, Window(w.alo, r.i + r.size, w.blo, r.j + r.size), right, ps + qs, rs);
    }
  }

  lemma {:induction false} SideIsSaturated(a: seq<char>, b: seq<char>, w: Window, side: Window)
    requires Fits(a, b, w) && Fits(a, b, side) && side.ahi - side.alo < w.ahi - w.alo
    ensures var ps := if Wide(side) then Pairs(a, b, side) else [];
            Inner(side, ps) && Saturated(a, b, side, ps)
    decreases w.ahi - w.alo, 0
  {
    hide Longest, Saturated, Pairs;
    if Wide(side) {
      TotalIsCommonSubsequence(a, b, side);
      PairsAreSaturated(a, b, side);
    } else {
      NarrowIsSaturated(a, b, side);
    }
  }

  // ---- the work stack ---------------------------------------------------------------------

  ghost function StackTotal(a: seq<char>, b: seq<char>, stack: seq<Window>): nat
    requires forall w :: w in stack ==> Fits(a, b, w)
  {
    if stack == [] then 0 else StackTotal(a, b, stack[..|stack| - 1]) + Total(a, b, stack[|stack| - 1])
  }

  ghost function StackWeight(stack: seq<Window>): nat {
    if stack == [] then 0
    else StackWeight(stack[..|stack| - 1]) + Weight(stack[|stack| - 1])
  }

  ghost function Weight(w: Window): nat {
    if w.alo <= w.ahi && w.blo <= w.bhi then 1 + (w.ahi - w.alo) + (w.bhi - w.blo) else 0
  }

  ghost function Children(a: seq<char>, b: seq<char>, w: Window): (ws: seq<Window>)
    requires Fits(a, b, w)
    ensures forall v :: v in ws ==> Fits(a, b, v)
  {
    hide Longest, Maximal;
    var r := Longest(a, b, w);
    if r.size == 0 then []
    else (if Wide(LeftOf(w, r)) then [LeftOf(w, r)] else []) + (if Wide(RightOf(w, r)) then [RightOf(w, r)] else [])
  }

  lemma {:induction false} StackAppend(a: seq<char>, b: seq<char>, s: seq<Window>, t: seq<Window>)
    requires forall w :: w in s + t ==> Fits(a, b, w)
    ensures (forall w :: w in s ==> Fits(a, b, w)) && (forall w :: w in t ==> Fits(a, b, w))
    ensures StackTotal(a, b, s + t) == StackTotal(a, b, s) + StackTotal(a, b, t)
    ensures StackWeight(s + t) == StackWeight(s) + StackWeight(t)
    decreases |t|
  {
    assert forall w :: w in s ==> w in s + t;
    assert forall w :: w in t ==> w in s + t;
    if t == [] {
      assert s + t == s;
    } else {
      var t' := t[..|t| - 1];
      assert (s + t)[..|s + t| - 1] == s + t';
      StackAppend(a, b, s, t');
    }
  }

  /** Whichever pending window is taken next, its block plus what it leaves behind accounts for
      exactly the same total, and the pending work shrinks: no order changes the result. */
  lemma TakeAnyWindow(a: seq<char>, b: seq<char>, stack: seq<Window>, p: nat)
    requires p < |stack| && forall w :: w in stack ==> Fits(a, b, w)
    ensures var next := stack[..p] + stack[p + 1..] + Children(a, b, stack[p]);
            && (forall w :: w in next ==> Fits(a, b, w))
            && StackTotal(a, b, stack) == Longest(a, b, stack[p]).size + StackTotal(a, b, next)
            && StackWeight(next) < StackWeight(stack)
  {
    hide Longest, Total, Children, StackTotal, StackWeight, Weight;
    var w := stack[p];
    var (front, back) := (stack[..p], stack[p + 1..]);
    ChildrenTotal(a, b, w);
    assert stack == (front + [w]) + back;
    StackAppend(a, b, front + [w], back);
    StackAppend(a, b, front, [w]);
    StackAppend(a, b, front, back);
    StackAppend(a, b, front + back, Children(a, b, w));
    SingleStack(a, b, w);
  }

  lemma TakeTop(a: seq<char>, b: seq<char>, stack: seq<Window>)
    requires stack != [] && forall w :: w in stack ==> Fits(a, b, w)
    ensures var w := stack[|stack| - 1];
            var next := stack[..|stack| - 1] + Children(a, b, w);
            && (forall w :: w in next ==> Fits(a, b, w))
            && StackTotal(a, b, stack) == Longest(a, b, w).size + StackTotal(a, b, next)
            && StackWeight(next) < StackWeight(stack)
  {
    hide StackTotal, StackWeight, Longest, Children;
    var p := |stack| - 1;
    TakeAnyWindow(a, b, stack, p);
    assert stack[..p] + stack[p + 1..] == stack[..p];
  }

  lemma EmptyStack(a: seq<char>, b: seq<char>)
    ensures StackTotal(a, b, []) == 0
  {
  }

  lemma SingleStack(a: seq<char>, b: seq<char>, w: Window)
    requires Fits(a, b, w)
    ensures StackTotal(a, b, [w]) == Total(a, b, w) && StackWeight([w]) == Weight(w)
  {
    assert [w][..0] == [];
  }

  lemma ChildrenTotal(a: seq<char>, b: seq<char>, w: Window)
    requires Fits(a, b, w)
    ensures Total(a, b, w) == Longest(a, b, w).size + StackTotal(a, b, Children(a, b, w))
    ensures StackWeight(Children(a, b, w)) < Weight(w)
  {
    var r := Longest(a, b, w);
    var left, right := LeftOf(w, r), RightOf(w, r);
    if r.size > 0 {
      SingleStack(a, b, left);
      SingleStack(a, b, right);
      if Wide(left) && Wide(right) {
        StackAppend(a, b, [left], [right]);
      } else {
        assert Children(a, b, w) == if Wide(left) then [left] else if Wide(right) then [right] else [];
      }
    }
  }

  /** A common subsequence of the two texts to which no pair of equal indexed characters can be added. */
  ghost predicate Blocks(a: seq<char>, b: seq<char>, ps: seq<(nat, nat)>) {
    CommonSubsequence(a, b, Whole(a, b), ps) && Saturated(a, b, Whole(a, b), ps)
  }

  lemma PairsAreBlocks(a: seq<char>, b: seq<char>)
    ensures var ps := Pairs(a, b, Whole(a, b)); |ps| == Total(a, b, Whole(a, b)) && Blocks(a, b, ps)
  {
    hide Total, Pairs, CommonSubsequence, Saturated;
    TotalIsCommonSubsequence(a, b, Whole(a, b));
    PairsAreSaturated(a, b, Whole(a, b));
  }

  lemma ChildrenAre(a: seq<char>, b: seq<char>, w: Window)
    requires Fits(a, b, w)
    ensures var r := Longest(a, b, w);
            Children(a, b, w) ==
              if r.size == 0 then []
              else (if w.alo < r.i && w.blo < r.j then [Window(w.alo, r.i, w.blo, r.j)] else [])
                   + if r.i + r.size < w.ahi && r.j + r.size < w.bhi then [Window(r.i + r.size, w.ahi, r.j + r.size, w.bhi)] else []
  {
    hide Longest;
  }

  method TotalMatching(m: Matcher) returns (total: nat)
    requires m.Valid()
    ensures total == Total(m.a, m.b, Whole(m.a, m.b))
    ensures exists ps :: |ps| == total && Blocks(m.a, m.b, ps)
  {
    hide Longest, Total, Children, StackTotal, StackWeight, Weight, Blocks, CommonSubsequence, Saturated, Maximal;
    ghost var a, b := m.a, m.b;
    PairsAreBlocks(a, b);
    var queue := [Window(0, |m.a|, 0, |m.b|)];
    SingleStack(a, b, Whole(a, b));
    EmptyStack(a, b);
    total := 0;
    while queue != []
      invariant forall w :: w in queue ==> Fits(a, b, w)
      invariant total + StackTotal(a, b, queue) == Total(a, b, Whole(a, b))
      decreases StackWeight(queue)
    {
      var last := |queue| - 1;
      var w := queue[last];
      TakeTop(a, b, queue);
      ChildrenAre(a, b, w);
      queue := queue[..last];
      var r := FindLongestMatch(m, w);
      if r.size > 0 {
        total := total + r.size;
        ghost var rest := queue;
        if w.alo < r.i && w.blo < r.j {
          queue := queue + [Window(w.alo, r.i, w.blo, r.j)];
        }
        if r.i + r.size < w.ahi && r.j + r.size < w.bhi {
          queue := queue + [Window(r.i + r.size, w.ahi, r.j + r.size, w.bhi)];
        }
        assert queue == rest + Children(a, b, w);
      } else {
        assert queue == queue + Children(a, b, w);
      }
    }
  }

  // ---- the ratio --------------------------------------------------------------------------

  ghost function RatioOf(a: seq<char>, b: seq<char>): real {
    if |a| + |b| == 0 then 1.0
    else 2.0 * Total(a, b, Whole(a, b)) as real / (|a| + |b|) as real
  }

  method Ratio(a: seq<char>, b: seq<char>) returns (ratio: real)
    ensures ratio == RatioOf(a, b)
    ensures |a| + |b| > 0 ==> exists ps :: Blocks(a, b, ps) && ratio == 2.0 * |ps| as real / (|a| + |b|) as real
  {
    hide Total, Blocks;
    var total := |a| + |b|;
    if total == 0 {
      return 1.0;
    }
    var m := NewMatcher(a, b);
    var matches := TotalMatching(m);
    ghost var ps :| |ps| == matches && Blocks(a, b, ps);
    return 2.0 * matches as real / total as real;
  }

  /** The `t`-th pair of a common subsequence lies at least `t` into either text. */
  lemma {:induction false} PairsSpread(a: seq<char>, b: seq<char>, ps: seq<(nat, nat)>, t: nat)
    requires CommonSubsequence(a, b, Whole(a, b), ps) && t < |ps|
    ensures t <= ps[t].0 < |a| - (|ps| - 1 - t) && t <= ps[t].1 < |b| - (|ps| - 1 - t)
  {
    for s := 0 to t
      invariant ps[s].0 >= s && ps[s].1 >= s
    {
      assert ps[s].0 < ps[s + 1].0 && ps[s].1 < ps[s + 1].1;
    }
    for s := |ps| - 1 downto t
      invariant ps[s].0 < |a| - (|ps| - 1 - s) && ps[s].1 < |b| - (|ps| - 1 - s)
    {
      assert ps[s].0 < ps[s + 1].0 && ps[s].1 < ps[s + 1].1;
    }
  }

  lemma FullSubsequenceIsEqual(a: seq<char>, b: seq<char>, ps: seq<(nat, nat)>)
    requires CommonSubsequence(a, b, Whole(a, b), ps)
    ensures |ps| <= |a| && |ps| <= |b|
    ensures |ps| == |a| == |b| ==> a == b
  {
    if ps != [] {
      PairsSpread(a, b, ps, 0);
    }
    if |ps| == |a| == |b| {
      forall t | 0 <= t < |ps| ensures a[t] == b[t] {
        PairsSpread(a, b, ps, t);
      }
    }
  }

  lemma RatioBounds(n: nat, total: nat)
    requires 2 * n <= total && total > 0
    ensures 0.0 <= 2.0 * n as real / total as real <= 1.0
    ensures 2.0 * n as real / total as real == 1.0 <==> 2 * n == total
    ensures 2.0 * n as real / total as real == 0.0 <==> n == 0
  {
  }

  lemma SelfTotal(a: seq<char>)
    ensures Total(a, a, Whole(a, a)) == |a|
  {
    hide Longest;
    SelfLongestIsWhole(a);
  }

  /** The ratio lies between 0 and 1, and is 1 for equal texts and for no others, at any length
      and however many characters autojunk dropped. */
  lemma RatioIsOneIffEqual(a: seq<char>, b: seq<char>)
    ensures 0.0 <= RatioOf(a, b) <= 1.0
    ensures RatioOf(a, b) == 1.0 <==> a == b
  {
    hide Total, Pairs, CommonSubsequence;
    var n := Total(a, b, Whole(a, b));
    TotalIsCommonSubsequence(a, b, Whole(a, b));
    FullSubsequenceIsEqual(a, b, Pairs(a, b, Whole(a, b)));
    if |a| + |b| > 0 {
      RatioBounds(n, |a| + |b|);
    }
    if a == b {
      SelfTotal(a);
    }
  }

  /** No indexed character is shared, and the two texts do not even start alike. */
  ghost predicate NothingShared(a: seq<char>, b: seq<char>) {
    && (forall t :: 0 <= t < |a| ==> !Indexed(b, a[t]))
    && (a != [] && b != [] ==> a[0] != b[0])
  }

  /** The ratio is 0 exactly when nothing is shared; a shared popular first character is
      recovered by the right extension and keeps it positive. */
  lemma RatioIsZeroIff(a: seq<char>, b: seq<char>)
    ensures RatioOf(a, b) == 0.0 <==> |a| + |b| > 0 && NothingShared(a, b)
  {
    hide Pairs, CommonSubsequence, Longest, NothingShared, Maximal;
    var w := Whole(a, b);
    TotalIsCommonSubsequence(a, b, w);
    FullSubsequenceIsEqual(a, b, Pairs(a, b, w));
    if |a| + |b| > 0 {
      RatioBounds(Total(a, b, w), |a| + |b|);
      NothingMatches(a, b);
    }
  }

  lemma IndexedSeeds(a: seq<char>, b: seq<char>, t: nat)
    requires t < |a| && Indexed(b, a[t])
    ensures Seed(a, b, Whole(a, b)).size > 0
  {
    hide Seed, RunLen;
    var j :| 0 <= j < |b| && b[j] == a[t];
    assert a[t..t + 1] == [a[t]] == b[j..j + 1];
    LongestBeatsIndexedRuns(a, b, Whole(a, b), Block(t, j, 1));
  }

  lemma SeedIsIndexed(a: seq<char>, b: seq<char>)
    requires Seed(a, b, Whole(a, b)).size > 0
    ensures exists t :: 0 <= t < |a| && Indexed(b, a[t])
  {
    hide Seed, RunLen, Indexed;
    var w := Whole(a, b);
    SeedIsFirst(a, b, w);
    var s := Seed(a, b, w);
    RunIsCommon(a, b, w, s.i, s.j, s.size);
    assert Indexed(b, a[s.i]);
  }

  lemma NothingMatches(a: seq<char>, b: seq<char>)
    ensures Longest(a, b, Whole(a, b)).size == 0 <==> NothingShared(a, b)
  {
    hide Seed, RunLen, FirstLongest, Indexed;
    var w := Whole(a, b);
    SeedIsFirst(a, b, w);
    SeedStartsAtCorner(a, b, w);
    var s := Seed(a, b, w);
    ExtendLeftGrows(a, b, w, s);
    ExtendRightGrows(a, b, w, ExtendLeft(a, b, w, s));
    if s.size > 0 {
      SeedIsIndexed(a, b);
    } else {
      forall t | 0 <= t < |a| ensures !Indexed(b, a[t]) {
        if Indexed(b, a[t]) {
          IndexedSeeds(a, b, t);
        }
      }
    }
  }
}
