/** The Ratcliff-Obershelp matcher that decides `supersede` against `capture`.

    `Matcher` carries the pruned index of `b` (autojunk).  `FindLongestMatch` runs the sparse
    dynamic programme over that index and then extends the block over equal characters that the
    index no longer holds; `TotalMatching` drains a work stack of sub-windows; `Ratio` divides.

    The dynamic programme is specified by `RunLen` (how long a run of indexed characters ends at
    one cell) and `BestBefore` (the first longest run met in scan order). */
module Difflib {

  datatype Window = Window(alo: nat, ahi: nat, blo: nat, bhi: nat)

  /** `size` characters shared by `a` from `i` and `b` from `j`. */
  datatype Block = Block(i: nat, j: nat, size: nat)

  ghost predicate Fits(a: seq<char>, b: seq<char>, w: Window) {
    w.alo <= w.ahi <= |a| && w.blo <= w.bhi <= |b|
  }

  ghost function Whole(a: seq<char>, b: seq<char>): Window {
    Window(0, |a|, 0, |b|)
  }

  // ---- the index --------------------------------------------------------------------------

  const AUTOJUNK_FLOOR := 200

  /** Characters of `b` that may start a match: autojunk drops the ones occurring more than
      `|b| / 100 + 1` times, but only once `b` has 200 characters. */
  ghost predicate Indexed(b: seq<char>, c: char) {
    c in b && (|b| >= AUTOJUNK_FLOOR ==> multiset(b)[c] <= |b| / 100 + 1)
  }

  /** The positions of `c` among the first `n` characters of `b`, ascending. */
  ghost function PositionsOf(b: seq<char>, n: nat, c: char): seq<nat>
    requires n <= |b|
  {
    if n == 0 then []
    else if b[n - 1] == c then PositionsOf(b, n - 1, c) + [n - 1]
    else PositionsOf(b, n - 1, c)
  }

  lemma {:induction false} PositionsCount(b: seq<char>, n: nat, c: char)
    requires n <= |b|
    ensures |PositionsOf(b, n, c)| == multiset(b[..n])[c]
  {
    if n > 0 {
      PositionsCount(b, n - 1, c);
      assert b[..n] == b[..n - 1] + [b[n - 1]];
    }
  }

  lemma {:induction false} PositionsSound(b: seq<char>, n: nat, c: char)
    requires n <= |b|
    ensures forall t :: 0 <= t < |PositionsOf(b, n, c)| ==> PositionsOf(b, n, c)[t] < n && b[PositionsOf(b, n, c)[t]] == c
    ensures forall s, t :: 0 <= s < t < |PositionsOf(b, n, c)| ==> PositionsOf(b, n, c)[s] < PositionsOf(b, n, c)[t]
  {
    if n > 0 {
      PositionsSound(b, n - 1, c);
    }
  }

  lemma {:induction false} PositionsComplete(b: seq<char>, n: nat, c: char, y: nat)
    requires y < n <= |b| && b[y] == c
    ensures exists t :: 0 <= t < |PositionsOf(b, n, c)| && PositionsOf(b, n, c)[t] == y
  {
    var ps := PositionsOf(b, n, c);
    if y == n - 1 {
      assert ps[|ps| - 1] == y;
    } else {
      PositionsComplete(b, n - 1, c, y);
      var t :| 0 <= t < |PositionsOf(b, n - 1, c)| && PositionsOf(b, n - 1, c)[t] == y;
      assert ps[t] == y;
    }
  }

  datatype Matcher = Matcher(a: seq<char>, b: seq<char>, b2j: map<char, seq<nat>>) {
    ghost predicate Valid() {
      && (forall c :: c in b2j <==> Indexed(b, c))
      && (forall c :: c in b2j ==> b2j[c] == PositionsOf(b, |b|, c))
    }
  }

  /** `b2j` lists the positions of every character among the first `n` of `b`. */
  ghost predicate Collected(b: seq<char>, n: nat, b2j: map<char, seq<nat>>)
    requires n <= |b|
  {
    forall c :: PositionsOf(b, n, c) == if c in b2j then b2j[c] else []
  }

  lemma PrunedIsIndex(b: seq<char>, b2j: map<char, seq<nat>>, c: char)
    requires Collected(b, |b|, b2j) && forall x :: x in b2j ==> b2j[x] != []
    ensures Indexed(b, c) <==> c in b2j && (|b| >= AUTOJUNK_FLOOR ==> |b2j[c]| <= |b| / 100 + 1)
  {
    hide PositionsOf;
    PositionsCount(b, |b|, c);
    assert b[..|b|] == b;
    assert |PositionsOf(b, |b|, c)| == multiset(b)[c];
    assert c in b <==> multiset(b)[c] > 0;
  }

  /** The positions of a character in the text, each once, in order. */
  ghost predicate Positions(b: seq<char>, c: char, ps: seq<nat>) {
    && (forall s, t :: 0 <= s < t < |ps| ==> ps[s] < ps[t])
    && (forall y: nat :: y in ps <==> y < |b| && b[y] == c)
  }

  lemma PositionsAre(b: seq<char>, c: char)
    ensures Positions(b, c, PositionsOf(b, |b|, c)) && |PositionsOf(b, |b|, c)| == multiset(b)[c]
  {
    hide PositionsOf;
    PositionsSound(b, |b|, c);
    PositionsCount(b, |b|, c);
    assert b[..|b|] == b;
    forall y: nat | y < |b| && b[y] == c ensures y in PositionsOf(b, |b|, c) {
      PositionsComplete(b, |b|, c, y);
    }
  }

  /** What the index holds: each character that occurs, except that of a text of 200 characters or more it
      leaves out those that make up more than one in a hundred and one besides. */
  lemma IndexIs(m: Matcher)
    requires m.Valid()
    ensures forall c :: c in m.b2j <==> c in m.b && (|m.b| >= 200 ==> 100 * (multiset(m.b)[c] - 1) <= |m.b|)
    ensures forall c :: c in m.b2j ==> Positions(m.b, c, m.b2j[c])
  {
    hide PositionsOf, Positions;
    forall c {
      PositionsAre(m.b, c);
    }
  }

  method NewMatcher(a: seq<char>, b: seq<char>) returns (m: Matcher)
    ensures m.a == a && m.b == b && m.Valid()
    ensures forall c :: c in m.b2j <==> c in b && (|b| >= 200 ==> 100 * (multiset(b)[c] - 1) <= |b|)
    ensures forall c :: c in m.b2j ==> Positions(b, c, m.b2j[c])
  {
    hide Positions;
    var b2j: map<char, seq<nat>> := map[];
    for i := 0 to |b|
      invariant Collected(b, i, b2j) && forall x :: x in b2j ==> b2j[x] != []
    {
      b2j := b2j[b[i] := (if b[i] in b2j then b2j[b[i]] else []) + [i]];
    }
    forall c {
      PrunedIsIndex(b, b2j, c);
    }
    if |b| >= AUTOJUNK_FLOOR {
      var ntest := |b| / 100 + 1;
      b2j := map c | c in b2j && |b2j[c]| <= ntest :: b2j[c];
    }
    m := Matcher(a, b, b2j);
    IndexIs(m);
  }

  // ---- what the dynamic programme computes ------------------------------------------------

  /** Length of the longest run of equal, indexed characters that ends at `a[i]`, `b[j]` and
      stays inside the window. */
  ghost function RunLen(a: seq<char>, b: seq<char>, w: Window, i: nat, j: nat): nat
    requires Fits(a, b, w) && w.alo <= i < w.ahi && w.blo <= j < w.bhi
    decreases i
  {
    if a[i] != b[j] || !Indexed(b, a[i]) then 0
    else 1 + if i > w.alo && j > w.blo then RunLen(a, b, w, i - 1, j - 1) else 0
  }

  ghost function Improve(a: seq<char>, b: seq<char>, w: Window, best: Block, i: nat, j: nat): Block
    requires Fits(a, b, w) && w.alo <= i < w.ahi && w.blo <= j < w.bhi
  {
    var k := RunLen(a, b, w, i, j);
    RunWithin(a, b, w, i, j);
    if k > best.size then Block(i + 1 - k, j + 1 - k, k) else best
  }

  /** The best block over all cells that precede `(i, j)` in scan order: row by row, then left to
      right, replaced only by a strictly longer run. */
  ghost function BestBefore(a: seq<char>, b: seq<char>, w: Window, i: nat, j: nat): Block
    requires Fits(a, b, w) && w.alo <= i <= w.ahi && w.blo <= j <= w.bhi
    requires j > w.blo ==> i < w.ahi
    decreases i, j
  {
    if j > w.blo then Improve(a, b, w, BestBefore(a, b, w, i, j - 1), i, j - 1)
    else if i > w.alo then BestBefore(a, b, w, i - 1, w.bhi)
    else Block(w.alo, w.blo, 0)
  }

  ghost function ExtendLeft(a: seq<char>, b: seq<char>, w: Window, r: Block): (e: Block)
    requires Fits(a, b, w) && Inside(w, r)
    ensures Inside(w, e)
    decreases r.i
  {
    if r.i > w.alo && r.j > w.blo && a[r.i - 1] == b[r.j - 1]
    then ExtendLeft(a, b, w, Block(r.i - 1, r.j - 1, r.size + 1))
    else r
  }

  ghost function ExtendRight(a: seq<char>, b: seq<char>, w: Window, r: Block): Block
    requires Fits(a, b, w) && Inside(w, r)
    decreases w.ahi - (r.i + r.size)
  {
    if r.i + r.size < w.ahi && r.j + r.size < w.bhi && a[r.i + r.size] == b[r.j + r.size]
    then ExtendRight(a, b, w, r.(size := r.size + 1))
    else r
  }

  ghost predicate Inside(w: Window, r: Block) {
    w.alo <= r.i && r.i + r.size <= w.ahi && w.blo <= r.j && r.j + r.size <= w.bhi
  }

  /** A genuine common block of the window. */
  ghost predicate Common(a: seq<char>, b: seq<char>, w: Window, r: Block)
    requires Fits(a, b, w)
  {
    Inside(w, r) && a[r.i..r.i + r.size] == b[r.j..r.j + r.size]
  }

  /** A common block that grows neither to the left nor to the right. */
  ghost predicate Maximal(a: seq<char>, b: seq<char>, w: Window, r: Block)
    requires Fits(a, b, w)
  {
    && Common(a, b, w, r)
    && !(r.i > w.alo && r.j > w.blo && a[r.i - 1] == b[r.j - 1])
    && !(r.i + r.size < w.ahi && r.j + r.size < w.bhi && a[r.i + r.size] == b[r.j + r.size])
  }

  /** The first longest run of indexed characters, in scan order. */
  ghost function Seed(a: seq<char>, b: seq<char>, w: Window): Block
    requires Fits(a, b, w)
  {
    BestBefore(a, b, w, w.ahi, w.blo)
  }

  ghost function Longest(a: seq<char>, b: seq<char>, w: Window): (r: Block)
    requires Fits(a, b, w)
    ensures Maximal(a, b, w, r) && Inside(w, r)
  {
    SeedIsFirst(a, b, w);
    ExtendLeftGrows(a, b, w, Seed(a, b, w));
    ExtendRightGrows(a, b, w, ExtendLeft(a, b, w, Seed(a, b, w)));
    ExtendRight(a, b, w, ExtendLeft(a, b, w, Seed(a, b, w)))
  }

  // ---- facts about runs -------------------------------------------------------------------

  lemma SliceSnoc(s: seq<char>, lo: nat, hi: nat)
    requires lo <= hi < |s|
    ensures s[lo..hi + 1] == s[lo..hi] + [s[hi]]
  {
  }

  lemma SliceCons(s: seq<char>, lo: nat, hi: nat)
    requires lo < hi <= |s|
    ensures s[lo..hi] == [s[lo]] + s[lo + 1..hi]
  {
  }

  lemma {:induction false} RunWithin(a: seq<char>, b: seq<char>, w: Window, i: nat, j: nat)
    requires Fits(a, b, w) && w.alo <= i < w.ahi && w.blo <= j < w.bhi
    ensures RunLen(a, b, w, i, j) <= i + 1 - w.alo && RunLen(a, b, w, i, j) <= j + 1 - w.blo
    decreases i
  {
    hide Indexed;
    if i > w.alo && j > w.blo {
      RunWithin(a, b, w, i - 1, j - 1);
    }
  }

  /** The run of length `k` that starts at `a[x]`, `b[y]` is a common block of indexed characters. */
  lemma {:induction false} RunIsCommon(a: seq<char>, b: seq<char>, w: Window, x: nat, y: nat, k: nat)
    requires Fits(a, b, w) && w.alo <= x && x + k <= w.ahi && w.blo <= y && y + k <= w.bhi
    requires k > 0 && RunLen(a, b, w, x + k - 1, y + k - 1) >= k
    ensures a[x..x + k] == b[y..y + k]
    ensures forall t :: x <= t < x + k ==> Indexed(b, a[t])
  {
    hide Indexed;
    if k > 1 {
      RunIsCommon(a, b, w, x, y, k - 1);
    }
    SliceSnoc(a, x, x + k - 1);
    SliceSnoc(b, y, y + k - 1);
  }

  /** Every common block of indexed characters is seen by the run ending at its last cell. */
  lemma {:induction false} RunCovers(a: seq<char>, b: seq<char>, w: Window, x: nat, y: nat, k: nat)
    requires Fits(a, b, w) && w.alo <= x && x + k <= w.ahi && w.blo <= y && y + k <= w.bhi
    requires k > 0 && a[x..x + k] == b[y..y + k]
    requires forall t :: x <= t < x + k ==> Indexed(b, a[t])
    ensures RunLen(a, b, w, x + k - 1, y + k - 1) >= k
  {
    hide Indexed;
    SliceSnoc(a, x, x + k - 1);
    SliceSnoc(b, y, y + k - 1);
    SnocEqual(a[x..x + k - 1], a[x + k - 1], b[y..y + k - 1], b[y + k - 1]);
    if k > 1 {
      RunCovers(a, b, w, x, y, k - 1);
    }
  }

  lemma SnocEqual(x: seq<char>, c: char, y: seq<char>, d: char)
    requires |x| == |y| && x + [c] == y + [d]
    ensures x == y && c == d
  {
    assert (x + [c])[..|x|] == x;
    assert (y + [d])[..|y|] == y;
    assert (x + [c])[|x|] == (y + [d])[|y|];
  }

  ghost predicate Precedes(i: int, j: int, i': int, j': int) {
    i < i' || (i == i' && j < j')
  }

  /** `r` is the longest run among the cells before `(i, j)`, and the first such in scan order. */
  ghost predicate FirstLongest(a: seq<char>, b: seq<char>, w: Window, i: int, j: int, r: Block)
    requires Fits(a, b, w)
  {
    && Inside(w, r)
    && (r.size == 0 ==> r == Block(w.alo, w.blo, 0))
    && (r.size > 0 ==> Precedes(r.i + r.size - 1, r.j + r.size - 1, i, j)
                       && RunLen(a, b, w, r.i + r.size - 1, r.j + r.size - 1) == r.size)
    && (forall x: nat, y: nat {:trigger RunLen(a, b, w, x, y)} ::
          w.alo <= x < w.ahi && w.blo <= y < w.bhi && Precedes(x, y, i, j) ==>
            && RunLen(a, b, w, x, y) <= r.size
            && (Precedes(x, y, r.i + r.size - 1, r.j + r.size - 1) && r.size > 0 ==> RunLen(a, b, w, x, y) < r.size))
  }

  lemma ImproveKeepsFirst(a: seq<char>, b: seq<char>, w: Window, i: nat, j: nat, r: Block)
    requires Fits(a, b, w) && w.alo <= i < w.ahi && w.blo <= j < w.bhi
    requires FirstLongest(a, b, w, i, j, r)
    ensures FirstLongest(a, b, w, i, j + 1, Improve(a, b, w, r, i, j))
  {
    var n := Improve(a, b, w, r, i, j);
    RunWithin(a, b, w, i, j);
    forall x: nat, y: nat | w.alo <= x < w.ahi && w.blo <= y < w.bhi && Precedes(x, y, i, j + 1)
      ensures RunLen(a, b, w, x, y) <= n.size
      ensures Precedes(x, y, n.i + n.size - 1, n.j + n.size - 1) && n.size > 0 ==> RunLen(a, b, w, x, y) < n.size
    {
      assert (x == i && y == j) || Precedes(x, y, i, j);
    }
  }

  lemma WrapKeepsFirst(a: seq<char>, b: seq<char>, w: Window, i: nat, r: Block)
    requires Fits(a, b, w) && w.alo <= i < w.ahi && FirstLongest(a, b, w, i, w.bhi, r)
    ensures FirstLongest(a, b, w, i + 1, w.blo, r)
  {
    hide RunLen;
  }

  lemma NothingYetIsFirst(a: seq<char>, b: seq<char>, w: Window)
    requires Fits(a, b, w)
    ensures FirstLongest(a, b, w, w.alo, w.blo, Block(w.alo, w.blo, 0))
  {
    hide RunLen;
  }

  lemma {:induction false} BestBeforeIsFirst(a: seq<char>, b: seq<char>, w: Window, i: nat, j: nat)
    requires Fits(a, b, w) && w.alo <= i <= w.ahi && w.blo <= j <= w.bhi
    requires j > w.blo ==> i < w.ahi
    ensures FirstLongest(a, b, w, i, j, BestBefore(a, b, w, i, j))
    decreases i, j
  {
    hide RunLen, FirstLongest;
    if j > w.blo {
      BestBeforeIsFirst(a, b, w, i, j - 1);
      ImproveKeepsFirst(a, b, w, i, j - 1, BestBefore(a, b, w, i, j - 1));
    } else if i > w.alo {
      BestBeforeIsFirst(a, b, w, i - 1, w.bhi);
      WrapKeepsFirst(a, b, w, i - 1, BestBefore(a, b, w, i - 1, w.bhi));
    } else {
      NothingYetIsFirst(a, b, w);
    }
  }

  lemma SeedIsFirst(a: seq<char>, b: seq<char>, w: Window)
    requires Fits(a, b, w)
    ensures FirstLongest(a, b, w, w.ahi, w.blo, Seed(a, b, w))
    ensures Common(a, b, w, Seed(a, b, w))
  {
    hide RunLen, BestBefore;
    BestBeforeIsFirst(a, b, w, w.ahi, w.blo);
    var r := Seed(a, b, w);
    if r.size > 0 {
      RunIsCommon(a, b, w, r.i, r.j, r.size);
    }
  }

  lemma GrowLeft(a: seq<char>, b: seq<char>, w: Window, r: Block)
    requires Fits(a, b, w) && Common(a, b, w, r)
    requires r.i > w.alo && r.j > w.blo && a[r.i - 1] == b[r.j - 1]
    ensures Common(a, b, w, Block(r.i - 1, r.j - 1, r.size + 1))
  {
    SliceCons(a, r.i - 1, r.i + r.size);
    SliceCons(b, r.j - 1, r.j + r.size);
  }

  lemma GrowRight(a: seq<char>, b: seq<char>, w: Window, r: Block)
    requires Fits(a, b, w) && Common(a, b, w, r)
    requires r.i + r.size < w.ahi && r.j + r.size < w.bhi && a[r.i + r.size] == b[r.j + r.size]
    ensures Common(a, b, w, r.(size := r.size + 1))
  {
    SliceSnoc(a, r.i, r.i + r.size);
    SliceSnoc(b, r.j, r.j + r.size);
  }

  lemma {:induction false} ExtendLeftGrows(a: seq<char>, b: seq<char>, w: Window, r: Block)
    requires Fits(a, b, w) && Inside(w, r) && Common(a, b, w, r)
    ensures var e := ExtendLeft(a, b, w, r);
            && Inside(w, e) && Common(a, b, w, e)
            && e.size >= r.size && e.i + e.size == r.i + r.size && e.j + e.size == r.j + r.size
            && !(e.i > w.alo && e.j > w.blo && a[e.i - 1] == b[e.j - 1])
    decreases r.i
  {
    hide Common;
    if r.i > w.alo && r.j > w.blo && a[r.i - 1] == b[r.j - 1] {
      GrowLeft(a, b, w, r);
      ExtendLeftGrows(a, b, w, Block(r.i - 1, r.j - 1, r.size + 1));
    }
  }

  lemma {:induction false} ExtendRightGrows(a: seq<char>, b: seq<char>, w: Window, r: Block)
    requires Fits(a, b, w) && Inside(w, r) && Common(a, b, w, r)
    ensures var e := ExtendRight(a, b, w, r);
            && Inside(w, e) && Common(a, b, w, e)
            && e.size >= r.size && e.i == r.i && e.j == r.j
            && !(e.i + e.size < w.ahi && e.j + e.size < w.bhi && a[e.i + e.size] == b[e.j + e.size])
    decreases w.ahi - (r.i + r.size)
  {
    hide Common;
    if r.i + r.size < w.ahi && r.j + r.size < w.bhi && a[r.i + r.size] == b[r.j + r.size] {
      GrowRight(a, b, w, r);
      ExtendRightGrows(a, b, w, r.(size := r.size + 1));
    }
  }

  // ---- find_longest_match -----------------------------------------------------------------

  /** Cells off the index never improve on the best block. */
  lemma {:induction false} SkipUnindexed(a: seq<char>, b: seq<char>, w: Window, i: nat, j: nat, j': nat)
    requires Fits(a, b, w) && w.alo <= i < w.ahi && w.blo <= j <= j' <= w.bhi
    requires forall y :: j <= y < j' ==> RunLen(a, b, w, i, y) == 0
    ensures BestBefore(a, b, w, i, j') == BestBefore(a, b, w, i, j)
    decreases j'
  {
    if j < j' {
      SkipUnindexed(a, b, w, i, j, j' - 1);
    }
  }

  /** The columns before `hi` where a run of row `i` ends, each with the length of that run. */
  ghost function Row(a: seq<char>, b: seq<char>, w: Window, i: nat, hi: nat): map<nat, nat>
    requires Fits(a, b, w) && w.alo <= i < w.ahi && hi <= w.bhi
  {
    map j: nat | w.blo <= j < hi && a[i] == b[j] && Indexed(b, a[i]) :: RunLen(a, b, w, i, j)
  }

  /** What `j2len` holds when row `i` starts. */
  ghost function PreviousRow(a: seq<char>, b: seq<char>, w: Window, i: nat): map<nat, nat>
    requires Fits(a, b, w) && w.alo <= i <= w.ahi
  {
    if i == w.alo then map[] else Row(a, b, w, i - 1, w.bhi)
  }

  /** The column reached once `t` index entries have been looked at. */
  ghost function Reached(w: Window, idxs: seq<nat>, t: nat): nat
    requires t <= |idxs|
  {
    if t == 0 || idxs[t - 1] < w.blo then w.blo else idxs[t - 1] + 1
  }

  /** No position of `c` lies strictly between two consecutive index entries. */
  lemma NoneBetween(b: seq<char>, w: Window, c: char, idxs: seq<nat>, t: nat, hi: nat)
    requires idxs == PositionsOf(b, |b|, c) && t <= |idxs| && Reached(w, idxs, t) <= hi <= |b|
    requires t < |idxs| ==> idxs[t] >= hi
    ensures forall y :: Reached(w, idxs, t) <= y < hi ==> b[y] != c
  {
    hide PositionsOf;
    PositionsSound(b, |b|, c);
    assert forall s :: 0 <= s < t ==> idxs[s] <= idxs[t - 1];
    assert forall s :: t <= s < |idxs| ==> idxs[s] >= hi;
    forall y | Reached(w, idxs, t) <= y < hi ensures b[y] != c {
      if b[y] == c {
        PositionsComplete(b, |b|, c, y);
      }
    }
  }

  lemma CellLength(a: seq<char>, b: seq<char>, w: Window, i: nat, j: nat)
    requires Fits(a, b, w) && w.alo <= i < w.ahi && w.blo <= j < w.bhi
    requires a[i] == b[j] && Indexed(b, a[i])
    ensures var j2len := PreviousRow(a, b, w, i);
            RunLen(a, b, w, i, j) == (if j > 0 && j - 1 in j2len then j2len[j - 1] else 0) + 1
  {
  }

  lemma RowStart(a: seq<char>, b: seq<char>, w: Window, i: nat)
    requires Fits(a, b, w) && w.alo <= i < w.ahi
    ensures Row(a, b, w, i, w.blo) == map[]
  {
  }

  lemma RowStep(a: seq<char>, b: seq<char>, w: Window, i: nat, done: nat, j: nat)
    requires Fits(a, b, w) && w.alo <= i < w.ahi && w.blo <= done <= j < w.bhi
    requires a[i] == b[j] && Indexed(b, a[i]) && forall y :: done <= y < j ==> a[i] != b[y]
    ensures Row(a, b, w, i, j + 1) == Row(a, b, w, i, done)[j := RunLen(a, b, w, i, j)]
  {
  }

  lemma ImproveAfterGap(a: seq<char>, b: seq<char>, w: Window, i: nat, done: nat, j: nat)
    requires Fits(a, b, w) && w.alo <= i < w.ahi && w.blo <= done <= j < w.bhi
    requires forall y :: done <= y < j ==> a[i] != b[y]
    ensures BestBefore(a, b, w, i, j + 1) == Improve(a, b, w, BestBefore(a, b, w, i, done), i, j)
  {
    hide Improve;
    SkipUnindexed(a, b, w, i, done, j);
  }

  lemma RowEnd(a: seq<char>, b: seq<char>, w: Window, i: nat, done: nat)
    requires Fits(a, b, w) && w.alo <= i < w.ahi && w.blo <= done <= w.bhi
    requires Indexed(b, a[i]) ==> forall y :: done <= y < w.bhi ==> a[i] != b[y]
    ensures Row(a, b, w, i, w.bhi) == Row(a, b, w, i, done)
    ensures BestBefore(a, b, w, i + 1, w.blo) == BestBefore(a, b, w, i, done)
  {
    SkipUnindexed(a, b, w, i, done, w.bhi);
  }

  /** Looking at index entry `t` of row `i`: columns left of the window leave the row alone, any
      other column enters it with the length of the run ending there. */
  lemma CellStep(a: seq<char>, b: seq<char>, w: Window, i: nat, idxs: seq<nat>, t: nat)
    requires Fits(a, b, w) && w.alo <= i < w.ahi && Indexed(b, a[i])
    requires idxs == PositionsOf(b, |b|, a[i]) && t < |idxs| && w.blo <= idxs[t] < w.bhi
    ensures Reached(w, idxs, t) <= idxs[t]
    ensures RunLen(a, b, w, i, idxs[t]) <= i + 1 && RunLen(a, b, w, i, idxs[t]) <= idxs[t] + 1
    ensures Row(a, b, w, i, idxs[t] + 1) == Row(a, b, w, i, Reached(w, idxs, t))[idxs[t] := RunLen(a, b, w, i, idxs[t])]
    ensures BestBefore(a, b, w, i, idxs[t] + 1) == Improve(a, b, w, BestBefore(a, b, w, i, Reached(w, idxs, t)), i, idxs[t])
  {
    hide PositionsOf, Row, RunLen, BestBefore;
    var j, done := idxs[t], Reached(w, idxs, t);
    PositionsSound(b, |b|, a[i]);
    NoneBetween(b, w, a[i], idxs, t, j);
    RowStep(a, b, w, i, done, j);
    ImproveAfterGap(a, b, w, i, done, j);
    RunWithin(a, b, w, i, j);
  }

  /** One row of the dynamic programme: only the indexed columns of `a[i]` are visited. */
  method ScanRow(m: Matcher, w: Window, i: nat, j2len: map<nat, nat>, best0: Block)
    returns (newj2len: map<nat, nat>, best: Block)
    requires m.Valid() && Fits(m.a, m.b, w) && w.alo <= i < w.ahi
    requires best0 == BestBefore(m.a, m.b, w, i, w.blo)
    requires j2len == PreviousRow(m.a, m.b, w, i)
    ensures newj2len == Row(m.a, m.b, w, i, w.bhi)
    ensures best == BestBefore(m.a, m.b, w, i + 1, w.blo)
  {
    if m.a[i] in m.b2j {
      newj2len, best := ScanIndexed(m.a, m.b, m.b2j[m.a[i]], w, i, j2len, best0);
    } else {
      newj2len, best := map[], best0;
      RowEnd(m.a, m.b, w, i, w.blo);
    }
  }

  method ScanIndexed(a: seq<char>, b: seq<char>, idxs: seq<nat>, w: Window, i: nat, j2len: map<nat, nat>, best0: Block)
    returns (newj2len: map<nat, nat>, best: Block)
    requires Fits(a, b, w) && w.alo <= i < w.ahi && Indexed(b, a[i]) && idxs == PositionsOf(b, |b|, a[i])
    requires best0 == BestBefore(a, b, w, i, w.blo)
    requires j2len == PreviousRow(a, b, w, i)
    ensures newj2len == Row(a, b, w, i, w.bhi)
    ensures best == BestBefore(a, b, w, i + 1, w.blo)
  {
    hide RunLen, BestBefore, Row, PreviousRow, PositionsOf;
    RowStart(a, b, w, i);
    PositionsSound(b, |b|, a[i]);
    newj2len := map[];
    best := best0;
    var t := 0;
    while t < |idxs| && idxs[t] < w.bhi
      invariant 0 <= t <= |idxs| && Reached(w, idxs, t) <= w.bhi
      invariant newj2len == Row(a, b, w, i, Reached(w, idxs, t))
      invariant best == BestBefore(a, b, w, i, Reached(w, idxs, t))
    {
      var j := idxs[t];
      if j >= w.blo {
        CellStep(a, b, w, i, idxs, t);
        CellLength(a, b, w, i, j);
        var k := (if j > 0 && j - 1 in j2len then j2len[j - 1] else 0) + 1;
        newj2len := newj2len[j := k];
        if k > best.size {
          best := Block(i + 1 - k, j + 1 - k, k);
        }
      }
      t := t + 1;
    }
    NoneBetween(b, w, a[i], idxs, t, w.bhi);
    RowEnd(a, b, w, i, Reached(w, idxs, t));
  }

  method Extend(m: Matcher, w: Window, seed: Block) returns (best: Block)
    requires Fits(m.a, m.b, w) && Common(m.a, m.b, w, seed)
    ensures best == ExtendRight(m.a, m.b, w, ExtendLeft(m.a, m.b, w, seed))
  {
    ghost var a, b := m.a, m.b;
    best := seed;
    while best.i > w.alo && best.j > w.blo && m.a[best.i - 1] == m.b[best.j - 1]
      invariant Inside(w, best)
      invariant ExtendLeft(a, b, w, best) == ExtendLeft(a, b, w, seed)
      decreases best.i
    {
      best := Block(best.i - 1, best.j - 1, best.size + 1);
    }
    ghost var left := best;
    while best.i + best.size < w.ahi && best.j + best.size < w.bhi && m.a[best.i + best.size] == m.b[best.j + best.size]
      invariant Inside(w, best)
      invariant ExtendRight(a, b, w, best) == ExtendRight(a, b, w, left)
      decreases w.ahi - (best.i + best.size)
    {
      best := best.(size := best.size + 1);
    }
  }

  method FindLongestMatch(m: Matcher, w: Window) returns (r: Block)
    requires m.Valid() && Fits(m.a, m.b, w)
    ensures r == Longest(m.a, m.b, w)
  {
    var best := Block(w.alo, w.blo, 0);
    var j2len: map<nat, nat> := map[];
    var i := w.alo;
    while i < w.ahi
      invariant w.alo <= i <= w.ahi
      invariant best == BestBefore(m.a, m.b, w, i, w.blo)
      invariant j2len == PreviousRow(m.a, m.b, w, i)
    {
      j2len, best := ScanRow(m, w, i, j2len, best);
      i := i + 1;
    }
    SeedIsFirst(m.a, m.b, w);
    r := Extend(m, w, best);
  }
}
