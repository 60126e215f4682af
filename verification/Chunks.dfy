/** Cutting a transcript into chunks at line boundaries, greedily. */
module Chunks {
  import opened Text

  const NEWLINE: string := "\n"

  /** What a run of lines costs: its characters plus one newline each. */
  function Weight(lines: seq<string>): nat {
    if lines == [] then 0 else Weight(lines[..|lines| - 1]) + |lines[|lines| - 1]| + 1
  }

  ghost function Flatten(groups: seq<seq<string>>): seq<string> {
    if groups == [] then [] else groups[0] + Flatten(groups[1..])
  }

  /** The rule every chunk obeys: one line of any length, or several within the size. */
  ghost predicate Allowed(group: seq<string>, size: nat) {
    group != [] && (|group| == 1 || Weight(group) <= size)
  }

  /** A way of cutting `lines` at line boundaries under that rule. */
  ghost predicate IsCut(groups: seq<seq<string>>, lines: seq<string>, size: nat) {
    Flatten(groups) == lines && forall g :: g in groups ==> Allowed(g, size)
  }

  /** The groups still to come when `cur` is open and `lines` are left. */
  ghost function Greedy(cur: seq<string>, lines: seq<string>, size: nat): (groups: seq<seq<string>>)
    requires cur != []
    ensures groups != []
    decreases |lines|
  {
    if lines == [] then [cur]
    else if Weight(cur) + |lines[0]| + 1 > size then [cur] + Greedy([lines[0]], lines[1..], size)
    else Greedy(cur + [lines[0]], lines[1..], size)
  }

  ghost function Groups(text: string, size: nat): seq<seq<string>> {
    var lines := Split(text, NEWLINE);
    Greedy([lines[0]], lines[1..], size)
  }

  ghost function JoinAll(groups: seq<seq<string>>): (chunks: seq<string>)
    ensures |chunks| == |groups|
  {
    seq(|groups|, i requires 0 <= i < |groups| => Join(groups[i], NEWLINE))
  }

  method ChunkLines(text: string, size: nat) returns (chunks: seq<string>)
    ensures chunks == JoinAll(Groups(text, size))
  {
    hide Split, Join, Find;
    var lines := Split(text, NEWLINE);
    chunks := [];
    var cur: seq<string> := [];
    var n := 0;
    for i := 0 to |lines|
      invariant n == Weight(cur)
      invariant i > 0 ==> cur != [] && chunks + JoinAll(Greedy(cur, lines[i..], size)) == JoinAll(Groups(text, size))
      invariant i == 0 ==> cur == [] && chunks == []
    {
      var len := |lines[i]|;
      assert i > 0 ==> lines[i..][1..] == lines[i + 1..];
      ghost var was := cur;
      if n > 0 && n + len + 1 > size {
        JoinAllCons(cur, Greedy([lines[i]], lines[i + 1..], size));
        chunks := chunks + [Join(cur, NEWLINE)];
        cur := [];
        n := 0;
      }
      cur := cur + [lines[i]];
      n := n + len + 1;
    }
    assert lines[|lines|..] == [];
    if cur != [] {
      chunks := chunks + [Join(cur, NEWLINE)];
    }
  }

  lemma JoinAllCons(g: seq<string>, groups: seq<seq<string>>)
    ensures JoinAll([g] + groups) == [Join(g, NEWLINE)] + JoinAll(groups)
  {
  }

  // ---- nothing is lost --------------------------------------------------------------------

  lemma {:induction false} GreedyIsCut(cur: seq<string>, lines: seq<string>, size: nat)
    requires Allowed(cur, size)
    ensures IsCut(Greedy(cur, lines, size), cur + lines, size)
    decreases |lines|
  {
    if lines == [] {
      assert cur + lines == cur;
    } else if Weight(cur) + |lines[0]| + 1 > size {
      GreedyIsCut([lines[0]], lines[1..], size);
      assert cur + lines == cur + ([lines[0]] + lines[1..]);
    } else {
      GreedyIsCut(cur + [lines[0]], lines[1..], size);
      assert cur + lines == cur + [lines[0]] + lines[1..];
    }
  }

  lemma {:induction false} JoinConcat(x: seq<string>, y: seq<string>)
    requires x != [] && y != []
    ensures Join(x + y, NEWLINE) == Join(x, NEWLINE) + NEWLINE + Join(y, NEWLINE)
  {
    if |x| == 1 {
      JoinCons(x[0], y, NEWLINE);
      assert x == [x[0]];
    } else {
      JoinConcat(x[1..], y);
      JoinCons(x[0], x[1..] + y, NEWLINE);
      assert x + y == [x[0]] + (x[1..] + y);
    }
  }

  lemma {:induction false} JoinGroups(groups: seq<seq<string>>)
    requires groups != [] && forall g :: g in groups ==> g != []
    ensures Flatten(groups) != []
    ensures Join(JoinAll(groups), NEWLINE) == Join(Flatten(groups), NEWLINE)
  {
    hide Join;
    var g, rest := groups[0], groups[1..];
    assert groups == [g] + rest && g in groups;
    JoinAllCons(g, rest);
    if rest == [] {
      JoinOne(Join(g, NEWLINE), NEWLINE);
      assert JoinAll(groups) == [Join(g, NEWLINE)];
      assert Flatten(groups) == g;
    } else {
      assert forall x :: x in rest ==> x in groups;
      JoinGroups(rest);
      JoinCons(Join(g, NEWLINE), JoinAll(rest), NEWLINE);
      JoinConcat(g, Flatten(rest));
    }
  }

  /** Joining the chunks with newlines gives back the text, and every chunk is a single line or
      fits the size. */
  lemma ChunksRoundTrip(text: string, size: nat)
    ensures Join(JoinAll(Groups(text, size)), NEWLINE) == text
    ensures IsCut(Groups(text, size), Split(text, NEWLINE), size)
  {
    hide Join, Split, Greedy;
    var lines := Split(text, NEWLINE);
    GreedyIsCut([lines[0]], lines[1..], size);
    assert [lines[0]] + lines[1..] == lines;
    JoinGroups(Groups(text, size));
    JoinSplit(text, NEWLINE);
  }

  // ---- no cut is shorter ------------------------------------------------------------------

  lemma {:induction false} WeightConcat(x: seq<string>, y: seq<string>)
    ensures Weight(x + y) == Weight(x) + Weight(y)
  {
    if y == [] {
      assert x + y == x;
    } else {
      WeightConcat(x, y[..|y| - 1]);
      assert (x + y)[..|x + y| - 1] == x + y[..|y| - 1];
    }
  }

  /** Opening with more lines costs at least as much, and at most one chunk more. */
  lemma {:induction false} HeavierStart(y: seq<string>, z: seq<string>, lines: seq<string>, size: nat)
    requires z != []
    ensures |Greedy(z, lines, size)| <= |Greedy(y + z, lines, size)| <= 1 + |Greedy(z, lines, size)|
    decreases |lines|
  {
    if lines != [] {
      var (l, rest) := (lines[0], lines[1..]);
      WeightConcat(y, z);
      HeavierStart(y, z + [l], rest, size);
      assert y + z + [l] == y + (z + [l]);
      HeavierStart(z, [l], rest, size);
    }
  }

  /** No cut of the same lines that keeps `cur` together in its first group is shorter. */
  lemma {:induction false} GreedyIsShortest(cur: seq<string>, lines: seq<string>, size: nat, groups: seq<seq<string>>)
    requires cur != [] && groups != [] && IsCut(groups, cur + lines, size) && |cur| <= |groups[0]|
    ensures |Greedy(cur, lines, size)| <= |groups|
    decreases |lines|
  {
    if lines != [] {
      var (l, rest, g) := (lines[0], lines[1..], groups[0]);
      assert g in groups && cur + lines == g + Flatten(groups[1..]);
      assert [l] + rest == lines;
      if |g| > |cur| {
        var more := g[|cur| + 1..];
        assert g == cur + [l] + more by {
          assert g == (cur + lines)[..|g|];
        }
        WeightConcat(cur + [l], more);
        WeightConcat(cur, [l]);
        WeightOne(l);
        assert cur + lines == cur + [l] + rest;
        GreedyIsShortest(cur + [l], rest, size, groups);
      } else {
        assert Flatten(groups[1..]) == (cur + lines)[|cur|..] == lines;
        FirstNonEmpty(groups[1..], size);
        GreedyIsShortest([l], rest, size, groups[1..]);
        HeavierStart(cur, [l], rest, size);
      }
    }
  }

  lemma WeightOne(l: string)
    ensures Weight([l]) == |l| + 1
  {
    assert [l][..0] == [];
  }

  lemma FirstNonEmpty(groups: seq<seq<string>>, size: nat)
    requires Flatten(groups) != [] && forall g :: g in groups ==> Allowed(g, size)
    ensures groups != [] && groups[0] != []
  {
    assert groups[0] in groups;
  }

  /** No other way of cutting the text at line boundaries under the same rule uses fewer chunks. */
  lemma ChunksAreFewest(text: string, size: nat, groups: seq<seq<string>>)
    requires IsCut(groups, Split(text, NEWLINE), size)
    ensures |Groups(text, size)| <= |groups|
  {
    hide Split, Greedy;
    var lines := Split(text, NEWLINE);
    FirstNonEmpty(groups, size);
    assert [lines[0]] + lines[1..] == lines;
    GreedyIsShortest([lines[0]], lines[1..], size, groups);
  }

  // ---- the chunks as texts ------------------------------------------------------------------

  /** The chunk is one line, or with a newline at its end within the size. */
  ghost predicate Fits(chunk: string, size: nat) {
    '\n' !in chunk || |chunk| + 1 <= size
  }

  ghost predicate Lines(group: seq<string>) {
    group != [] && forall l :: l in group ==> '\n' !in l
  }

  lemma {:induction false} WeighsItsText(group: seq<string>)
    requires group != []
    ensures Weight(group) == |Join(group, NEWLINE)| + 1
  {
    if |group| == 1 {
      JoinOne(group[0], NEWLINE);
      WeightOne(group[0]);
      assert group == [group[0]];
    } else {
      var rest := group[1..];
      WeighsItsText(rest);
      JoinCons(group[0], rest, NEWLINE);
      WeightConcat([group[0]], rest);
      WeightOne(group[0]);
      assert group == [group[0]] + rest;
    }
  }

  lemma {:induction false} SplitLines(group: seq<string>)
    requires Lines(group)
    ensures Split(Join(group, NEWLINE), NEWLINE) == group
    ensures '\n' in Join(group, NEWLINE) <==> |group| > 1
  {
    hide Split, Join, Clean;
    forall l | l in group ensures Clean(l, NEWLINE) {
      CleanChar(l, '\n');
    }
    SplitJoin(group, NEWLINE);
    if |group| == 1 {
      JoinOne(group[0], NEWLINE);
      assert group == [group[0]] && group[0] in group;
    } else {
      JoinCons(group[0], group[1..], NEWLINE);
      assert group == [group[0]] + group[1..];
      assert NEWLINE[0] == '\n';
      assert Join(group, NEWLINE)[|group[0]|] == '\n';
    }
  }

  /** A group of lines is allowed exactly if its text fits. */
  lemma AllowedIsFits(group: seq<string>, size: nat)
    requires Lines(group)
    ensures Allowed(group, size) <==> Fits(Join(group, NEWLINE), size)
  {
    hide Join;
    WeighsItsText(group);
    SplitLines(group);
  }

  /** The chunks joined with newlines are the text, and each fits. */
  lemma ChunksFit(text: string, size: nat)
    ensures var chunks := JoinAll(Groups(text, size));
            chunks != [] && Join(chunks, "\n") == text && forall c :: c in chunks ==> Fits(c, size)
  {
    hide Join, Split, Groups, Fits, Allowed;
    var (groups, lines) := (Groups(text, size), Split(text, NEWLINE));
    ChunksRoundTrip(text, size);
    SplitCharFree(text, '\n');
    FlattenSome(groups);
    forall c | c in JoinAll(groups) ensures Fits(c, size) {
      var i :| 0 <= i < |groups| && c == Join(groups[i], NEWLINE);
      assert groups[i] in groups;
      FlattenHolds(groups, i);
      AllowedIsSome(groups[i], size);
      AllowedIsFits(groups[i], size);
    }
  }

  lemma AllowedIsSome(group: seq<string>, size: nat)
    ensures Allowed(group, size) ==> group != []
  {
  }

  lemma FlattenSome(groups: seq<seq<string>>)
    ensures Flatten(groups) != [] ==> groups != []
  {
  }

  lemma {:induction false} FlattenHolds(groups: seq<seq<string>>, i: nat)
    requires i < |groups|
    ensures forall l :: l in groups[i] ==> l in Flatten(groups)
  {
    if i > 0 {
      FlattenHolds(groups[1..], i - 1);
      assert groups[1..][i - 1] == groups[i];
    }
  }

  ghost function SplitAll(texts: seq<string>): (groups: seq<seq<string>>)
    ensures |groups| == |texts| && forall i :: 0 <= i < |texts| ==> groups[i] == Split(texts[i], NEWLINE)
  {
    seq(|texts|, i requires 0 <= i < |texts| => Split(texts[i], NEWLINE))
  }

  lemma {:induction false} LinesOfAll(texts: seq<string>)
    requires texts != []
    ensures Flatten(SplitAll(texts)) == Split(Join(texts, NEWLINE), NEWLINE)
    decreases |texts|
  {
    hide Split, Join;
    var (first, rest) := (texts[0], texts[1..]);
    assert SplitAll(texts)[1..] == SplitAll(rest);
    SplitCharFree(first, '\n');
    JoinSplit(first, NEWLINE);
    if rest == [] {
      assert SplitAll(rest) == [] && texts == [first];
      JoinOne(first, NEWLINE);
      assert Split(first, NEWLINE) + [] == Split(first, NEWLINE);
    } else {
      LinesOfAll(rest);
      var (x, y) := (Split(first, NEWLINE), Split(Join(rest, NEWLINE), NEWLINE));
      SplitCharFree(Join(rest, NEWLINE), '\n');
      JoinSplit(Join(rest, NEWLINE), NEWLINE);
      JoinConcat(x, y);
      JoinCons(first, rest, NEWLINE);
      assert texts == [first] + rest;
      SplitLines(x + y);
    }
  }

  /** Nobody who cuts the text into fitting chunks at line ends needs fewer. */
  lemma NoFewerChunks(text: string, size: nat, texts: seq<string>)
    requires texts != [] && Join(texts, "\n") == text && forall t :: t in texts ==> Fits(t, size)
    ensures |JoinAll(Groups(text, size))| <= |texts|
  {
    hide Join, Split, Groups, Fits, Allowed;
    var groups := SplitAll(texts);
    LinesOfAll(texts);
    forall g | g in groups ensures Allowed(g, size) {
      var i :| 0 <= i < |groups| && g == groups[i];
      assert texts[i] in texts;
      SplitCharFree(texts[i], '\n');
      JoinSplit(texts[i], NEWLINE);
      AllowedIsFits(g, size);
    }
    ChunksAreFewest(text, size, groups);
  }
}
