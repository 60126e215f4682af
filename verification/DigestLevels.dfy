/** `build_digest`: the sections, the eviction loop, and the closed form of its result. */
module DigestLevels {
  import opened Text
  import opened Digest
  import opened DigestSections

  // ---- levels -----------------------------------------------------------------------------

  ghost function Prefix(bullets: seq<string>, n: nat): seq<string> {
    if |bullets| <= n then bullets else bullets[..n]
  }

  /** The water-level cut: the first `t` sections keep their first m + 1 facts, the others m. */
  ghost function Level(secs: seq<Block>, m: nat, t: nat): (blocks: seq<Block>)
    ensures |blocks| == |secs|
  {
    seq(|secs|, s requires 0 <= s < |secs| => secs[s].(bullets := Prefix(secs[s].bullets, if s < t then m + 1 else m)))
  }

  ghost predicate Below(x: seq<Block>, y: seq<Block>) {
    |x| == |y| && forall s :: 0 <= s < |x| ==> |x[s].bullets| <= |y[s].bullets|
  }

  /** The victim of a level is where the next lower level starts. */
  lemma EvictLowers(secs: seq<Block>, m: nat, t: nat)
    requires secs != []
    requires var blocks := Level(secs, m, t); blocks[Victim(blocks)].bullets != []
    ensures var (blocks, v) := (Level(secs, m, t), Victim(Level(secs, m, t)));
            blocks[v := DropLast(blocks[v])] == Level(secs, |blocks[v].bullets| - 1, v)
  {
    hide Victim;
    var blocks := Level(secs, m, t);
    var v := Victim(blocks);
    var (k, next) := (|blocks[v].bullets|, blocks[v := DropLast(blocks[v])]);
    forall s | 0 <= s < |secs| ensures next[s] == Level(secs, k - 1, v)[s] {
      if s == v {
        PrefixShorter(secs[v].bullets, if v < t then m + 1 else m);
      }
    }
  }

  lemma PrefixShorter(bullets: seq<string>, n: nat)
    requires Prefix(bullets, n) != []
    ensures Prefix(bullets, n)[..|Prefix(bullets, n)| - 1] == Prefix(bullets, |Prefix(bullets, n)| - 1)
  {
  }

  /** Every level is either at or below the next one, or at or above the present one. */
  lemma NoLevelBetween(secs: seq<Block>, m: nat, t: nat, m': nat, t': nat)
    requires secs != []
    requires var blocks := Level(secs, m, t); blocks[Victim(blocks)].bullets != []
    ensures var (blocks, v) := (Level(secs, m, t), Victim(Level(secs, m, t)));
            Below(Level(secs, m', t'), Level(secs, |blocks[v].bullets| - 1, v)) || Below(blocks, Level(secs, m', t'))
  {
    hide Victim;
    var blocks := Level(secs, m, t);
    var v := Victim(blocks);
    var k := |blocks[v].bullets|;
    if m' < k - 1 || (m' == k - 1 && t' <= v) {
      assert Below(Level(secs, m', t'), Level(secs, k - 1, v));
    } else {
      assert Below(blocks, Level(secs, m', t'));
    }
  }

  lemma {:induction false} SizePrefix(lines: seq<string>, n: nat)
    requires n <= |lines|
    ensures Size(lines[..n]) <= Size(lines)
  {
    SizeConcat(lines[..n], lines[n..]);
    assert lines == lines[..n] + lines[n..];
  }

  lemma ShownSize(b: Block, n: nat, n': nat)
    requires |Prefix(b.bullets, n)| <= |Prefix(b.bullets, n')|
    ensures Size(Shown(b.(bullets := Prefix(b.bullets, n)))) <= Size(Shown(b.(bullets := Prefix(b.bullets, n'))))
  {
    hide Size;
    var (x, y) := (Shown(b.(bullets := Prefix(b.bullets, n))), Shown(b.(bullets := Prefix(b.bullets, n'))));
    if x != [] {
      assert x == y[..|x|];
    }
    SizePrefix(y, |x|);
    if x == [] {
      assert y[..0] == [];
    }
  }

  ghost predicate CutOf(sec: Block, b: Block) {
    b == sec.(bullets := Prefix(sec.bullets, |b.bullets|))
  }

  ghost predicate Cuts(secs: seq<Block>, blocks: seq<Block>) {
    |blocks| == |secs| && forall s :: 0 <= s < |secs| ==> CutOf(secs[s], blocks[s])
  }

  /** A lower cut takes no more room. */
  lemma {:induction false} LowerIsSmaller(secs: seq<Block>, x: seq<Block>, y: seq<Block>)
    requires Cuts(secs, x) && Cuts(secs, y) && Below(x, y)
    ensures Size(Flat(x)) <= Size(Flat(y))
  {
    hide Size, Shown, Prefix;
    if secs != [] {
      var l := |secs| - 1;
      LowerIsSmaller(secs[..l], x[..l], y[..l]);
      SizeConcat(Flat(x[..l]), Shown(x[l]));
      SizeConcat(Flat(y[..l]), Shown(y[l]));
      assert CutOf(secs[l], x[l]) && CutOf(secs[l], y[l]);
      ShownSize(secs[l], |x[l].bullets|, |y[l].bullets|);
    }
  }

  lemma LevelIsCut(secs: seq<Block>, m: nat, t: nat)
    ensures Cuts(secs, Level(secs, m, t))
  {
  }

  lemma LevelSizes(secs: seq<Block>, m: nat, t: nat, m': nat, t': nat)
    requires Below(Level(secs, m, t), Level(secs, m', t'))
    ensures Size(Render(Level(secs, m, t))) <= Size(Render(Level(secs, m', t')))
  {
    hide Size, Flat, Level, Cuts;
    var (x, y) := (Level(secs, m, t), Level(secs, m', t'));
    LevelIsCut(secs, m, t);
    LevelIsCut(secs, m', t');
    LowerIsSmaller(secs, x, y);
    SizeConcat([TITLE], Flat(x));
    SizeConcat([TITLE], Flat(y));
  }

  // ---- the eviction loop ------------------------------------------------------------------

  ghost predicate Fits(secs: seq<Block>, m: nat, t: nat) {
    Size(Render(Level(secs, m, t))) <= 1600
  }

  ghost predicate HighestBound(secs: seq<Block>, m: nat, t: nat) {
    forall m': nat, t': nat :: Fits(secs, m', t') ==> Below(Level(secs, m', t'), Level(secs, m, t))
  }

  /** A level within the cap that no other level within the cap goes beyond in any section. */
  ghost predicate HighestFit(secs: seq<Block>, m: nat, t: nat) {
    Fits(secs, m, t) && HighestBound(secs, m, t)
  }

  /** Two highest levels keep the same facts. */
  lemma HighestFitIsOne(secs: seq<Block>, m: nat, t: nat, m': nat, t': nat)
    requires HighestFit(secs, m, t) && HighestFit(secs, m', t')
    ensures Level(secs, m, t) == Level(secs, m', t')
  {
    hide Fits, Level, Prefix;
    var (x, y) := (Level(secs, m, t), Level(secs, m', t'));
    LevelIsCut(secs, m, t);
    LevelIsCut(secs, m', t');
    forall s | 0 <= s < |secs| ensures x[s] == y[s] {
      assert CutOf(secs[s], x[s]) && CutOf(secs[s], y[s]);
    }
  }

  lemma LevelIsProper(secs: seq<Block>, m: nat, t: nat)
    requires forall b :: b in secs ==> Proper(b)
    ensures forall b :: b in Level(secs, m, t) ==> Proper(b)
  {
    forall b | b in Level(secs, m, t) ensures Proper(b) {
      var s :| 0 <= s < |secs| && b == Level(secs, m, t)[s];
      assert secs[s] in secs;
    }
  }

  lemma LevelIsBelow(secs: seq<Block>, m: nat, t: nat)
    ensures Below(Level(secs, m, t), secs)
  {
  }

  lemma FullLevel(secs: seq<Block>, m: nat)
    requires forall b :: b in secs ==> |b.bullets| <= m
    ensures Level(secs, m, 0) == secs
    ensures HighestBound(secs, m, 0)
  {
    hide Below, Fits;
    forall s | 0 <= s < |secs| ensures Level(secs, m, 0)[s] == secs[s] {
      assert secs[s] in secs;
    }
    assert Level(secs, m, 0) == secs;
    forall m': nat, t': nat ensures Below(Level(secs, m', t'), Level(secs, m, 0)) {
      LevelIsBelow(secs, m', t');
    }
  }

  lemma LongestBullets(secs: seq<Block>) returns (m: nat)
    ensures forall b :: b in secs ==> |b.bullets| <= m
  {
    m := if secs == [] then 0 else |secs[Victim(secs)].bullets|;
  }

  lemma {:induction false} NothingShown(blocks: seq<Block>)
    requires forall b :: b in blocks ==> b.bullets == []
    ensures Flat(blocks) == []
  {
    if blocks != [] {
      NothingShown(blocks[..|blocks| - 1]);
    }
  }

  /** More than the title is shown only if the fullest section shows a bullet. */
  lemma SomethingShown(blocks: seq<Block>)
    requires |Render(blocks)| > 1
    ensures blocks != [] && blocks[Victim(blocks)].bullets != []
  {
    hide Victim;
    if blocks == [] || blocks[Victim(blocks)].bullets == [] {
      NothingShown(blocks);
      assert false;
    }
  }

  lemma {:induction false} AtMostFourBytes(s: string)
    ensures ByteLen(s) <= 4 * |s|
  {
    if s != [] {
      AtMostFourBytes(s[..|s| - 1]);
    }
  }

  lemma TitleFits()
    ensures Size([TITLE]) <= DIGEST_CAP
  {
    hide ByteLen;
    AtMostFourBytes(TITLE);
    assert |TITLE| < 100;
    assert [TITLE][..0] == [];
  }

  /** One turn moves to the next lower level, and no level in between fits. */
  lemma NextLevel(secs: seq<Block>, m: nat, t: nat)
    requires (forall b :: b in secs ==> Proper(b)) && HighestBound(secs, m, t) && !Fits(secs, m, t)
    requires |Render(Level(secs, m, t))| > 1
    ensures secs != []
    ensures var lines := Render(Level(secs, m, t));
            var (v, choice) := (Victim(Level(secs, m, t)), Choice(Sections(lines, |lines|)));
            var k := |Level(secs, m, t)[v].bullets|;
            && choice.Some? && choice.value < |lines| && k > 0
            && HighestBound(secs, k - 1, v)
            && var rest := lines[..choice.value] + lines[choice.value + 1..];
               Unorphaned(rest, |rest|) == Render(Level(secs, k - 1, v))
  {
    hide Proper, Victim, Choice, Sections, Unorphaned, Level, Render, LastLine, Below, DropLast;
    var blocks := Level(secs, m, t);
    SomethingShown(blocks);
    LevelIsProper(secs, m, t);
    ChoiceIsVictim(blocks);
    TurnEvicts(blocks);
    EvictLowers(secs, m, t);
    var v := Victim(blocks);
    var k := |blocks[v].bullets|;
    forall m': nat, t': nat | Fits(secs, m', t') ensures Below(Level(secs, m', t'), Level(secs, k - 1, v)) {
      NoLevelBetween(secs, m, t, m', t');
      if Below(blocks, Level(secs, m', t')) {
        LevelSizes(secs, m, t, m', t');
        assert false;
      }
    }
  }

  lemma RemovedOneIsFewer(lines: seq<string>, i: nat)
    requires i < |lines|
    ensures var rest := lines[..i] + lines[i + 1..]; |Unorphaned(rest, |rest|)| < |lines|
  {
    var rest := lines[..i] + lines[i + 1..];
    UnorphanedIsFewer(rest, |rest|);
  }

  lemma {:induction false} UnorphanedIsFewer(lines: seq<string>, n: nat)
    requires n <= |lines|
    ensures |Unorphaned(lines, n)| <= n
  {
    if n > 0 {
      UnorphanedIsFewer(lines, n - 1);
    }
  }

  method Evict(full: seq<string>, ghost secs: seq<Block>) returns (lines: seq<string>)
    requires (forall b :: b in secs ==> Proper(b)) && full == Render(secs)
    ensures Size(lines) <= DIGEST_CAP
    ensures exists m: nat, t: nat :: HighestFit(secs, m, t) && lines == Render(Level(secs, m, t))
  {
    hide Proper, Choice, Sections, Unorphaned, Level, Flat, Size, HighestBound;
    lines := full;
    ghost var m := LongestBullets(secs);
    ghost var t := 0;
    FullLevel(secs, m);
    TitleFits();
    while |lines| > 1 && Size(lines) > DIGEST_CAP
      invariant lines == Render(Level(secs, m, t)) && HighestBound(secs, m, t)
      decreases |lines|
    {
      NextLevel(secs, m, t);
      var sections := Group(lines);
      var victim := Choice(sections);
      var rest: seq<string>;
      match victim {
        case Some(i) =>
          RemovedOneIsFewer(lines, i);
          rest := lines[..i] + lines[i + 1..];
        case None =>
          assert false;
      }
      ghost var v := Victim(Level(secs, m, t));
      lines := DropOrphans(rest);
      m, t := |Level(secs, m, t)[v].bullets| - 1, v;
    }
    assert lines[0] == TITLE && (|lines| == 1 ==> lines == [TITLE]);
    assert HighestFit(secs, m, t);
  }

  // ---- the whole digest -------------------------------------------------------------------

  method BulletLinesOf(facts: seq<string>) returns (lines: seq<string>)
    ensures lines == Bullets(facts)
  {
    lines := [];
    for i := 0 to |facts|
      invariant |lines| == i && forall j :: 0 <= j < i ==> lines[j] == "- " + facts[j]
    {
      lines := lines + ["- " + facts[i]];
    }
  }

  method ShowSection(lines: seq<string>, header: string, facts: seq<string>) returns (r: seq<string>)
    ensures r == lines + Shown(Block(header, Bullets(facts)))
  {
    r := lines;
    if facts != [] {
      var bullets := BulletLinesOf(facts);
      r := r + [header] + bullets;
      Regroup(lines, [header], bullets);
    }
  }

  lemma TitleJoined(lines: seq<string>)
    requires lines != [] && lines[0] != []
    ensures Join(lines, "\n") != []
  {
    if |lines| == 1 {
      JoinOne(lines[0], "\n");
      assert lines == [lines[0]];
    } else {
      JoinCons(lines[0], lines[1..], "\n");
      assert lines == [lines[0]] + lines[1..];
    }
  }

  lemma RenderThree(a: Block, b: Block, c: Block)
    ensures Render([a, b, c]) == [TITLE] + Shown(a) + Shown(b) + Shown(c)
  {
    hide Shown, Flat;
    RenderSnoc([], a);
    RenderSnoc([a], b);
    RenderSnoc([a, b], c);
    assert [] + [a] == [a] && [a] + [b] == [a, b] && [a, b] + [c] == [a, b, c];
    assert Flat([]) == [] by { FlatEmpty(); }
  }

  lemma FlatEmpty()
    ensures Flat([]) == []
  {
  }

  // ---- the digest's lines ---------------------------------------------------------------------

  ghost function Lead(blocks: seq<Block>, s: nat): nat
    requires s <= |blocks|
  {
    |Render(blocks[..s])|
  }

  /** Line `i` is bullet `k` of section `s`, below its header and earlier bullets. */
  ghost predicate LineOf(blocks: seq<Block>, lines: seq<string>, i: nat, s: nat, k: nat)
    requires s < |blocks|
  {
    && k < |blocks[s].bullets| && i == Lead(blocks, s) + 1 + k < |lines|
    && lines[i] == blocks[s].bullets[k] && lines[Lead(blocks, s)] == blocks[s].header
    && forall l :: Lead(blocks, s) < l <= i ==> IsBullet(lines[l])
  }

  lemma LineOfMore(init: seq<Block>, last: Block, i: nat, s: nat, k: nat)
    requires s < |init| && LineOf(init, Render(init), i, s, k)
    ensures LineOf(init + [last], Render(init + [last]), i, s, k)
  {
    hide Flat, Shown, IsBullet;
    RenderSnoc(init, last);
    assert (init + [last])[..s] == init[..s];
  }

  lemma LineOfLast(init: seq<Block>, last: Block, i: nat)
    requires Proper(last) && |Render(init)| < i < |Render(init + [last])|
    ensures LineOf(init + [last], Render(init + [last]), i, |init|, i - |Render(init)| - 1)
  {
    hide Flat, IsBullet, Render, IsHeader;
    RenderSnoc(init, last);
    assert (init + [last])[..|init|] == init;
    forall l | |Render(init)| < l <= i ensures IsBullet(Render(init + [last])[l]) {
      assert Render(init + [last])[l] == last.bullets[l - |Render(init)| - 1];
    }
  }

  /** Every bullet line is some bullet of some section. */
  lemma {:induction false} BulletLine(blocks: seq<Block>, i: nat) returns (s: nat, k: nat)
    requires (forall b :: b in blocks ==> Proper(b)) && i < |Render(blocks)| && IsBullet(Render(blocks)[i])
    ensures s < |blocks| && LineOf(blocks, Render(blocks), i, s, k)
    decreases |blocks|
  {
    hide Flat, Render, IsHeader, IsBullet, LineOf, Shown;
    if blocks == [] {
      NoBulletYet();
      assert false;
    } else {
      var (init, last) := (blocks[..|blocks| - 1], blocks[|blocks| - 1]);
      assert blocks == init + [last] && last in blocks;
      assert forall b :: b in init ==> b in blocks;
      RenderSnoc(init, last);
      if i < |Render(init)| {
        s, k := BulletLine(init, i);
        LineOfMore(init, last, i, s, k);
      } else {
        HeaderIsNoBullet(last.header);
        ShownHead(last);
        s, k := |init|, i - |Render(init)| - 1;
        LineOfLast(init, last, i);
      }
    }
  }

  lemma NoBulletYet()
    ensures Render([]) == [TITLE] && !IsBullet(Render([])[0])
  {
    TitleIsPlain();
    FlatEmpty();
  }

  lemma ShownHead(b: Block)
    ensures Shown(b) != [] ==> Shown(b)[0] == b.header
  {
  }

  lemma HeaderIsNoBullet(line: string)
    requires IsHeader(line)
    ensures !IsBullet(line)
  {
    assert line[0] == '*';
  }

  /** Line `i` shows position `n` of list `s`, below that list's header. */
  ghost predicate Stands(lists: seq<seq<string>>, headers: seq<string>, lines: seq<string>, i: nat, s: nat, n: nat, norm: string -> string)
    requires i < |lines| && |headers| == |lists|
  {
    && s < |lists| && n < |lists[s]| && Chosen(lists, s, n, norm) && lines[i] == "- " + lists[s][n]
    && exists k :: 0 <= k < i && lines[k] == headers[s] && forall l :: k < l <= i ==> "- " <= lines[l]
  }

  /** The title comes first; every bullet shows a fact of the list whose header it stands under, the first list that has it, and
      no two bullets have the same normal form. */
  ghost predicate Laid(lists: seq<seq<string>>, headers: seq<string>, lines: seq<string>, norm: string -> string)
    requires |headers| == |lists|
  {
    && lines != [] && lines[0] == "## " + "Long-term memory (paos) — surfaced at session start; judge relevance"
    && (forall i :: 0 <= i < |lines| && "- " <= lines[i] ==> exists s: nat, n: nat :: Stands(lists, headers, lines, i, s, n, norm))
    && (forall i, j :: 0 <= i < j < |lines| && "- " <= lines[i] && "- " <= lines[j] ==> norm(lines[i][2..]) != norm(lines[j][2..]))
  }

  ghost predicate Listed(lists: seq<seq<string>>, headers: seq<string>, secs: seq<Block>, norm: string -> string)
    requires |headers| == |lists| == |secs|
  {
    forall s :: 0 <= s < |secs| ==> secs[s].header == headers[s] && Told(lists, s, secs[s].bullets, norm)
  }

  ghost function Headers(proj: string): seq<string> {
    ["**" + "Standing preferences:**",
     "**" + "Learned the hard way (recurred across sessions):**",
     "**This project (" + (if proj == [] then "current" else proj) + "):**"]
  }

  lemma LineTells(lists: seq<seq<string>>, headers: seq<string>, secs: seq<Block>, blocks: seq<Block>, i: nat, norm: string -> string)
    returns (s: nat, k: nat, ix: seq<nat>)
    requires |headers| == |lists| == |secs| && Cuts(secs, blocks) && (forall b :: b in blocks ==> Proper(b))
    requires Listed(lists, headers, secs, norm)
    requires i < |Render(blocks)| && IsBullet(Render(blocks)[i])
    ensures s < |secs| && Shows(lists, s, secs[s].bullets, norm, ix) && k < |ix| && i == Lead(blocks, s) + 1 + k
    ensures Stands(lists, headers, Render(blocks), i, s, ix[k], norm)
  {
    hide Flat, Chosen, Lead, Render;
    s, k := BulletLine(blocks, i);
    assert LineOf(blocks, Render(blocks), i, s, k);
    ix :| Shows(lists, s, secs[s].bullets, norm, ix);
    assert CutOf(secs[s], blocks[s]);
    assert ix[k] in ix && Chosen(lists, s, ix[k], norm);
    var lead := Lead(blocks, s);
    assert Render(blocks)[lead] == headers[s];
  }

  lemma TwoLines(lists: seq<seq<string>>, s: nat, n: nat, s': nat, n': nat, norm: string -> string)
    requires s < |lists| && s' < |lists| && n < |lists[s]| && n' < |lists[s']| && (s, n) != (s', n')
    requires Chosen(lists, s, n, norm) && Chosen(lists, s', n', norm)
    ensures norm(lists[s][n]) != norm(lists[s'][n'])
  {
  }

  lemma CutsAreLaid(lists: seq<seq<string>>, headers: seq<string>, secs: seq<Block>, blocks: seq<Block>, norm: string -> string)
    requires |headers| == |lists| == |secs| && Cuts(secs, blocks) && (forall b :: b in blocks ==> Proper(b))
    requires Listed(lists, headers, secs, norm)
    ensures Laid(lists, headers, Render(blocks), norm)
  {
    hide Flat, Chosen, Lead, Render, Cuts, Proper, Listed, Stands;
    TitleFirst(blocks);
    var lines := Render(blocks);
    forall i | 0 <= i < |lines| && "- " <= lines[i] ensures exists s: nat, n: nat :: Stands(lists, headers, lines, i, s, n, norm) {
      var s, k, ix := LineTells(lists, headers, secs, blocks, i, norm);
    }
    forall i, j | 0 <= i < j < |lines| && "- " <= lines[i] && "- " <= lines[j] ensures norm(lines[i][2..]) != norm(lines[j][2..]) {
      LinesDiffer(lists, headers, secs, blocks, i, j, norm);
    }
  }

  lemma TitleFirst(blocks: seq<Block>)
    ensures Render(blocks) != [] && Render(blocks)[0] == "## " + "Long-term memory (paos) — surfaced at session start; judge relevance"
  {
    hide Flat;
  }

  lemma LinesDiffer(lists: seq<seq<string>>, headers: seq<string>, secs: seq<Block>, blocks: seq<Block>, i: nat, j: nat, norm: string -> string)
    requires |headers| == |lists| == |secs| && Cuts(secs, blocks) && (forall b :: b in blocks ==> Proper(b))
    requires Listed(lists, headers, secs, norm)
    requires i < j < |Render(blocks)| && IsBullet(Render(blocks)[i]) && IsBullet(Render(blocks)[j])
    ensures norm(Render(blocks)[i][2..]) != norm(Render(blocks)[j][2..])
  {
    hide Flat, Chosen, Render, Cuts, Proper, Lead, Listed;
    var s, k, ix := LineTells(lists, headers, secs, blocks, i, norm);
    var s', k', ix' := LineTells(lists, headers, secs, blocks, j, norm);
    var (n, n') := (ix[k], ix'[k']);
    if s == s' && n == n' {
      OnePlace(lists, s, secs[s].bullets, norm, ix, ix', k, k');
      assert false;
    }
    TwoLines(lists, s, n, s', n', norm);
    assert ("- " + lists[s][n])[2..] == lists[s][n] && ("- " + lists[s'][n'])[2..] == lists[s'][n'];
  }

  lemma OnePlace(lists: seq<seq<string>>, s: nat, bullets: seq<string>, norm: string -> string, ix: seq<nat>, ix': seq<nat>, k: nat, k': nat)
    requires s < |lists| && Shows(lists, s, bullets, norm, ix) && Shows(lists, s, bullets, norm, ix')
    requires k < |ix| && k' < |ix'| && ix[k] == ix'[k']
    ensures k == k'
  {
    hide Chosen;
    assert forall i :: i in ix <==> i in ix';
    SameRising(ix, ix');
  }

  lemma {:induction false} SameRising(x: seq<nat>, y: seq<nat>)
    requires (forall k, l :: 0 <= k < l < |x| ==> x[k] < x[l]) && (forall k, l :: 0 <= k < l < |y| ==> y[k] < y[l])
    requires |x| == |y| && forall i :: i in x <==> i in y
    ensures x == y
  {
    if x != [] {
      var (a, b) := (x[|x| - 1], y[|y| - 1]);
      assert a in y && b in x;
      var p :| 0 <= p < |y| && y[p] == a;
      var r :| 0 <= r < |x| && x[r] == b;
      assert a == b;
      var (x', y') := (x[..|x| - 1], y[..|y| - 1]);
      assert x == x' + [a] && y == y' + [a];
      assert a !in x' && a !in y';
      forall i ensures i in x' <==> i in y' {
        assert i in x <==> i in x' || i == a;
        assert i in y <==> i in y' || i == a;
      }
      SameRising(x', y');
    }
  }

  lemma {:induction false} JoinedSize(lines: seq<string>)
    requires lines != []
    ensures ByteLen(Join(lines, "\n")) + 1 == Size(lines)
  {
    hide ByteLen;
    if |lines| == 1 {
      JoinOne(lines[0], "\n");
      assert lines == [lines[0]] && lines[..0] == [];
    } else {
      var (first, rest) := (lines[0], lines[1..]);
      assert lines == [first] + rest && [first][..0] == [];
      JoinedSize(rest);
      JoinCons(first, rest, "\n");
      SizeConcat([first], rest);
      ByteLenConcat(first + "\n", Join(rest, "\n"));
      ByteLenConcat(first, "\n");
      OneByte();
    }
  }

  lemma OneByte()
    ensures ByteLen("\n") == 1
  {
    assert "\n"[..0] == [];
  }

  lemma {:induction false} ByteLenConcat(x: string, y: string)
    ensures ByteLen(x + y) == ByteLen(x) + ByteLen(y)
  {
    hide CharBytes;
    if y == [] {
      assert x + y == x;
    } else {
      ByteLenConcat(x, y[..|y| - 1]);
      assert (x + y)[..|x + y| - 1] == x + y[..|y| - 1];
    }
  }

  lemma WantedIsLaid(prefs: seq<string>, lessons: seq<string>, project: seq<string>, proj: string, norm: string -> string, m: nat, t: nat)
    ensures var secs := Wanted(prefs, lessons, project, proj, norm);
            Laid(Lists(prefs, lessons, project), Headers(proj), Render(Level(secs, m, t)), norm)
  {
    hide Render, Level, Laid, Told, Wanted, Cuts, Proper;
    var secs := Wanted(prefs, lessons, project, proj, norm);
    WantedShows(prefs, lessons, project, proj, norm);
    LevelIsCut(secs, m, t);
    LevelIsProper(secs, m, t);
    CutsAreLaid(Lists(prefs, lessons, project), Headers(proj), secs, Level(secs, m, t), norm);
  }

  lemma NothingWantedIff(prefs: seq<string>, lessons: seq<string>, project: seq<string>, proj: string, norm: string -> string)
    ensures (forall b :: b in Wanted(prefs, lessons, project, proj, norm) ==> b.bullets == [])
       <==> forall f :: f in prefs + lessons + project ==> norm(f) == ""
  {
    hide Fresh, Keys;
    FreshOnce(prefs, lessons, project, norm);
    var (k, secs) := (Keys(prefs, norm), Wanted(prefs, lessons, project, proj, norm));
    var (x, y, z) := (Fresh(prefs, {}, norm), Fresh(lessons, k, norm), Fresh(project, k + Keys(lessons, norm), norm));
    assert secs == [secs[0], secs[1], secs[2]];
    assert secs[0] in secs && secs[1] in secs && secs[2] in secs;
    assert |secs[0].bullets| == |x| && |secs[1].bullets| == |y| && |secs[2].bullets| == |z|;
    assert (forall b :: b in secs ==> b.bullets == []) <==> x + y + z == [];
    var given := prefs + lessons + project;
    NoKeysIff(x + y + z, {[]}, norm);
    NoKeysIff(given, {[]}, norm);
    assert Keys(x + y + z, norm) == Keys(given, norm) - {[]};
  }

  lemma NoKeysIff(facts: seq<string>, blank: set<string>, norm: string -> string)
    ensures Keys(facts, norm) - blank == {} <==> forall f :: f in facts ==> norm(f) in blank
    ensures Keys(facts, norm) == {} <==> facts == []
  {
    var keys := Keys(facts, norm);
    forall f | f in facts ensures norm(f) in keys {
    }
    if facts != [] {
      assert facts[0] in facts && norm(facts[0]) in keys;
    }
    if keys - blank == {} {
      forall f | f in facts ensures norm(f) in blank {
        assert norm(f) !in keys - blank;
      }
    } else {
      var k :| k in keys - blank;
    }
  }

  method BuildDigest(prefs: seq<string>, lessons: seq<string>, project: seq<string>, proj: string, norm: string -> string)
    returns (digest: string)
    ensures var secs := Wanted(prefs, lessons, project, proj, norm);
            if forall b :: b in secs ==> b.bullets == [] then digest == ""
            else exists m: nat, t: nat :: HighestFit(secs, m, t) && digest == Join(Render(Level(secs, m, t)), "\n")
    ensures digest == "" <==> forall f :: f in prefs + lessons + project ==> norm(f) == ""
    ensures digest != "" ==> exists lines ::
              digest == Join(lines, "\n") && ByteLen(digest) < 1600 && Laid(Lists(prefs, lessons, project), Headers(proj), lines, norm)
  {
    hide Fresh, Keys, Size, Level, HighestFit, Flat, Proper, Join, Laid, ByteLen;
    NothingWantedIff(prefs, lessons, project, proj, norm);
    var p, seen := TakeFresh(prefs, {}, norm);
    var ls, seen' := TakeFresh(lessons, seen, norm);
    var pj, _ := TakeFresh(project, seen', norm);
    ghost var k := Keys(prefs, norm);
    assert {} + k + {[]} == k + {[]};
    FreshBlank(lessons, seen, k, norm);
    assert seen + Keys(lessons, norm) + {[]} == seen + {[]} + Keys(lessons, norm) == k + Keys(lessons, norm) + {[]};
    FreshBlank(project, seen', k + Keys(lessons, norm), norm);
    ghost var secs := Wanted(prefs, lessons, project, proj, norm);
    assert secs[0].bullets == Bullets(p) && secs[1].bullets == Bullets(ls) && secs[2].bullets == Bullets(pj);
    if p == [] && ls == [] && pj == [] {
      return "";
    }
    assert secs[0] in secs && secs[1] in secs && secs[2] in secs;
    var lines := [TITLE];
    lines := ShowSection(lines, PREFS, p);
    lines := ShowSection(lines, LESSONS, ls);
    lines := ShowSection(lines, ProjectHeader(proj), pj);
    RenderThree(secs[0], secs[1], secs[2]);
    assert secs == [secs[0], secs[1], secs[2]];
    lines := Evict(lines, secs);
    ghost var m: nat, t: nat :| HighestFit(secs, m, t) && lines == Render(Level(secs, m, t));
    WantedIsLaid(prefs, lessons, project, proj, norm, m, t);
    JoinedSize(lines);
    digest := Join(lines, "\n");
    TitleJoined(lines);
  }

  /** No header is shown without a bullet beneath it, at any level. */
  lemma {:induction false} NoBareHeader(blocks: seq<Block>, i: nat)
    requires (forall b :: b in blocks ==> Proper(b)) && i < |Render(blocks)| && IsHeader(Render(blocks)[i])
    ensures i + 1 < |Render(blocks)| && IsBullet(Render(blocks)[i + 1])
  {
    hide Flat, IsHeader, IsBullet;
    TitleIsPlain();
    if blocks == [] {
      FlatEmpty();
      assert false;
    } else {
      var (init, last) := (blocks[..|blocks| - 1], blocks[|blocks| - 1]);
      assert blocks == init + [last] && last in blocks;
      assert forall b :: b in init ==> b in blocks;
      RenderSnoc(init, last);
      if i < |Render(init)| {
        NoBareHeader(init, i);
      } else if i > |Render(init)| {
        assert Render(blocks)[i] == last.bullets[i - |Render(init)| - 1];
        BulletIsNoHeader(Render(blocks)[i]);
        assert false;
      }
    }
  }
}
