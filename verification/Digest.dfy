/** The session digest: facts under section headers, evicted one by one until they fit. */
module Digest {
  import opened Text

  const DIGEST_CAP := 1600
  const TITLE: string := "## " + "Long-term memory (paos) — surfaced at session start; judge relevance"

  /** A section as shown: its header line and its bullet lines. */
  datatype Block = Block(header: string, bullets: seq<string>)

  // ---- sizes ------------------------------------------------------------------------------

  function CharBytes(c: char): nat {
    var n := c as int;
    if n < 0x80 then 1 else if n < 0x800 then 2 else if n < 0x1_0000 then 3 else 4
  }

  /** The character's bytes in UTF-8, as section 3 of RFC 3629 has them. */
  ghost function Utf8(c: char): seq<int> {
    var n := c as int;
    if n < 0x80 then [n]
    else if n < 0x800 then [0xC0 + n / 64, 0x80 + n % 64]
    else if n < 0x1_0000 then [0xE0 + n / 4096, 0x80 + n / 64 % 64, 0x80 + n % 64]
    else [0xF0 + n / 0x4_0000, 0x80 + n / 4096 % 64, 0x80 + n / 64 % 64, 0x80 + n % 64]
  }

  /** What a first byte says of the length. */
  ghost function WidthOf(lead: int): nat {
    if lead < 0x80 then 1 else if lead < 0xE0 then 2 else if lead < 0xF0 then 3 else 4
  }

  ghost function Decoded(bytes: seq<int>): int
    requires 1 <= |bytes| <= 4
  {
    if |bytes| == 1 then bytes[0]
    else if |bytes| == 2 then (bytes[0] - 0xC0) * 64 + bytes[1] - 0x80
    else if |bytes| == 3 then ((bytes[0] - 0xE0) * 64 + bytes[1] - 0x80) * 64 + bytes[2] - 0x80
    else (((bytes[0] - 0xF0) * 64 + bytes[1] - 0x80) * 64 + bytes[2] - 0x80) * 64 + bytes[3] - 0x80
  }

  /** A character takes as many bytes as its encoding has, and reads back from them. */
  lemma Utf8Decodes(c: char)
    ensures var bytes := Utf8(c);
            && |bytes| == CharBytes(c) == WidthOf(bytes[0]) && Decoded(bytes) == c as int
            && (forall i :: 0 <= i < |bytes| ==> 0 <= bytes[i] < 0x100 && (i > 0 ==> 0x80 <= bytes[i] < 0xC0))
  {
    var n := c as int;
    assert n / 64 / 64 == n / 4096 && n / 4096 / 64 == n / 0x4_0000;
  }

  /** Length in UTF-8 bytes. */
  function ByteLen(s: string): nat {
    if s == [] then 0 else ByteLen(s[..|s| - 1]) + CharBytes(s[|s| - 1])
  }

  /** What the lines take, each with its newline. */
  function Size(lines: seq<string>): nat {
    if lines == [] then 0 else Size(lines[..|lines| - 1]) + ByteLen(lines[|lines| - 1]) + 1
  }

  lemma {:induction false} SizeConcat(x: seq<string>, y: seq<string>)
    ensures Size(x + y) == Size(x) + Size(y)
  {
    hide ByteLen;
    if y == [] {
      assert x + y == x;
    } else {
      SizeConcat(x, y[..|y| - 1]);
      assert (x + y)[..|x + y| - 1] == x + y[..|y| - 1];
    }
  }

  // ---- lines and blocks -------------------------------------------------------------------

  predicate IsHeader(line: string) {
    "**" <= line
  }

  predicate IsBullet(line: string) {
    "- " <= line
  }

  ghost predicate Proper(b: Block) {
    IsHeader(b.header) && forall l :: l in b.bullets ==> IsBullet(l)
  }

  /** The lines of one section; a section without bullets shows nothing, not even its header. */
  ghost function Shown(b: Block): seq<string> {
    if b.bullets == [] then [] else [b.header] + b.bullets
  }

  ghost function Flat(blocks: seq<Block>): seq<string> {
    if blocks == [] then [] else Flat(blocks[..|blocks| - 1]) + Shown(blocks[|blocks| - 1])
  }

  ghost function Render(blocks: seq<Block>): seq<string> {
    [TITLE] + Flat(blocks)
  }

  // ---- one eviction, on blocks ------------------------------------------------------------

  /** The fullest section, the last of them on ties. */
  ghost function Victim(blocks: seq<Block>): (v: nat)
    requires blocks != []
    ensures v < |blocks|
    ensures forall s :: 0 <= s < |blocks| ==> |blocks[s].bullets| <= |blocks[v].bullets|
    ensures forall s :: v < s < |blocks| ==> |blocks[s].bullets| < |blocks[v].bullets|
  {
    if |blocks| == 1 then 0
    else
      var (init, last) := (blocks[..|blocks| - 1], blocks[|blocks| - 1]);
      var v := Victim(init);
      if |last.bullets| >= |init[v].bullets| then |blocks| - 1 else v
  }

  ghost function DropLast(b: Block): Block
    requires b.bullets != []
  {
    b.(bullets := b.bullets[..|b.bullets| - 1])
  }

  // ---- one eviction, on lines -------------------------------------------------------------

  /** Bullet indices grouped by the header they sit under, reading the first `n` lines. */
  ghost function Sections(lines: seq<string>, n: nat): seq<seq<nat>>
    requires n <= |lines|
  {
    if n == 0 then []
    else
      var s := Sections(lines, n - 1);
      if IsHeader(lines[n - 1]) then s + [[]]
      else if IsBullet(lines[n - 1]) && s != [] then s[|s| - 1 := s[|s| - 1] + [n - 1]]
      else s
  }

  /** The fullest section with more than one bullet, the last of them on ties. */
  function Fullest(sections: seq<seq<nat>>): (r: Option<nat>)
    ensures r.Some? ==> r.value < |sections| && |sections[r.value]| > 1
  {
    if sections == [] then None
    else
      var (r, last) := (Fullest(sections[..|sections| - 1]), |sections| - 1);
      if |sections[last]| > 1 && (r.None? || |sections[last]| >= |sections[r.value]|) then Some(last) else r
  }

  /** The last section with any bullet. */
  function LastFilled(sections: seq<seq<nat>>): (r: Option<nat>)
    ensures r.Some? ==> r.value < |sections| && sections[r.value] != []
  {
    if sections == [] then None
    else if sections[|sections| - 1] != [] then Some(|sections| - 1)
    else LastFilled(sections[..|sections| - 1])
  }

  /** The line to evict. */
  function Choice(sections: seq<seq<nat>>): Option<nat> {
    match Fullest(sections)
    case Some(s) => Some(sections[s][|sections[s]| - 1])
    case None =>
      match LastFilled(sections)
      case Some(s) => Some(sections[s][|sections[s]| - 1])
      case None => None
  }

  /** Lines without the headers that no bullet follows. */
  ghost function Unorphaned(lines: seq<string>, n: nat): seq<string>
    requires n <= |lines|
  {
    if n == 0 then []
    else
      var kept := Unorphaned(lines, n - 1);
      if IsHeader(lines[n - 1]) && !(n < |lines| && IsBullet(lines[n])) then kept else kept + [lines[n - 1]]
  }

  method Group(lines: seq<string>) returns (sections: seq<seq<nat>>)
    ensures sections == Sections(lines, |lines|)
  {
    sections := [];
    for i := 0 to |lines|
      invariant sections == Sections(lines, i)
    {
      if IsHeader(lines[i]) {
        sections := sections + [[]];
      } else if IsBullet(lines[i]) {
        if sections != [] {
          sections := sections[|sections| - 1 := sections[|sections| - 1] + [i]];
        }
      }
    }
  }

  method DropOrphans(lines: seq<string>) returns (keep: seq<string>)
    ensures keep == Unorphaned(lines, |lines|)
  {
    keep := [];
    for i := 0 to |lines|
      invariant keep == Unorphaned(lines, i)
    {
      var orphan := IsHeader(lines[i]) && !(i + 1 < |lines| && IsBullet(lines[i + 1]));
      if !orphan {
        keep := keep + [lines[i]];
      }
    }
  }

  // ---- reading the sections back off the lines --------------------------------------------

  ghost function Range(lo: nat, hi: nat): seq<nat>
    requires lo <= hi
  {
    seq(hi - lo, i requires 0 <= i => lo + i)
  }

  /** The bullet positions of a block shown from line `p` on. */
  ghost function SpanAfter(p: nat, b: Block): seq<seq<nat>> {
    if b.bullets == [] then [] else [Range(p + 1, p + 1 + |b.bullets|)]
  }

  ghost function Spans(blocks: seq<Block>): seq<seq<nat>> {
    if blocks == [] then []
    else
      var (init, last) := (blocks[..|blocks| - 1], blocks[|blocks| - 1]);
      Spans(init) + SpanAfter(|Render(init)|, last)
  }

  lemma {:induction false} SectionsOfBlock(lines: seq<string>, p: nat, b: Block, k: nat)
    requires Proper(b) && k <= |b.bullets| && p + 1 + |b.bullets| <= |lines|
    requires lines[p] == b.header && lines[p + 1..p + 1 + |b.bullets|] == b.bullets
    ensures Sections(lines, p + 1 + k) == Sections(lines, p) + [Range(p + 1, p + 1 + k)]
  {
    if k == 0 {
      assert Range(p + 1, p + 1) == [];
    } else {
      SectionsOfBlock(lines, p, b, k - 1);
      var line := lines[p + k];
      assert line == lines[p + 1..p + 1 + |b.bullets|][k - 1] == b.bullets[k - 1];
      BulletIsNoHeader(line);
      var s := Sections(lines, p + k);
      assert s[|s| - 1] + [p + k] == Range(p + 1, p + 1 + k);
      assert s[|s| - 1 := s[|s| - 1] + [p + k]] == Sections(lines, p) + [Range(p + 1, p + 1 + k)];
    }
  }

  lemma BulletIsNoHeader(line: string)
    requires IsBullet(line)
    ensures !IsHeader(line)
  {
    assert line[0] == '-';
  }

  lemma TitleIsPlain()
    ensures !IsHeader(TITLE) && !IsBullet(TITLE)
  {
    assert TITLE[0] == '#';
  }

  lemma RenderSnoc(init: seq<Block>, last: Block)
    ensures Flat(init + [last]) == Flat(init) + Shown(last)
    ensures Render(init + [last]) == Render(init) + Shown(last)
  {
    assert (init + [last])[..|init|] == init;
  }

  lemma NoSectionsYet(more: seq<string>)
    ensures Sections(Render([]) + more, |Render([])|) == Spans([])
  {
    TitleIsPlain();
    assert (Render([]) + more)[0] == TITLE;
    assert Sections(Render([]) + more, 0) == [];
  }

  lemma SectionsOfShown(before: seq<string>, b: Block, more: seq<string>, lines: seq<string>)
    requires Proper(b) && lines == before + Shown(b) + more
    ensures Sections(lines, |before + Shown(b)|) == Sections(lines, |before|) + SpanAfter(|before|, b)
  {
    hide Proper, Range, Sections;
    if b.bullets != [] {
      WhereShown(before, b, more);
      SectionsOfBlock(lines, |before|, b, |b.bullets|);
      assert |before + Shown(b)| == |before| + 1 + |b.bullets|;
    } else {
      assert |before + Shown(b)| == |before|;
    }
  }

  lemma WhereShown(before: seq<string>, b: Block, more: seq<string>)
    requires b.bullets != []
    ensures var (lines, p) := (before + Shown(b) + more, |before|);
            && p + 1 + |b.bullets| <= |lines| && |Shown(b)| == 1 + |b.bullets|
            && lines[p] == b.header && lines[p + 1..p + 1 + |b.bullets|] == b.bullets
  {
  }

  lemma Regroup(x: seq<string>, y: seq<string>, z: seq<string>)
    ensures (x + y) + z == x + (y + z)
  {
  }

  /** The sections read off rendered lines are the blocks' bullet positions. */
  lemma {:induction false} SectionsOfRender(blocks: seq<Block>, more: seq<string>)
    requires forall b :: b in blocks ==> Proper(b)
    ensures Sections(Render(blocks) + more, |Render(blocks)|) == Spans(blocks)
  {
    hide Proper, Sections, Render, Shown, SpanAfter;
    if blocks == [] {
      NoSectionsYet(more);
    } else {
      var (init, last) := (blocks[..|blocks| - 1], blocks[|blocks| - 1]);
      assert blocks == init + [last] && last in blocks;
      assert forall b :: b in init ==> b in blocks;
      RenderSnoc(init, last);
      Regroup(Render(init), Shown(last), more);
      SectionsOfRender(init, Shown(last) + more);
      SectionsOfShown(Render(init), last, more, Render(blocks) + more);
    }
  }

  // ---- the chosen line is the victim's last bullet ----------------------------------------

  /** The line of block `s`'s last bullet. */
  ghost function LastLine(blocks: seq<Block>, s: nat): int
    requires s < |blocks|
  {
    |Render(blocks[..s + 1])| - 1
  }

  lemma SpanEnds(init: seq<Block>, last: Block)
    requires last.bullets != []
    ensures var (blocks, p) := (init + [last], |Render(init)|);
            Range(p + 1, p + 1 + |last.bullets|)[|last.bullets| - 1] == LastLine(blocks, |init|)
  {
    RenderSnoc(init, last);
    assert (init + [last])[..|init| + 1] == init + [last];
  }

  lemma LastLineInit(init: seq<Block>, last: Block, s: nat)
    requires s < |init|
    ensures LastLine(init + [last], s) == LastLine(init, s)
  {
    assert (init + [last])[..s + 1] == init[..s + 1];
  }

  lemma SpansSnoc(init: seq<Block>, last: Block)
    ensures Spans(init + [last]) == Spans(init) + SpanAfter(|Render(init)|, last)
  {
    assert (init + [last])[..|init|] == init;
  }

  lemma FullestSnoc(ss: seq<seq<nat>>, s: seq<nat>)
    ensures Fullest(ss + [s]) ==
              if |s| > 1 && (Fullest(ss).None? || |s| >= |ss[Fullest(ss).value]|) then Some(|ss|) else Fullest(ss)
    ensures LastFilled(ss + [s]) == if s != [] then Some(|ss|) else LastFilled(ss)
  {
    assert (ss + [s])[..|ss|] == ss;
  }

  lemma VictimSnoc(init: seq<Block>, last: Block)
    requires init != []
    ensures Victim(init + [last]) == if |last.bullets| >= |init[Victim(init)].bullets| then |init| else Victim(init)
  {
    assert (init + [last])[..|init|] == init;
  }

  /** What `Fullest` finds when some section has two bullets or more. */
  ghost predicate PicksVictim(blocks: seq<Block>)
    requires blocks != []
  {
    var (ss, v) := (Spans(blocks), Victim(blocks));
    match Fullest(ss)
    case Some(r) => |ss[r]| == |blocks[v].bullets| && ss[r][|ss[r]| - 1] == LastLine(blocks, v)
    case None =>
      && |blocks[v].bullets| <= 1
      && match LastFilled(ss)
         case Some(r) => |blocks[v].bullets| == 1 && ss[r][|ss[r]| - 1] == LastLine(blocks, v)
         case None => blocks[v].bullets == []
  }

  lemma PickSnoc(init: seq<Block>, last: Block)
    requires init != [] ==> PicksVictim(init)
    ensures PicksVictim(init + [last])
  {
    hide Render, Range, LastLine, Fullest, LastFilled, Spans, Victim;
    var blocks := init + [last];
    var p := |Render(init)|;
    SpansSnoc(init, last);
    if init == [] {
      PickFirst(last);
    } else {
      VictimSnoc(init, last);
      LastLineInit(init, last, Victim(init));
      if last.bullets == [] {
        assert Spans(blocks) == Spans(init);
      } else {
        FullestSnoc(Spans(init), Range(p + 1, p + 1 + |last.bullets|));
        RangeLength(p + 1, p + 1 + |last.bullets|);
        SpanEnds(init, last);
      }
    }
  }

  lemma RangeLength(lo: nat, hi: nat)
    requires lo <= hi
    ensures |Range(lo, hi)| == hi - lo
  {
  }

  lemma NoSpans()
    ensures Spans([]) == []
  {
  }

  lemma PickFirst(b: Block)
    ensures PicksVictim([] + [b])
  {
    hide Render, Range, LastLine, Spans;
    var p := |Render([])|;
    SpansSnoc([], b);
    NoSpans();
    assert [] + [b] == [b];
    if b.bullets != [] {
      RangeLength(p + 1, p + 1 + |b.bullets|);
      FullestSnoc([], Range(p + 1, p + 1 + |b.bullets|));
      SpanEnds([], b);
    }
  }

  lemma {:induction false} PickIsVictim(blocks: seq<Block>)
    requires blocks != []
    ensures PicksVictim(blocks)
  {
    hide PicksVictim;
    var (init, last) := (blocks[..|blocks| - 1], blocks[|blocks| - 1]);
    assert blocks == init + [last];
    if init != [] {
      PickIsVictim(init);
    }
    PickSnoc(init, last);
  }

  /** While a bullet is shown, the line chosen is the last bullet of the fullest section: the
      fallback to popping the tail is never taken. */
  lemma ChoiceIsVictim(blocks: seq<Block>)
    requires (forall b :: b in blocks ==> Proper(b)) && blocks != [] && blocks[Victim(blocks)].bullets != []
    ensures var lines := Render(blocks);
            Choice(Sections(lines, |lines|)) == Some(LastLine(blocks, Victim(blocks)))
  {
    hide Proper, Render, LastLine, Spans, Victim, Fullest, LastFilled;
    SectionsOfRender(blocks, []);
    assert Render(blocks) + [] == Render(blocks);
    PickIsVictim(blocks);
  }

  // ---- removing it and dropping orphans gives the evicted blocks --------------------------

  lemma {:induction false} FlatConcat(x: seq<Block>, y: seq<Block>)
    ensures Flat(x + y) == Flat(x) + Flat(y)
  {
    hide Shown;
    if y == [] {
      assert x + y == x;
    } else {
      var (init, last) := (y[..|y| - 1], y[|y| - 1]);
      FlatConcat(x, init);
      assert x + y == (x + init) + [last];
      FlatSnoc(x + init, last);
      Regroup(Flat(x), Flat(init), Shown(last));
    }
  }

  lemma FlatSnoc(init: seq<Block>, last: Block)
    ensures Flat(init + [last]) == Flat(init) + Shown(last)
  {
    assert (init + [last])[..|init|] == init;
  }

  lemma {:induction false} UnorphanedPlain(lines: seq<string>, p: nat, n: nat)
    requires p <= n <= |lines| && forall i :: p <= i < n ==> !IsHeader(lines[i])
    ensures Unorphaned(lines, n) == Unorphaned(lines, p) + lines[p..n]
    decreases n
  {
    hide IsHeader, IsBullet;
    if p == n {
      assert lines[p..n] == [];
    } else {
      UnorphanedPlain(lines, p, n - 1);
      assert lines[p..n] == lines[p..n - 1] + [lines[n - 1]];
    }
  }

  lemma BulletLines(before: seq<string>, b: Block, more: seq<string>, lines: seq<string>)
    requires Proper(b) && b.bullets != [] && lines == before + Shown(b) + more
    ensures forall i :: |before| + 1 <= i < |before + Shown(b)| ==> IsBullet(lines[i]) && !IsHeader(lines[i])
  {
    hide IsBullet, IsHeader;
    WhereShown(before, b, more);
    forall i | |before| + 1 <= i < |before + Shown(b)| ensures IsBullet(lines[i]) && !IsHeader(lines[i]) {
      assert lines[i] == lines[|before| + 1..|before| + 1 + |b.bullets|][i - |before| - 1];
      BulletIsNoHeader(lines[i]);
    }
  }

  /** A header followed by bullets is kept with them. */
  lemma UnorphanedShown(before: seq<string>, b: Block, more: seq<string>, lines: seq<string>)
    requires Proper(b) && lines == before + Shown(b) + more
    ensures Unorphaned(lines, |before + Shown(b)|) == Unorphaned(lines, |before|) + Shown(b)
  {
    hide IsBullet, IsHeader;
    if b.bullets != [] {
      var (p, q) := (|before|, |before + Shown(b)|);
      WhereShown(before, b, more);
      BulletLines(before, b, more, lines);
      UnorphanedPlain(lines, p + 1, q);
      assert Unorphaned(lines, p + 1) == Unorphaned(lines, p) + [b.header];
      Regroup(Unorphaned(lines, p), [b.header], b.bullets);
    } else {
      assert before + Shown(b) == before;
    }
  }

  lemma {:induction false} UnorphanedFlat(before: seq<string>, blocks: seq<Block>, more: seq<string>, lines: seq<string>)
    requires (forall b :: b in blocks ==> Proper(b)) && lines == before + Flat(blocks) + more
    ensures Unorphaned(lines, |before + Flat(blocks)|) == Unorphaned(lines, |before|) + Flat(blocks)
  {
    hide Proper, Unorphaned, Shown;
    if blocks == [] {
      assert before + Flat(blocks) == before;
    } else {
      var (init, last) := (blocks[..|blocks| - 1], blocks[|blocks| - 1]);
      assert blocks == init + [last] && last in blocks;
      assert forall b :: b in init ==> b in blocks;
      Regroup(before, Flat(init), Shown(last));
      Regroup(before + Flat(init), Shown(last), more);
      UnorphanedFlat(before, init, Shown(last) + more, lines);
      UnorphanedShown(before + Flat(init), last, more, lines);
      Regroup(Unorphaned(lines, |before|), Flat(init), Shown(last));
    }
  }

  lemma {:induction false} FlatStarts(blocks: seq<Block>)
    requires forall b :: b in blocks ==> Proper(b)
    ensures Flat(blocks) != [] ==> !IsBullet(Flat(blocks)[0])
  {
    if blocks != [] {
      var (init, last) := (blocks[..|blocks| - 1], blocks[|blocks| - 1]);
      assert last in blocks && forall b :: b in init ==> b in blocks;
      FlatStarts(init);
      if Flat(init) == [] && Shown(last) != [] {
        assert Flat(blocks)[0] == last.header;
        HeaderIsNoBullet(last.header);
      }
    }
  }

  lemma HeaderIsNoBullet(line: string)
    requires IsHeader(line)
    ensures !IsBullet(line)
  {
    assert line[0] == '*';
  }

  /** The victim's block after its last bullet went: the header may stand alone for a moment. */
  lemma UnorphanedRest(before: seq<string>, b: Block, blocks: seq<Block>, lines: seq<string>)
    requires Proper(b) && forall x :: x in blocks ==> Proper(x)
    requires lines == before + ([b.header] + b.bullets) + Flat(blocks)
    ensures Unorphaned(lines, |before| + 1 + |b.bullets|) == Unorphaned(lines, |before|) + Shown(b)
  {
    hide Flat;
    if b.bullets == [] {
      FlatStarts(blocks);
      assert lines[|before|] == b.header;
    } else {
      UnorphanedShown(before, b, Flat(blocks), lines);
    }
  }

  lemma RemoveLine(before: seq<string>, b: Block, more: seq<string>)
    requires b.bullets != []
    ensures var (lines, i) := (before + Shown(b) + more, |before| + |b.bullets|);
            i < |lines| && lines[..i] + lines[i + 1..] == before + ([b.header] + DropLast(b).bullets) + more
  {
  }

  lemma TurnAt(front: seq<Block>, b: Block, back: seq<Block>)
    requires (forall x :: x in front ==> Proper(x)) && Proper(b) && (forall x :: x in back ==> Proper(x)) && b.bullets != []
    ensures var (lines, i) := (Render(front + [b] + back), |Render(front)| + |b.bullets|);
            && i < |lines|
            && var rest := lines[..i] + lines[i + 1..];
               Unorphaned(rest, |rest|) == Render(front + [DropLast(b)] + back)
  {
    hide Proper, Unorphaned, Flat, Shown, Render, DropLast;
    SplitRender(front, b, back);
    RemoveLine(Render(front), b, Flat(back));
    var d := DropLast(b);
    DropIsProper(b);
    RestUnorphaned(front, d, back, Render(front) + ([d.header] + d.bullets) + Flat(back));
    SplitRender(front, d, back);
  }

  lemma LastLineAt(front: seq<Block>, b: Block, back: seq<Block>)
    requires b.bullets != []
    ensures LastLine(front + [b] + back, |front|) == |Render(front)| + |b.bullets|
  {
    hide Flat, Shown, Render;
    assert (front + [b] + back)[..|front| + 1] == front + [b];
    RenderSnoc(front, b);
    ShownLength(b);
  }

  /** One turn of the loop: removing the chosen line and the headers it leaves bare shows the blocks
      without the victim's last bullet. */
  lemma TurnEvicts(blocks: seq<Block>)
    requires (forall b :: b in blocks ==> Proper(b)) && blocks != [] && blocks[Victim(blocks)].bullets != []
    ensures var (lines, v) := (Render(blocks), Victim(blocks));
            var i := LastLine(blocks, v);
            && 0 <= i < |lines|
            && var rest := lines[..i] + lines[i + 1..];
               Unorphaned(rest, |rest|) == Render(blocks[v := DropLast(blocks[v])])
  {
    hide Proper, Unorphaned, Victim, Render, DropLast, LastLine;
    var v := Victim(blocks);
    var (front, b, back) := (blocks[..v], blocks[v], blocks[v + 1..]);
    assert blocks == front + [b] + back && b in blocks;
    assert (forall x :: x in front ==> x in blocks) && (forall x :: x in back ==> x in blocks);
    LastLineAt(front, b, back);
    TurnAt(front, b, back);
    assert blocks[v := DropLast(b)] == front + [DropLast(b)] + back;
  }

  lemma ShownLength(b: Block)
    requires b.bullets != []
    ensures |Shown(b)| == 1 + |b.bullets|
  {
  }

  lemma DropIsProper(b: Block)
    requires Proper(b) && b.bullets != []
    ensures Proper(DropLast(b)) && DropLast(b).header == b.header
  {
  }

  lemma SplitRender(front: seq<Block>, b: Block, back: seq<Block>)
    ensures Render(front + [b] + back) == Render(front) + Shown(b) + Flat(back)
  {
    hide Flat, Shown;
    FlatConcat(front + [b], back);
    FlatSnoc(front, b);
    Regroup([TITLE], Flat(front), Shown(b));
    Regroup([TITLE], Flat(front) + Shown(b), Flat(back));
  }

  lemma RestUnorphaned(front: seq<Block>, d: Block, back: seq<Block>, rest: seq<string>)
    requires (forall b :: b in front ==> Proper(b)) && Proper(d) && forall b :: b in back ==> Proper(b)
    requires rest == Render(front) + ([d.header] + d.bullets) + Flat(back)
    ensures Unorphaned(rest, |rest|) == Render(front) + Shown(d) + Flat(back)
  {
    hide Proper, Unorphaned, Flat, IsHeader, IsBullet, Shown, Render;
    var raw := [d.header] + d.bullets;
    Regroup(Render(front), raw, Flat(back));
    UnorphanedFront(front, raw + Flat(back), rest);
    UnorphanedRest(Render(front), d, back, rest);
    UnorphanedBack(Render(front) + raw, back, rest);
  }

  lemma UnorphanedFront(front: seq<Block>, more: seq<string>, lines: seq<string>)
    requires (forall b :: b in front ==> Proper(b)) && lines == Render(front) + more
    ensures Unorphaned(lines, |Render(front)|) == Render(front)
  {
    hide Proper, Unorphaned, Flat, IsHeader, IsBullet, Shown;
    UnorphanedTitle(lines);
    UnorphanedFlat([TITLE], front, more, lines);
  }

  lemma UnorphanedBack(before: seq<string>, back: seq<Block>, lines: seq<string>)
    requires (forall b :: b in back ==> Proper(b)) && lines == before + Flat(back)
    ensures Unorphaned(lines, |lines|) == Unorphaned(lines, |before|) + Flat(back)
  {
    hide Proper, Unorphaned, Flat, IsHeader, IsBullet, Shown;
    assert lines == before + Flat(back) + [];
    UnorphanedFlat(before, back, [], lines);
  }

  lemma UnorphanedTitle(lines: seq<string>)
    requires lines != [] && lines[0] == TITLE
    ensures Unorphaned(lines, 1) == [TITLE]
  {
    TitleIsPlain();
    assert Unorphaned(lines, 0) == [];
  }
}
