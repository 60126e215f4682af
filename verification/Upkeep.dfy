/** Grouping facts that plausibly say the same thing, by the words they share. */
module Upkeep {

  datatype Fact = Fact(id: string, text: string)

  datatype Tagged = Tagged(fact: Fact, terms: set<string>)

  /** Jaccard overlap of at least 0.30, in whole numbers; a fact without terms overlaps nothing. */
  predicate Alike(s: Tagged, t: Tagged) {
    s.terms != {} && t.terms != {} && 10 * |s.terms * t.terms| >= 3 * |s.terms + t.terms|
  }

  // ---- one seed ---------------------------------------------------------------------------

  /** The facts that join `seed`'s group when it has room for `room` more, and the others. */
  ghost function Taken(seed: Tagged, rest: seq<Tagged>, room: nat): seq<Tagged> {
    if rest == [] then []
    else if Alike(seed, rest[0]) && room > 0 then [rest[0]] + Taken(seed, rest[1..], room - 1)
    else Taken(seed, rest[1..], room)
  }

  ghost function Kept(seed: Tagged, rest: seq<Tagged>, room: nat): (kept: seq<Tagged>)
    ensures |kept| <= |rest|
  {
    if rest == [] then []
    else if Alike(seed, rest[0]) && room > 0 then Kept(seed, rest[1..], room - 1)
    else [rest[0]] + Kept(seed, rest[1..], room)
  }

  lemma {:induction false} GatherSplits(seed: Tagged, rest: seq<Tagged>, room: nat)
    ensures multiset(Taken(seed, rest, room)) + multiset(Kept(seed, rest, room)) == multiset(rest)
    ensures |Taken(seed, rest, room)| <= room
    ensures forall t :: t in Taken(seed, rest, room) ==> Alike(seed, t)
    ensures |Taken(seed, rest, room)| < room ==> forall t :: t in Kept(seed, rest, room) ==> !Alike(seed, t)
  {
    if rest != [] {
      assert rest == [rest[0]] + rest[1..];
      GatherSplits(seed, rest[1..], if Alike(seed, rest[0]) && room > 0 then room - 1 else room);
    }
  }

  // ---- all seeds --------------------------------------------------------------------------

  ghost function Room(maxGroup: nat): nat {
    if maxGroup > 0 then maxGroup - 1 else 0
  }

  /** The groups reported, in seed order. */
  ghost function Groups(remaining: seq<Tagged>, room: nat): seq<seq<Tagged>>
    decreases |remaining|
  {
    if remaining == [] then []
    else
      var (seed, rest) := (remaining[0], remaining[1..]);
      var taken := Taken(seed, rest, room);
      (if taken == [] then [] else [[seed] + taken]) + Groups(Kept(seed, rest, room), room)
  }

  /** The facts no group reports. */
  ghost function Alone(remaining: seq<Tagged>, room: nat): seq<Tagged>
    decreases |remaining|
  {
    if remaining == [] then []
    else
      var (seed, rest) := (remaining[0], remaining[1..]);
      (if Taken(seed, rest, room) == [] then [seed] else []) + Alone(Kept(seed, rest, room), room)
  }

  ghost function Flatten(groups: seq<seq<Tagged>>): seq<Tagged> {
    if groups == [] then [] else groups[0] + Flatten(groups[1..])
  }

  lemma {:induction false} FlattenCons(g: seq<Tagged>, groups: seq<seq<Tagged>>)
    ensures Flatten([g] + groups) == g + Flatten(groups)
  {
    assert ([g] + groups)[1..] == groups;
  }

  /** No fact is lost or reported twice: groups and leftovers together are the input. */
  lemma {:induction false} EveryFactOnce(remaining: seq<Tagged>, room: nat)
    ensures multiset(Flatten(Groups(remaining, room))) + multiset(Alone(remaining, room)) == multiset(remaining)
    decreases |remaining|
  {
    hide Taken, Kept;
    if remaining != [] {
      var (seed, rest) := (remaining[0], remaining[1..]);
      assert remaining == [seed] + rest;
      GatherSplits(seed, rest, room);
      var kept := Kept(seed, rest, room);
      EveryFactOnce(kept, room);
      FlattenCons([seed] + Taken(seed, rest, room), Groups(kept, room));
      assert [] + Groups(kept, room) == Groups(kept, room);
    }
  }

  /** What a reported group looks like: a seed first, every other member overlapping it. */
  ghost predicate WellFormed(group: seq<Tagged>, room: nat) {
    2 <= |group| <= room + 1 && forall i :: 1 <= i < |group| ==> Alike(group[0], group[i])
  }

  lemma {:induction false} GroupsOverlapTheirSeed(remaining: seq<Tagged>, room: nat)
    ensures forall g :: g in Groups(remaining, room) ==> WellFormed(g, room)
    decreases |remaining|
  {
    hide Taken, Kept, Alike;
    if remaining != [] {
      var (seed, rest) := (remaining[0], remaining[1..]);
      GatherSplits(seed, rest, room);
      GroupsOverlapTheirSeed(Kept(seed, rest, room), room);
      var taken := Taken(seed, rest, room);
      forall i | 1 <= i < |[seed] + taken| ensures Alike(seed, ([seed] + taken)[i]) {
        assert ([seed] + taken)[i] == taken[i - 1];
      }
    }
  }

  lemma {:induction false} AloneIsKept(remaining: seq<Tagged>, room: nat)
    ensures forall t :: t in Alone(remaining, room) ==> t in remaining
    decreases |remaining|
  {
    hide Taken, Kept;
    if remaining != [] {
      var (seed, rest) := (remaining[0], remaining[1..]);
      GatherSplits(seed, rest, room);
      var kept := Kept(seed, rest, room);
      AloneIsKept(kept, room);
      forall t | t in Alone(kept, room) ensures t in remaining {
        assert t in multiset(kept) && t in multiset(rest);
      }
    }
  }

  /** When a group may hold two facts, no two facts left alone overlap. */
  lemma {:induction false} AloneDoNotOverlap(remaining: seq<Tagged>, room: nat)
    requires room > 0
    ensures forall i, j :: 0 <= i < j < |Alone(remaining, room)| ==> !Alike(Alone(remaining, room)[i], Alone(remaining, room)[j])
    decreases |remaining|
  {
    hide Taken, Kept, Alike;
    if remaining != [] {
      var (seed, rest) := (remaining[0], remaining[1..]);
      GatherSplits(seed, rest, room);
      var kept := Kept(seed, rest, room);
      AloneDoNotOverlap(kept, room);
      AloneIsKept(kept, room);
    }
  }

  // ---- the groups in so many words ----------------------------------------------------------

  /** At least three tenths of the words that either has, both have. */
  ghost predicate Overlap(x: set<string>, y: set<string>) {
    x != {} && y != {} && |x * y| as real / |x + y| as real >= 0.3
  }

  lemma AlikeIsOverlap(s: Tagged, t: Tagged)
    ensures Alike(s, t) <==> Overlap(s.terms, t.terms)
  {
    var (both, any) := (|s.terms * t.terms|, |s.terms + t.terms|);
    if s.terms != {} {
      assert s.terms <= s.terms + t.terms;
      SomeWords(s.terms, t.terms);
      QuotientBound(both, any);
    }
  }

  lemma SomeWords(x: set<string>, y: set<string>)
    requires x != {}
    ensures |x + y| > 0
  {
    var w :| w in x;
    assert w in x + y;
  }

  lemma QuotientBound(n: nat, d: nat)
    requires d > 0
    ensures n as real / d as real >= 0.3 <==> 10 * n >= 3 * d
  {
    DivideAtLeast(n as real, d as real, 0.3);
    assert 10.0 * n as real >= 3.0 * d as real <==> 10 * n >= 3 * d;
  }

  lemma DivideAtLeast(x: real, d: real, c: real)
    requires d > 0.0
    ensures x / d >= c <==> x >= c * d
  {
    var r := x / d;
    assert x == r * d;
    if r >= c {
      assert (r - c) * d >= 0.0;
    } else {
      assert (c - r) * d > 0.0;
    }
  }

  /** A group that is not full has taken in everything still there that overlaps its seed. */
  lemma {:induction false} OpenGroupsAreComplete(remaining: seq<Tagged>, room: nat, k: nat, t: Tagged)
    requires k < |Groups(remaining, room)| && |Groups(remaining, room)[k]| <= room
    requires t in Flatten(Groups(remaining, room)[k + 1..]) || t in Alone(remaining, room)
    ensures |Groups(remaining, room)[k]| > 0 && !Alike(Groups(remaining, room)[k][0], t)
    decreases |remaining|
  {
    hide Groups, Alone, Taken, Kept, Alike, Flatten;
    SomeAreThere(remaining, room);
    var (seed, rest) := (remaining[0], remaining[1..]);
    var (taken, kept) := (Taken(seed, rest, room), Kept(seed, rest, room));
    var (groups, later) := (Groups(remaining, room), Groups(kept, room));
    GroupsCons(remaining, room);
    FirstIsThere(remaining, room, k);
    SeedOverlapsNone(seed, rest, room);
    if taken == [] {
      if t in Flatten(later[k + 1..]) || t in Alone(kept, room) {
        OpenGroupsAreComplete(kept, room, k, t);
      } else {
        FirstIsThere(kept, room, k);
        AlikeBothWays(seed, groups[k][0]);
      }
    } else if k == 0 {
      assert groups[1..] == later[0..];
      GroupedAreThere(kept, room, 0, t);
      AloneIsKept(kept, room);
    } else {
      assert groups[k] == later[k - 1] && groups[k + 1..] == later[k - 1 + 1..];
      OpenGroupsAreComplete(kept, room, k - 1, t);
    }
  }

  lemma SomeAreThere(remaining: seq<Tagged>, room: nat)
    ensures Groups(remaining, room) != [] ==> remaining != []
  {
  }

  lemma GroupsCons(remaining: seq<Tagged>, room: nat)
    requires remaining != []
    ensures var (seed, rest) := (remaining[0], remaining[1..]);
            var (taken, kept) := (Taken(seed, rest, room), Kept(seed, rest, room));
            && |kept| < |remaining|
            && Groups(remaining, room) == (if taken == [] then Groups(kept, room) else [[seed] + taken] + Groups(kept, room))
            && Alone(remaining, room) == (if taken == [] then [seed] + Alone(kept, room) else Alone(kept, room))
  {
    hide Taken, Kept;
  }

  lemma AlikeBothWays(s: Tagged, t: Tagged)
    ensures Alike(s, t) <==> Alike(t, s)
  {
    assert s.terms * t.terms == t.terms * s.terms && s.terms + t.terms == t.terms + s.terms;
  }

  lemma SeedOverlapsNone(seed: Tagged, rest: seq<Tagged>, room: nat)
    ensures |Taken(seed, rest, room)| < room ==> forall t :: t in Kept(seed, rest, room) ==> !Alike(seed, t)
  {
    hide Taken, Kept, Alike;
    GatherSplits(seed, rest, room);
  }

  lemma GroupedAreThere(remaining: seq<Tagged>, room: nat, k: nat, t: Tagged)
    requires k <= |Groups(remaining, room)|
    ensures t in Flatten(Groups(remaining, room)[k..]) ==> t in remaining
  {
    hide Groups, Alone, Flatten;
    EveryFactOnce(remaining, room);
    FlattenTail(Groups(remaining, room), k);
    if t in Flatten(Groups(remaining, room)) {
      assert t in multiset(Flatten(Groups(remaining, room)));
      assert t in multiset(remaining);
    }
  }

  lemma {:induction false} FlattenTail(groups: seq<seq<Tagged>>, k: nat)
    requires k <= |groups|
    ensures forall t :: t in Flatten(groups[k..]) ==> t in Flatten(groups)
  {
    if k > 0 {
      FlattenTail(groups[1..], k - 1);
      assert groups[1..][k - 1..] == groups[k..];
    } else {
      assert groups[0..] == groups;
    }
  }

  lemma FirstIsThere(remaining: seq<Tagged>, room: nat, k: nat)
    requires k < |Groups(remaining, room)|
    ensures 2 <= |Groups(remaining, room)[k]| <= room + 1 && Groups(remaining, room)[k][0] in remaining
  {
    hide Groups, Flatten, Alike;
    GroupsOverlapTheirSeed(remaining, room);
    var groups := Groups(remaining, room);
    assert groups[k] in groups && WellFormed(groups[k], room);
    FlattenAt(groups, k);
    GroupedAreThere(remaining, room, k, groups[k][0]);
  }

  lemma FlattenAt(groups: seq<seq<Tagged>>, k: nat)
    requires k < |groups|
    ensures forall t :: t in groups[k] ==> t in Flatten(groups[k..])
  {
    assert groups[k..][0] == groups[k];
  }

  // ---- tidy_groups ------------------------------------------------------------------------

  ghost function Tag(facts: seq<Fact>, terms: string -> set<string>): seq<Tagged> {
    seq(|facts|, i requires 0 <= i < |facts| => Tagged(facts[i], terms(facts[i].text)))
  }

  ghost function FactsOf(group: seq<Tagged>): seq<Fact> {
    seq(|group|, i requires 0 <= i < |group| => group[i].fact)
  }

  ghost function Report(groups: seq<seq<Tagged>>): seq<seq<Fact>> {
    seq(|groups|, i requires 0 <= i < |groups| => FactsOf(groups[i]))
  }

  lemma GatherStep(seed: Tagged, rest: seq<Tagged>, i: nat, room: nat)
    requires i < |rest|
    ensures var joins := Alike(seed, rest[i]) && room > 0;
            && Taken(seed, rest[i..], room) ==
               (if joins then [rest[i]] + Taken(seed, rest[i + 1..], room - 1) else Taken(seed, rest[i + 1..], room))
            && Kept(seed, rest[i..], room) ==
               (if joins then Kept(seed, rest[i + 1..], room - 1) else [rest[i]] + Kept(seed, rest[i + 1..], room))
  {
    assert rest[i..][1..] == rest[i + 1..];
  }

  lemma GatherEnds(seed: Tagged, room: nat)
    ensures Taken(seed, [], room) == Kept(seed, [], room) == []
  {
  }

  lemma FactsOfOne(t: Tagged)
    ensures FactsOf([t]) == [t.fact]
  {
  }

  lemma FactsOfSnoc(group: seq<Tagged>, t: Tagged)
    ensures FactsOf(group + [t]) == FactsOf(group) + [t.fact]
  {
  }

  /** Splits the worklist around one seed. */
  method Gather(seed: Tagged, rest: seq<Tagged>, maxGroup: nat) returns (group: seq<Fact>, keep: seq<Tagged>)
    ensures group == FactsOf([seed] + Taken(seed, rest, Room(maxGroup)))
    ensures keep == Kept(seed, rest, Room(maxGroup))
  {
    hide Taken, Kept, Alike, FactsOf;
    assert rest[0..] == rest && rest[|rest|..] == [];
    FactsOfOne(seed);
    assert [seed] + [] == [seed];
    group := [seed.fact];
    keep := [];
    ghost var taken: seq<Tagged> := [];
    var i := 0;
    while i < |rest|
      invariant 0 <= i <= |rest| && |taken| <= Room(maxGroup)
      invariant group == FactsOf([seed] + taken) && |group| == 1 + |taken|
      invariant taken + Taken(seed, rest[i..], Room(maxGroup) - |taken|) == Taken(seed, rest, Room(maxGroup))
      invariant keep + Kept(seed, rest[i..], Room(maxGroup) - |taken|) == Kept(seed, rest, Room(maxGroup))
    {
      var t := rest[i];
      GatherStep(seed, rest, i, Room(maxGroup) - |taken|);
      if Alike(seed, t) && |group| < maxGroup {
        FactsOfSnoc([seed] + taken, t);
        assert [seed] + taken + [t] == [seed] + (taken + [t]);
        group := group + [t.fact];
        taken := taken + [t];
      } else {
        keep := keep + [t];
      }
      i := i + 1;
    }
    GatherEnds(seed, Room(maxGroup) - |taken|);
    assert taken == Taken(seed, rest, Room(maxGroup));
  }

  /** A report within the size, whose members overlap its first. */
  ghost predicate GoodGroup(group: seq<Fact>, terms: string -> set<string>, maxGroup: nat) {
    2 <= |group| <= maxGroup && forall i :: 1 <= i < |group| ==> Overlap(terms(group[0].text), terms(group[i].text))
  }

  ghost predicate Tells(terms: string -> set<string>, t: Tagged) {
    t.terms == terms(t.fact.text)
  }

  lemma GroupsTell(facts: seq<Fact>, terms: string -> set<string>, room: nat)
    ensures forall g: seq<Tagged>, t: Tagged :: g in Groups(Tag(facts, terms), room) && t in g ==> Tells(terms, t)
    ensures forall t :: t in Alone(Tag(facts, terms), room) ==> Tells(terms, t)
  {
    hide Groups, Alone;
    var all := Tag(facts, terms);
    assert forall t :: t in all ==> Tells(terms, t);
    AloneIsKept(all, room);
    var groups := Groups(all, room);
    forall g: seq<Tagged>, t: Tagged | g in groups && t in g ensures Tells(terms, t) {
      var k :| 0 <= k < |groups| && groups[k] == g;
      FlattenAt(groups, k);
      GroupedAreThere(all, room, k, t);
    }
  }

  lemma ReportsAreGood(facts: seq<Fact>, terms: string -> set<string>, maxGroup: nat)
    ensures var groups := Groups(Tag(facts, terms), Room(maxGroup));
            forall k :: 0 <= k < |groups| ==> GoodGroup(FactsOf(groups[k]), terms, maxGroup)
  {
    hide Groups, Alone, Tag, Alike, Overlap;
    var groups := Groups(Tag(facts, terms), Room(maxGroup));
    GroupsTell(facts, terms, Room(maxGroup));
    GroupsOverlapTheirSeed(Tag(facts, terms), Room(maxGroup));
    forall k | 0 <= k < |groups| ensures GoodGroup(FactsOf(groups[k]), terms, maxGroup) {
      var g := groups[k];
      assert g in groups && WellFormed(g, Room(maxGroup));
      forall i | 1 <= i < |g| ensures Overlap(terms(FactsOf(g)[0].text), terms(FactsOf(g)[i].text)) {
        assert g[0] in g && g[i] in g;
        AlikeIsOverlap(g[0], g[i]);
      }
    }
  }

  /** A group that is not full overlaps, by its first fact, with nothing reported later and nothing left
      alone. */
  lemma OpenGroupsStandApart(facts: seq<Fact>, terms: string -> set<string>, maxGroup: nat, k: nat, t: Tagged)
    requires var groups := Groups(Tag(facts, terms), Room(maxGroup));
             k < |groups| && |groups[k]| < maxGroup && (t in Flatten(groups[k + 1..]) || t in Alone(Tag(facts, terms), Room(maxGroup)))
    ensures var g: seq<Tagged> := Groups(Tag(facts, terms), Room(maxGroup))[k];
            |g| > 0 && !Overlap(terms(g[0].fact.text), terms(t.fact.text))
  {
    hide Groups, Alone, Tag, Alike, Overlap, Flatten;
    var (all, room) := (Tag(facts, terms), Room(maxGroup));
    var groups := Groups(all, room);
    GroupsTell(facts, terms, room);
    OpenGroupsAreComplete(all, room, k, t);
    AlikeIsOverlap(groups[k][0], t);
    assert groups[k] in groups && groups[k][0] in groups[k];
    AllTell(facts, terms, room, k + 1, t);
  }

  /** And when a group may hold two, no two facts left alone overlap. */
  lemma AloneStandApart(facts: seq<Fact>, terms: string -> set<string>, maxGroup: nat, i: nat, j: nat)
    requires maxGroup >= 2 && i < j < |Alone(Tag(facts, terms), Room(maxGroup))|
    ensures var alone: seq<Tagged> := Alone(Tag(facts, terms), Room(maxGroup));
            !Overlap(terms(alone[i].fact.text), terms(alone[j].fact.text))
  {
    hide Groups, Alone, Tag, Alike, Overlap;
    var (all, room) := (Tag(facts, terms), Room(maxGroup));
    var alone := Alone(all, room);
    GroupsTell(facts, terms, room);
    AloneDoNotOverlap(all, room);
    assert alone[i] in alone && alone[j] in alone;
    AlikeIsOverlap(alone[i], alone[j]);
  }

  lemma AllTell(facts: seq<Fact>, terms: string -> set<string>, room: nat, k: nat, t: Tagged)
    requires k <= |Groups(Tag(facts, terms), room)|
    requires t in Flatten(Groups(Tag(facts, terms), room)[k..]) || t in Alone(Tag(facts, terms), room)
    ensures Tells(terms, t)
  {
    hide Groups, Alone, Flatten;
    var all := Tag(facts, terms);
    GroupedAreThere(all, room, k, t);
    AloneIsKept(all, room);
    assert t in all;
  }

  method TidyGroups(facts: seq<Fact>, terms: string -> set<string>, maxGroup: nat) returns (groups: seq<seq<Fact>>)
    ensures groups == Report(Groups(Tag(facts, terms), Room(maxGroup)))
    ensures forall g :: g in groups ==> GoodGroup(g, terms, maxGroup)
  {
    hide Taken, Kept, Alike, GoodGroup;
    ReportsAreGood(facts, terms, maxGroup);
    var remaining: seq<Tagged> := [];
    for i := 0 to |facts|
      invariant remaining == Tag(facts, terms)[..i]
    {
      remaining := remaining + [Tagged(facts[i], terms(facts[i].text))];
    }
    assert Tag(facts, terms)[..|facts|] == Tag(facts, terms);
    groups := [];
    ghost var done: seq<seq<Tagged>> := [];
    while remaining != []
      invariant groups == Report(done)
      invariant done + Groups(remaining, Room(maxGroup)) == Groups(Tag(facts, terms), Room(maxGroup))
      decreases |remaining|
    {
      var seed, rest := remaining[0], remaining[1..];
      var group, keep := Gather(seed, rest, maxGroup);
      ghost var taken := Taken(seed, rest, Room(maxGroup));
      remaining := keep;
      if |group| > 1 {
        groups := groups + [group];
        done := done + [[seed] + taken];
      }
    }
  }
}
