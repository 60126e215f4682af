/** The sections of the digest before anything is evicted: each fact under the first list that has it. */
module DigestSections {
  import opened Text
  import opened Digest

  // ---- one fact, one section --------------------------------------------------------------

  ghost function Keys(facts: seq<string>, norm: string -> string): set<string> {
    set f | f in facts :: norm(f)
  }

  /** The facts whose normal form is not blank and not in `seen`, nor of an earlier one. */
  ghost function Fresh(facts: seq<string>, seen: set<string>, norm: string -> string): seq<string> {
    if facts == [] then []
    else
      var (init, last) := (facts[..|facts| - 1], facts[|facts| - 1]);
      Fresh(init, seen, norm)
      + if norm(last) != [] && norm(last) !in seen + Keys(init, norm) then [last] else []
  }

  method TakeFresh(facts: seq<string>, seen: set<string>, norm: string -> string)
    returns (kept: seq<string>, now: set<string>)
    ensures kept == Fresh(facts, seen, norm)
    ensures now + {[]} == seen + Keys(facts, norm) + {[]}
  {
    hide Fresh, Keys;
    kept := [];
    now := seen;
    FreshNone(seen, norm);
    NoKeys(norm);
    for i := 0 to |facts|
      invariant kept == Fresh(facts[..i], seen, norm)
      invariant now + {[]} == seen + Keys(facts[..i], norm) + {[]}
    {
      KeysSnoc(facts[..i], facts[i], norm);
      FreshSnoc(facts[..i], facts[i], seen, norm);
      assert facts[..i + 1] == facts[..i] + [facts[i]];
      var k := norm(facts[i]);
      if k != [] {
        assert k in now <==> k in now + {[]};
        if k !in now {
          now := now + {k};
          kept := kept + [facts[i]];
        }
      }
    }
    assert facts[..|facts|] == facts;
  }

  lemma FreshNone(seen: set<string>, norm: string -> string)
    ensures Fresh([], seen, norm) == []
  {
  }

  lemma FreshSnoc(facts: seq<string>, f: string, seen: set<string>, norm: string -> string)
    ensures Fresh(facts + [f], seen, norm)
         == Fresh(facts, seen, norm) + if norm(f) != [] && norm(f) !in seen + Keys(facts, norm) then [f] else []
  {
    assert (facts + [f])[..|facts|] == facts;
  }

  lemma KeysSnoc(facts: seq<string>, f: string, norm: string -> string)
    ensures Keys(facts + [f], norm) == Keys(facts, norm) + {norm(f)}
  {
  }

  lemma KeysConcat(x: seq<string>, y: seq<string>, norm: string -> string)
    ensures Keys(x + y, norm) == Keys(x, norm) + Keys(y, norm)
  {
  }

  lemma {:induction false} FreshConcat(x: seq<string>, y: seq<string>, seen: set<string>, norm: string -> string)
    ensures Fresh(x + y, seen, norm) == Fresh(x, seen, norm) + Fresh(y, seen + Keys(x, norm), norm)
  {
    hide Fresh, Keys;
    var more := seen + Keys(x, norm);
    if y == [] {
      assert x + y == x;
      FreshNone(more, norm);
      assert Fresh(x, seen, norm) + [] == Fresh(x, seen, norm);
    } else {
      var (init, last) := (y[..|y| - 1], y[|y| - 1]);
      assert y == init + [last] && x + y == (x + init) + [last];
      FreshConcat(x, init, seen, norm);
      FreshSnoc(x + init, last, seen, norm);
      FreshSnoc(init, last, more, norm);
      KeysConcat(x, init, norm);
      assert seen + (Keys(x, norm) + Keys(init, norm)) == more + Keys(init, norm);
      Regroup(Fresh(x, seen, norm), Fresh(init, more, norm), if norm(last) != [] && norm(last) !in more + Keys(init, norm) then [last] else []);
    }
  }

  lemma {:induction false} FreshBlank(facts: seq<string>, s: set<string>, t: set<string>, norm: string -> string)
    requires s + {[]} == t + {[]}
    ensures Fresh(facts, s, norm) == Fresh(facts, t, norm)
  {
    hide Keys;
    if facts != [] {
      var (init, last) := (facts[..|facts| - 1], facts[|facts| - 1]);
      FreshBlank(init, s, t, norm);
      assert norm(last) != [] ==> (norm(last) in s <==> norm(last) in s + {[]});
      assert norm(last) != [] ==> (norm(last) in t <==> norm(last) in t + {[]});
    }
  }

  /** No two facts shown are the same text, whatever sections they came from, and no non-blank fact
      is missing. */
  lemma {:induction false} FreshIsDistinct(facts: seq<string>, norm: string -> string)
    ensures forall i, j :: 0 <= i < j < |Fresh(facts, {}, norm)| ==> norm(Fresh(facts, {}, norm)[i]) != norm(Fresh(facts, {}, norm)[j])
    ensures Keys(Fresh(facts, {}, norm), norm) == Keys(facts, norm) - {[]}
    ensures forall f :: f in Fresh(facts, {}, norm) ==> f in facts
  {
    hide Keys;
    if facts == [] {
      NoKeys(norm);
    } else {
      var (init, last) := (facts[..|facts| - 1], facts[|facts| - 1]);
      assert facts == init + [last];
      FreshIsDistinct(init, norm);
      KeysSnoc(init, last, norm);
      KeysSnoc(Fresh(init, {}, norm), last, norm);
      KeysCover(Fresh(init, {}, norm), norm);
      assert Fresh(init, {}, norm) + [] == Fresh(init, {}, norm);
    }
  }

  lemma NoKeys(norm: string -> string)
    ensures Keys([], norm) == {}
  {
  }

  lemma KeysCover(facts: seq<string>, norm: string -> string)
    ensures forall i :: 0 <= i < |facts| ==> norm(facts[i]) in Keys(facts, norm)
  {
  }

  // ---- the three sections -------------------------------------------------------------------

  ghost function Bullets(facts: seq<string>): (r: seq<string>)
    ensures |r| == |facts| && forall l :: l in r ==> IsBullet(l)
  {
    seq(|facts|, i requires 0 <= i < |facts| => "- " + facts[i])
  }

  function ProjectHeader(proj: string): (h: string)
    ensures IsHeader(h)
  {
    "**This project (" + (if proj == [] then "current" else proj) + "):**"
  }

  const PREFS: string := "**" + "Standing preferences:**"
  const LESSONS: string := "**" + "Learned the hard way (recurred across sessions):**"

  /** The three sections in full: each fact under the first section that has it. */
  ghost function Wanted(prefs: seq<string>, lessons: seq<string>, project: seq<string>, proj: string, norm: string -> string): (secs: seq<Block>)
    ensures |secs| == 3 && forall b :: b in secs ==> Proper(b)
  {
    var k := Keys(prefs, norm);
    var secs := [Block(PREFS, Bullets(Fresh(prefs, {}, norm))),
                 Block(LESSONS, Bullets(Fresh(lessons, k, norm))),
                 Block(ProjectHeader(proj), Bullets(Fresh(project, k + Keys(lessons, norm), norm)))];
    assert Proper(secs[0]) && Proper(secs[1]) && Proper(secs[2]);
    secs
  }

  lemma FreshOnce(prefs: seq<string>, lessons: seq<string>, project: seq<string>, norm: string -> string)
    ensures var k := Keys(prefs, norm);
            var all := Fresh(prefs, {}, norm) + Fresh(lessons, k, norm) + Fresh(project, k + Keys(lessons, norm), norm);
            && (forall i, j :: 0 <= i < j < |all| ==> norm(all[i]) != norm(all[j]))
            && Keys(all, norm) == Keys(prefs + lessons + project, norm) - {[]}
  {
    hide Fresh, Keys;
    FreshConcat(prefs + lessons, project, {}, norm);
    FreshConcat(prefs, lessons, {}, norm);
    KeysConcat(prefs, lessons, norm);
    assert {} + Keys(prefs, norm) == Keys(prefs, norm);
    assert {} + (Keys(prefs, norm) + Keys(lessons, norm)) == Keys(prefs, norm) + Keys(lessons, norm);
    FreshIsDistinct(prefs + lessons + project, norm);
  }

  /** What the bullets say. */
  ghost function Bodies(bullets: seq<string>): (r: seq<string>)
    requires forall b :: b in bullets ==> |b| >= 2
    ensures |r| == |bullets| && forall i :: 0 <= i < |r| ==> r[i] == bullets[i][2..]
  {
    seq(|bullets|, i requires 0 <= i < |bullets| => bullets[i][2..])
  }

  lemma BodiesOfBullets(facts: seq<string>)
    ensures forall b :: b in Bullets(facts) ==> |b| >= 2
    ensures Bodies(Bullets(facts)) == facts
  {
    forall b | b in Bullets(facts) ensures |b| >= 2 {
      var i :| 0 <= i < |facts| && Bullets(facts)[i] == b;
    }
    forall i | 0 <= i < |facts| ensures Bodies(Bullets(facts))[i] == facts[i] {
      assert ("- " + facts[i])[2..] == facts[i];
    }
  }

  /** Read one after the other, the three sections hold each non-blank normal form once, and nothing else. */
  lemma SectionsShareNothing(prefs: seq<string>, lessons: seq<string>, project: seq<string>, proj: string, norm: string -> string)
    ensures var secs := Wanted(prefs, lessons, project, proj, norm);
            && (forall s, b :: 0 <= s < 3 && b in secs[s].bullets ==> |b| >= 2)
            && var all := Bodies(secs[0].bullets) + Bodies(secs[1].bullets) + Bodies(secs[2].bullets);
               && (forall i, j :: 0 <= i < j < |all| ==> norm(all[i]) != norm(all[j]))
               && (forall f :: f in all ==> norm(f) != "")
               && (forall f :: f in prefs + lessons + project && norm(f) != "" ==> exists g :: g in all && norm(g) == norm(f))
  {
    hide Fresh, Keys, Bullets, Bodies;
    var k := Keys(prefs, norm);
    var (x, y, z) := (Fresh(prefs, {}, norm), Fresh(lessons, k, norm), Fresh(project, k + Keys(lessons, norm), norm));
    BodiesOfBullets(x);
    BodiesOfBullets(y);
    BodiesOfBullets(z);
    FreshOnce(prefs, lessons, project, norm);
    var (all, given) := (x + y + z, prefs + lessons + project);
    KeysOfOne(all, norm);
    KeysOfOne(given, norm);
    forall f | f in all ensures norm(f) != "" {
      var i: nat :| i < |all| && all[i] == f;
      assert norm(all[i]) in Keys(all, norm);
    }
    forall f | f in given && norm(f) != "" ensures exists g :: g in all && norm(g) == norm(f) {
      var i: nat :| i < |given| && given[i] == f;
      assert norm(given[i]) in Keys(all, norm);
    }
  }

  lemma KeysOfOne(facts: seq<string>, norm: string -> string)
    ensures forall k :: k in Keys(facts, norm) <==> exists i: nat :: i < |facts| && norm(facts[i]) == k
  {
  }

  // ---- the sections in so many words ----------------------------------------------------------

  /** Position `i` of list `s` is shown: its normal form is not blank and occurs nowhere before it, in its
      own list or an earlier one. */
  ghost predicate Chosen(lists: seq<seq<string>>, s: nat, i: nat, norm: string -> string)
    requires s < |lists| && i < |lists[s]|
  {
    && norm(lists[s][i]) != ""
    && forall s': nat, i': nat :: s' <= s && i' < |lists[s']| && (s' < s || i' < i) ==> norm(lists[s'][i']) != norm(lists[s][i])
  }

  /** The section's lines are those positions, in order. */
  ghost predicate Shows(lists: seq<seq<string>>, s: nat, bullets: seq<string>, norm: string -> string, ix: seq<nat>)
    requires s < |lists|
  {
    && |ix| == |bullets|
    && (forall k, l :: 0 <= k < l < |ix| ==> ix[k] < ix[l])
    && (forall k :: 0 <= k < |ix| ==> ix[k] < |lists[s]| && bullets[k] == "- " + lists[s][ix[k]])
    && (forall i: nat :: i < |lists[s]| ==> (i in ix <==> Chosen(lists, s, i, norm)))
  }

  ghost predicate Told(lists: seq<seq<string>>, s: nat, bullets: seq<string>, norm: string -> string)
    requires s < |lists|
  {
    exists ix :: Shows(lists, s, bullets, norm, ix)
  }

  /** Position `i` holds a normal form that is not blank, not in `seen`, and not of an earlier position. */
  ghost predicate Unseen(facts: seq<string>, seen: set<string>, norm: string -> string, i: nat)
    requires i < |facts|
  {
    norm(facts[i]) != "" && norm(facts[i]) !in seen && forall i': nat :: i' < i ==> norm(facts[i']) != norm(facts[i])
  }

  ghost predicate Picks(facts: seq<string>, kept: seq<string>, ix: seq<nat>) {
    && |ix| == |kept| && (forall k, l :: 0 <= k < l < |ix| ==> ix[k] < ix[l])
    && (forall k :: 0 <= k < |ix| ==> ix[k] < |facts| && kept[k] == facts[ix[k]])
  }

  lemma PicksSnoc(facts: seq<string>, last: string, kept: seq<string>, ix: seq<nat>)
    requires Picks(facts, kept, ix)
    ensures Picks(facts + [last], kept, ix) && Picks(facts + [last], kept + [last], ix + [|facts|])
  {
  }

  lemma UnseenSnoc(facts: seq<string>, last: string, seen: set<string>, norm: string -> string)
    ensures forall i: nat :: i < |facts| ==> (Unseen(facts + [last], seen, norm, i) <==> Unseen(facts, seen, norm, i))
    ensures Unseen(facts + [last], seen, norm, |facts|) <==> norm(last) != [] && norm(last) !in seen + Keys(facts, norm)
  {
    KeysOfOne(facts, norm);
    var all := facts + [last];
    assert all[|facts|] == last && forall i: nat :: i < |facts| ==> all[i] == facts[i];
  }

  lemma {:induction false} FreshAt(facts: seq<string>, seen: set<string>, norm: string -> string) returns (ix: seq<nat>)
    ensures Picks(facts, Fresh(facts, seen, norm), ix)
    ensures forall i: nat :: i < |facts| ==> (i in ix <==> Unseen(facts, seen, norm, i))
  {
    hide Unseen, Keys;
    ix := [];
    if facts != [] {
      hide Fresh, Picks;
      var (init, last) := (facts[..|facts| - 1], facts[|facts| - 1]);
      assert facts == init + [last];
      var before := FreshAt(init, seen, norm);
      FreshSnoc(init, last, seen, norm);
      PicksSnoc(init, last, Fresh(init, seen, norm), before);
      UnseenSnoc(init, last, seen, norm);
      PicksBelow(init, Fresh(init, seen, norm), before);
      assert Fresh(init, seen, norm) + [] == Fresh(init, seen, norm);
      ix := before + if norm(last) != [] && norm(last) !in seen + Keys(init, norm) then [|init|] else [];
    }
  }

  lemma PicksBelow(facts: seq<string>, kept: seq<string>, ix: seq<nat>)
    requires Picks(facts, kept, ix)
    ensures forall i :: i in ix ==> i < |facts|
  {
  }

  lemma SectionShows(lists: seq<seq<string>>, s: nat, seen: set<string>, norm: string -> string) returns (ix: seq<nat>)
    requires s < |lists|
    requires forall k :: k in seen <==> exists s': nat, i': nat :: s' < s && i' < |lists[s']| && norm(lists[s'][i']) == k
    ensures Shows(lists, s, Bullets(Fresh(lists[s], seen, norm)), norm, ix)
  {
    hide Fresh;
    ix := FreshAt(lists[s], seen, norm);
  }

  ghost function Lists(prefs: seq<string>, lessons: seq<string>, project: seq<string>): seq<seq<string>> {
    [prefs, lessons, project]
  }

  /** Preferences, lessons and project facts stand under their own headers, in order; a fact that several
      lists have stands under the first. */
  lemma WantedShows(prefs: seq<string>, lessons: seq<string>, project: seq<string>, proj: string, norm: string -> string)
    ensures var secs := Wanted(prefs, lessons, project, proj, norm);
            && |secs| == 3
            && secs[0].header == "**" + "Standing preferences:**"
            && secs[1].header == "**" + "Learned the hard way (recurred across sessions):**"
            && secs[2].header == "**This project (" + (if proj == [] then "current" else proj) + "):**"
            && forall s :: 0 <= s < 3 ==> Told(Lists(prefs, lessons, project), s, secs[s].bullets, norm)
  {
    hide Fresh, Keys, Shows, Bullets;
    var lists := Lists(prefs, lessons, project);
    KeysOfOne(prefs, norm);
    KeysOfOne(lessons, norm);
    var k := Keys(prefs, norm);
    var ix0 := SectionShows(lists, 0, {}, norm);
    var ix1 := SectionShows(lists, 1, k, norm);
    TwoLists(prefs, lessons, project, norm);
    var ix2 := SectionShows(lists, 2, k + Keys(lessons, norm), norm);
  }

  lemma TwoLists(prefs: seq<string>, lessons: seq<string>, project: seq<string>, norm: string -> string)
    ensures var lists := Lists(prefs, lessons, project);
            forall k :: k in Keys(prefs, norm) + Keys(lessons, norm)
                   <==> exists s': nat, i': nat :: s' < 2 && i' < |lists[s']| && norm(lists[s'][i']) == k
  {
    var lists := Lists(prefs, lessons, project);
    KeysOfOne(prefs, norm);
    KeysOfOne(lessons, norm);
    forall k | k in Keys(prefs, norm) + Keys(lessons, norm)
      ensures exists s': nat, i': nat :: s' < 2 && i' < |lists[s']| && norm(lists[s'][i']) == k
    {
      if k in Keys(prefs, norm) {
        var i: nat :| i < |prefs| && norm(prefs[i]) == k;
        assert norm(lists[0][i]) == k;
      } else {
        var i: nat :| i < |lessons| && norm(lessons[i]) == k;
        assert norm(lists[1][i]) == k;
      }
    }
  }
}
