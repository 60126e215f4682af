/** Recall from the fact store, and the second stage that reorders its shortlist. */
module Recall {
  import opened Text
  import opened Sorting

  datatype Fact = Fact(id: string, dataset: string, text: string, superseded: Option<string>)

  /** What the first stage reads from a query: how well a fact matches, and which texts are one. */
  datatype Query = Query(score: Fact -> real, norm: string -> string)

  predicate Eligible(f: Fact, datasets: seq<string>) {
    f.superseded.None? && f.dataset in datasets
  }

  function Descending(score: Fact -> real): Fact -> real {
    f => -score(f)
  }

  // ---- recall -----------------------------------------------------------------------------

  ghost function Candidates(store: seq<Fact>, datasets: seq<string>): seq<Fact> {
    if store == [] then []
    else
      var init := Candidates(store[..|store| - 1], datasets);
      if Eligible(store[|store| - 1], datasets) then init + [store[|store| - 1]] else init
  }

  /** Keeps the first fact of every normalised text. */
  ghost function Dedupe(hits: seq<Fact>, norm: string -> string): seq<Fact> {
    if hits == [] then []
    else
      var (init, last) := (Dedupe(hits[..|hits| - 1], norm), hits[|hits| - 1]);
      if norm(last.text) in Norms(hits[..|hits| - 1], norm) then init else init + [last]
  }

  ghost function Norms(hits: seq<Fact>, norm: string -> string): set<string> {
    set h | h in hits :: norm(h.text)
  }

  ghost function Ranked(store: seq<Fact>, datasets: seq<string>, q: Query): seq<Fact> {
    Dedupe(Sort(Candidates(store, datasets), Descending(q.score)), q.norm)
  }

  ghost function Take<T>(xs: seq<T>, k: nat): seq<T> {
    if |xs| <= k then xs else xs[..k]
  }

  method RecallFacts(store: seq<Fact>, datasets: seq<string>, q: Query, topK: nat) returns (hits: seq<Fact>)
    ensures hits == Take(Ranked(store, datasets, q), topK)
  {
    hide Candidates, Dedupe, Sort, Norms;
    if |datasets| == 0 || topK == 0 {
      NoDatasets(store, q);
      return [];
    }
    hits := [];
    CandidatesStep(store, datasets);
    for i := 0 to |store|
      invariant hits == Candidates(store[..i], datasets)
    {
      if Eligible(store[i], datasets) {
        hits := hits + [store[i]];
      }
    }
    assert store[..|store|] == store;
    hits := Sort(hits, Descending(q.score));
    var seen: set<string> := {};
    var kept: seq<Fact> := [];
    DedupeStep(hits, q.norm);
    for i := 0 to |hits|
      invariant kept == Dedupe(hits[..i], q.norm) && seen == Norms(hits[..i], q.norm)
    {
      var n := q.norm(hits[i].text);
      if n !in seen {
        kept := kept + [hits[i]];
      }
      seen := seen + {n};
    }
    assert hits[..|hits|] == hits;
    if |kept| > topK {
      kept := kept[..topK];
    }
    hits := kept;
  }

  lemma CandidatesStep(store: seq<Fact>, datasets: seq<string>)
    ensures Candidates(store[..0], datasets) == []
    ensures forall i :: 0 <= i < |store| ==>
              Candidates(store[..i + 1], datasets) ==
                Candidates(store[..i], datasets) + if Eligible(store[i], datasets) then [store[i]] else []
  {
    forall i | 0 <= i < |store|
      ensures Candidates(store[..i + 1], datasets) ==
                Candidates(store[..i], datasets) + if Eligible(store[i], datasets) then [store[i]] else []
    {
      assert store[..i + 1][..i] == store[..i];
    }
  }

  lemma DedupeStep(hits: seq<Fact>, norm: string -> string)
    ensures Dedupe(hits[..0], norm) == [] && Norms(hits[..0], norm) == {}
    ensures forall i :: 0 <= i < |hits| ==>
              && Norms(hits[..i + 1], norm) == Norms(hits[..i], norm) + {norm(hits[i].text)}
              && Dedupe(hits[..i + 1], norm) ==
                   Dedupe(hits[..i], norm) + if norm(hits[i].text) in Norms(hits[..i], norm) then [] else [hits[i]]
  {
    forall i | 0 <= i < |hits|
      ensures Norms(hits[..i + 1], norm) == Norms(hits[..i], norm) + {norm(hits[i].text)}
      ensures Dedupe(hits[..i + 1], norm) ==
                Dedupe(hits[..i], norm) + if norm(hits[i].text) in Norms(hits[..i], norm) then [] else [hits[i]]
    {
      assert hits[..i + 1] == hits[..i] + [hits[i]];
      assert hits[..i + 1][..i] == hits[..i];
    }
  }

  lemma {:induction false} NoDatasets(store: seq<Fact>, q: Query)
    ensures Candidates(store, []) == [] && Ranked(store, [], q) == []
  {
    if store != [] {
      NoDatasets(store[..|store| - 1], q);
    }
  }

  lemma {:induction false} CandidatesAre(store: seq<Fact>, datasets: seq<string>)
    ensures forall f :: f in Candidates(store, datasets) <==> f in store && Eligible(f, datasets)
  {
    if store != [] {
      CandidatesAre(store[..|store| - 1], datasets);
      assert store == store[..|store| - 1] + [store[|store| - 1]];
    }
  }

  ghost predicate DistinctTexts(hits: seq<Fact>, norm: string -> string) {
    forall i, j :: 0 <= i < j < |hits| ==> norm(hits[i].text) != norm(hits[j].text)
  }

  lemma {:induction false} DedupeSubset(hits: seq<Fact>, norm: string -> string)
    ensures forall f :: f in Dedupe(hits, norm) ==> f in hits
  {
    hide Norms;
    if hits != [] {
      assert hits == hits[..|hits| - 1] + [hits[|hits| - 1]];
      DedupeSubset(hits[..|hits| - 1], norm);
    }
  }

  lemma NormsSnoc(hits: seq<Fact>, f: Fact, norm: string -> string)
    ensures Norms(hits + [f], norm) == Norms(hits, norm) + {norm(f.text)}
  {
  }

  lemma DistinctSnoc(hits: seq<Fact>, f: Fact, norm: string -> string)
    requires DistinctTexts(hits, norm) && norm(f.text) !in Norms(hits, norm)
    ensures DistinctTexts(hits + [f], norm)
  {
    forall i | 0 <= i < |hits| ensures norm(hits[i].text) != norm(f.text) {
      assert hits[i] in hits;
    }
  }

  lemma {:induction false} DedupeDistinct(hits: seq<Fact>, norm: string -> string)
    ensures DistinctTexts(Dedupe(hits, norm), norm)
    ensures Norms(Dedupe(hits, norm), norm) == Norms(hits, norm)
    ensures |Dedupe(hits, norm)| == |Norms(hits, norm)|
  {
    if hits != [] {
      hide Norms, DistinctTexts;
      var (init, last) := (hits[..|hits| - 1], hits[|hits| - 1]);
      assert hits == init + [last];
      DedupeDistinct(init, norm);
      NormsSnoc(init, last, norm);
      NormsSnoc(Dedupe(init, norm), last, norm);
      if norm(last.text) !in Norms(init, norm) {
        DistinctSnoc(Dedupe(init, norm), last, norm);
      }
    }
  }

  lemma {:induction false} DedupeAscends(hits: seq<Fact>, q: Query)
    requires Ascending(hits, Descending(q.score))
    ensures Ascending(Dedupe(hits, q.norm), Descending(q.score))
  {
    hide Norms, Descending;
    if hits != [] {
      var (init, last) := (hits[..|hits| - 1], hits[|hits| - 1]);
      var key := Descending(q.score);
      DedupeAscends(init, q);
      DedupeSubset(init, q.norm);
      var d := Dedupe(init, q.norm);
      forall i | 0 <= i < |d| ensures key(d[i]) <= key(last) {
        assert d[i] in init;
      }
    }
  }

  /** `f` is returned, or a fact with the same text scoring at least as high is. */
  ghost predicate Covered(f: Fact, hits: seq<Fact>, q: Query) {
    exists r :: r in hits && q.norm(r.text) == q.norm(f.text) && q.score(r) >= q.score(f)
  }

  lemma {:induction false} DedupeCovers(hits: seq<Fact>, q: Query, f: Fact)
    requires Ascending(hits, Descending(q.score)) && f in hits
    ensures Covered(f, Dedupe(hits, q.norm), q)
  {
    hide Norms;
    var (init, last) := (hits[..|hits| - 1], hits[|hits| - 1]);
    assert hits == init + [last];
    var d := Dedupe(hits, q.norm);
    if f in init {
      DedupeCovers(init, q, f);
      var r :| r in Dedupe(init, q.norm) && q.norm(r.text) == q.norm(f.text) && q.score(r) >= q.score(f);
      assert r in d;
    } else if q.norm(f.text) !in Norms(init, q.norm) {
      assert d[|d| - 1] == f;
    } else {
      var g := NormWitness(init, f, q.norm);
      assert Descending(q.score)(g) <= Descending(q.score)(f);
      DedupeCovers(init, q, g);
    }
  }

  lemma NormWitness(hits: seq<Fact>, f: Fact, norm: string -> string) returns (g: Fact)
    requires norm(f.text) in Norms(hits, norm)
    ensures g in hits && norm(g.text) == norm(f.text)
  {
    g :| g in hits && norm(g.text) == norm(f.text);
  }

  lemma SameNorms(xs: seq<Fact>, ys: seq<Fact>, norm: string -> string)
    requires forall f :: f in xs <==> f in ys
    ensures Norms(xs, norm) == Norms(ys, norm)
  {
  }

  lemma SortedCandidates(store: seq<Fact>, datasets: seq<string>, q: Query)
    ensures var sorted := Sort(Candidates(store, datasets), Descending(q.score));
            && Ascending(sorted, Descending(q.score))
            && (forall f :: f in sorted <==> f in store && Eligible(f, datasets))
            && Norms(sorted, q.norm) == Norms(Candidates(store, datasets), q.norm)
  {
    hide Candidates, Sort, Norms, Eligible;
    var all := Candidates(store, datasets);
    CandidatesAre(store, datasets);
    SortKeeps(all, Descending(q.score));
    InMultiset(Sort(all, Descending(q.score)), all);
    SortAscends(all, Descending(q.score));
    SameNorms(Sort(all, Descending(q.score)), all, q.norm);
  }

  /** The distinct texts among the live facts of these datasets. */
  ghost function Texts(store: seq<Fact>, datasets: seq<string>, norm: string -> string): set<string> {
    set f | f in store && f.superseded == None && f.dataset in datasets :: norm(f.text)
  }

  lemma TextsOfCandidates(store: seq<Fact>, datasets: seq<string>, norm: string -> string)
    ensures Norms(Candidates(store, datasets), norm) == Texts(store, datasets, norm)
  {
    hide Candidates;
    CandidatesAre(store, datasets);
    assert forall f :: f in Candidates(store, datasets) <==> f in store && f.superseded == None && f.dataset in datasets;
  }

  /** Recall returns live facts of the requested datasets, one per distinct text, as many as there
      are or as were asked for, in descending score. */
  lemma RecallReturns(store: seq<Fact>, datasets: seq<string>, q: Query, topK: nat)
    ensures var (hits, texts) := (Take(Ranked(store, datasets, q), topK), Texts(store, datasets, q.norm));
            && (forall h :: h in hits ==> h in store && h.superseded == None && h.dataset in datasets)
            && DistinctTexts(hits, q.norm)
            && |hits| == (if topK < |texts| then topK else |texts|)
            && (forall i, j :: 0 <= i < j < |hits| ==> q.score(hits[i]) >= q.score(hits[j]))
  {
    hide Candidates, Dedupe, Sort, Norms, Texts;
    TextsOfCandidates(store, datasets, q.norm);
    var sorted := Sort(Candidates(store, datasets), Descending(q.score));
    var ranked := Ranked(store, datasets, q);
    SortedCandidates(store, datasets, q);
    DedupeSubset(sorted, q.norm);
    DedupeDistinct(sorted, q.norm);
    DedupeAscends(sorted, q);
    forall i, j | 0 <= i < j < |ranked| ensures q.score(ranked[i]) >= q.score(ranked[j]) {
      assert Descending(q.score)(ranked[i]) <= Descending(q.score)(ranked[j]);
    }
  }

  /** Every eligible fact left out duplicates a returned fact scoring at least as high, or scores
      no more than any returned fact. */
  lemma RecallLeavesOut(store: seq<Fact>, datasets: seq<string>, q: Query, topK: nat, f: Fact)
    requires f in store && f.superseded == None && f.dataset in datasets
    ensures var hits := Take(Ranked(store, datasets, q), topK);
            Covered(f, hits, q) || forall r :: r in hits ==> q.score(r) >= q.score(f)
  {
    hide Candidates, Dedupe, Sort, Norms;
    var sorted := Sort(Candidates(store, datasets), Descending(q.score));
    var ranked := Ranked(store, datasets, q);
    var hits := Take(ranked, topK);
    SortedCandidates(store, datasets, q);
    DedupeCovers(sorted, q, f);
    DedupeAscends(sorted, q);
    var r :| r in ranked && q.norm(r.text) == q.norm(f.text) && q.score(r) >= q.score(f);
    var p :| 0 <= p < |ranked| && ranked[p] == r;
    if p < |hits| {
      assert hits[p] == r;
    } else {
      forall i | 0 <= i < |hits| ensures q.score(hits[i]) >= q.score(f) {
        assert Descending(q.score)(ranked[i]) <= Descending(q.score)(ranked[p]);
      }
    }
  }

  /** With room for every distinct text, no eligible fact is left out but for a better duplicate. */
  lemma RecallOfAll(store: seq<Fact>, datasets: seq<string>, q: Query, topK: nat, f: Fact)
    requires f in store && f.superseded == None && f.dataset in datasets && topK >= |Texts(store, datasets, q.norm)|
    ensures Covered(f, Take(Ranked(store, datasets, q), topK), q)
  {
    hide Candidates, Dedupe, Sort, Norms, Texts, Covered;
    TextsOfCandidates(store, datasets, q.norm);
    var sorted := Sort(Candidates(store, datasets), Descending(q.score));
    SortedCandidates(store, datasets, q);
    DedupeDistinct(sorted, q.norm);
    DedupeCovers(sorted, q, f);
  }

  /** Asking for more only appends: on one store, the result for `k` is a prefix of the result for
      any larger `k`. */
  lemma RecallIsPrefix(store: seq<Fact>, datasets: seq<string>, q: Query, k: nat, k': nat)
    requires k <= k'
    ensures Take(Take(Ranked(store, datasets, q), k'), k) == Take(Ranked(store, datasets, q), k)
  {
  }

  // ---- what recall does not depend on ---------------------------------------------------------

  lemma {:induction false} CandidatesConcat(x: seq<Fact>, y: seq<Fact>, datasets: seq<string>)
    ensures Candidates(x + y, datasets) == Candidates(x, datasets) + Candidates(y, datasets)
  {
    if y == [] {
      assert x + y == x;
    } else {
      CandidatesConcat(x, y[..|y| - 1], datasets);
      assert (x + y)[..|x + y| - 1] == x + y[..|y| - 1];
    }
  }

  lemma {:induction false} NoCandidates(others: seq<Fact>, datasets: seq<string>)
    requires forall f :: f in others ==> f.dataset !in datasets || f.superseded.Some?
    ensures Candidates(others, datasets) == []
  {
    if others != [] {
      assert others[|others| - 1] in others && forall f :: f in others[..|others| - 1] ==> f in others;
      NoCandidates(others[..|others| - 1], datasets);
    }
  }

  /** Facts of datasets that were not asked for, and retired ones, change no recall, wherever they stand. */
  lemma OthersDoNotMatter(x: seq<Fact>, others: seq<Fact>, y: seq<Fact>, datasets: seq<string>, q: Query, topK: nat)
    requires forall f :: f in others ==> f.dataset !in datasets || f.superseded.Some?
    ensures Ranked(x + others + y, datasets, q) == Ranked(x + y, datasets, q)
    ensures Take(Ranked(x + others + y, datasets, q), topK) == Take(Ranked(x + y, datasets, q), topK)
  {
    hide Candidates, Sort, Dedupe;
    NoCandidates(others, datasets);
    CandidatesConcat(x + others, y, datasets);
    CandidatesConcat(x, others, datasets);
    CandidatesConcat(x, y, datasets);
    assert Candidates(x, datasets) + [] == Candidates(x, datasets);
  }

  // ---- ties ----------------------------------------------------------------------------------

  lemma {:induction false} DedupeKeepsOrder(hits: seq<Fact>, norm: string -> string, key: Fact -> real, place: Fact -> int)
    requires Lexicographic(hits, key, place)
    ensures Lexicographic(Dedupe(hits, norm), key, place)
  {
    hide Norms;
    if hits != [] {
      var (init, last) := (hits[..|hits| - 1], hits[|hits| - 1]);
      DedupeKeepsOrder(init, norm, key, place);
      DedupeSubset(init, norm);
      var d := Dedupe(init, norm);
      forall i | 0 <= i < |d| ensures key(d[i]) < key(last) || (key(d[i]) == key(last) && place(d[i]) < place(last)) {
        assert d[i] in init;
        var j :| 0 <= j < |init| && init[j] == d[i];
      }
    }
  }

  lemma {:induction false} CandidatesTagged(store: seq<Fact>, datasets: seq<string>, place: Fact -> int)
    requires Tagged(store, place)
    ensures Tagged(Candidates(store, datasets), place)
  {
    if store != [] {
      var (init, last) := (store[..|store| - 1], store[|store| - 1]);
      CandidatesTagged(init, datasets, place);
      CandidatesAre(init, datasets);
      var all := Candidates(init, datasets);
      forall i | 0 <= i < |all| ensures place(all[i]) < place(last) {
        assert all[i] in init;
      }
    }
  }

  /** Equal scores are returned in the order of the store. */
  lemma TiesKeepStoreOrder(store: seq<Fact>, datasets: seq<string>, q: Query, topK: nat, place: Fact -> int)
    requires forall i, j :: 0 <= i < j < |store| ==> place(store[i]) < place(store[j])
    ensures var hits := Take(Ranked(store, datasets, q), topK);
            forall i, j :: 0 <= i < j < |hits| && q.score(hits[i]) == q.score(hits[j]) ==> place(hits[i]) < place(hits[j])
  {
    hide Candidates, Sort, Dedupe;
    var key := Descending(q.score);
    var sorted := Sort(Candidates(store, datasets), key);
    CandidatesTagged(store, datasets, place);
    SortIsStable(Candidates(store, datasets), key, place);
    DedupeKeepsOrder(sorted, q.norm, key, place);
    var hits := Take(Ranked(store, datasets, q), topK);
    forall i, j | 0 <= i < j < |hits| && q.score(hits[i]) == q.score(hits[j]) ensures place(hits[i]) < place(hits[j]) {
      assert key(hits[i]) == key(hits[j]);
    }
  }
}
