/** The second stage: a reciprocal-rank fusion over the first stage's shortlist. */
module Rerank {
  import opened Text
  import opened Sorting
  import opened Recall

  const RERANK_DEPTH := 30
  const RRF_K := 60.0

  /** `f32::MIN`, the score of a fact without a second-stage vector. */
  const F32_MIN := -340282346638528859811704183484516925440.0

  /** `vector` is the similarity to the stored second vector, if one is stored; `blend` is the
      second stage's weight, which the configuration keeps within [0, 1]. */
  datatype Second = Second(vector: Fact -> Option<real>, blend: real)

  /** A shortlist position and a score for it. */
  type Scored = (int, real)

  function Best(): Scored -> real {
    (p: Scored) => -p.1
  }

  function Position(): Scored -> int {
    (p: Scored) => p.0
  }

  // ---- sorting a list scored by position --------------------------------------------------

  ghost predicate ByPosition(xs: seq<Scored>) {
    forall i :: 0 <= i < |xs| ==> xs[i].0 == i
  }

  /** Where position `i` ends up. */
  ghost function PlaceOf(ys: seq<Scored>, i: int): nat {
    if ys == [] || ys[0].0 == i then 0 else 1 + PlaceOf(ys[1..], i)
  }

  lemma {:induction false} PlaceFound(ys: seq<Scored>, i: int, p: nat)
    requires p < |ys| && ys[p].0 == i
    ensures PlaceOf(ys, i) <= p && ys[PlaceOf(ys, i)].0 == i
  {
    if ys[0].0 != i {
      PlaceFound(ys[1..], i, p - 1);
    }
  }

  /** `ys` holds every position of `xs` once, best score first, equal scores in position order. */
  ghost predicate Placed(xs: seq<Scored>, ys: seq<Scored>) {
    && |ys| == |xs|
    && (forall p :: 0 <= p < |ys| ==> 0 <= ys[p].0 < |xs| && ys[p] == xs[ys[p].0])
    && (forall p, r :: 0 <= p < r < |ys| ==> ys[p].1 > ys[r].1 || (ys[p].1 == ys[r].1 && ys[p].0 < ys[r].0))
    && (forall i :: 0 <= i < |xs| ==> PlaceOf(ys, i) < |ys| && ys[PlaceOf(ys, i)] == xs[i])
  }

  lemma SortedPlaces(xs: seq<Scored>)
    requires ByPosition(xs)
    ensures Placed(xs, Sort(xs, Best()))
  {
    hide Sort, PlaceOf;
    var ys := Sort(xs, Best());
    SortKeeps(xs, Best());
    InMultiset(ys, xs);
    SortIsStable(xs, Best(), Position());
    forall p | 0 <= p < |ys| ensures 0 <= ys[p].0 < |xs| && ys[p] == xs[ys[p].0] {
      assert ys[p] in ys;
    }
    forall p, r | 0 <= p < r < |ys|
      ensures ys[p].1 > ys[r].1 || (ys[p].1 == ys[r].1 && ys[p].0 < ys[r].0)
    {
      assert Best()(ys[p]) < Best()(ys[r]) || (Best()(ys[p]) == Best()(ys[r]) && Position()(ys[p]) < Position()(ys[r]));
    }
    forall i | 0 <= i < |xs| ensures PlaceOf(ys, i) < |ys| && ys[PlaceOf(ys, i)] == xs[i] {
      assert xs[i] in ys;
      var p :| 0 <= p < |ys| && ys[p] == xs[i];
      PlaceFound(ys, i, p);
    }
  }

  /** A better score, or an equal one from an earlier position, is placed ahead. */
  lemma PlacedAhead(xs: seq<Scored>, i: int, j: int)
    requires ByPosition(xs) && 0 <= i < |xs| && 0 <= j < |xs| && i != j
    requires xs[i].1 > xs[j].1 || (xs[i].1 == xs[j].1 && i < j)
    ensures PlaceOf(Sort(xs, Best()), i) < PlaceOf(Sort(xs, Best()), j)
  {
    hide Sort, PlaceOf;
    SortedPlaces(xs);
  }

  // ---- the fused order --------------------------------------------------------------------

  ghost function SecondScores(short: seq<Fact>, second: Second): (xs: seq<Scored>)
    ensures |xs| == |short| && ByPosition(xs)
  {
    seq(|short|, i requires 0 <= i < |short| =>
      (i, if second.vector(short[i]).Some? then second.vector(short[i]).value else F32_MIN))
  }

  ghost predicate NoOpinion(short: seq<Fact>, second: Second) {
    forall i :: 0 <= i < |short| ==> SecondScores(short, second)[i].1 == F32_MIN
  }

  function Fuse(b: real, first: nat, other: nat): real {
    (1.0 - b) / (RRF_K + first as real) + b / (RRF_K + other as real)
  }

  /** Second-stage rank of shortlist position `i`. */
  ghost function Rank2(short: seq<Fact>, second: Second, i: nat): nat {
    PlaceOf(Sort(SecondScores(short, second), Best()), i)
  }

  ghost function Fused(short: seq<Fact>, second: Second): (xs: seq<Scored>)
    ensures |xs| == |short| && ByPosition(xs)
  {
    seq(|short|, i requires 0 <= i < |short| => (i, Fuse(second.blend, i, Rank2(short, second, i))))
  }

  /** Shortlist positions in the order they are returned. */
  ghost function Order(short: seq<Fact>, second: Second): seq<Scored> {
    Sort(Fused(short, second), Best())
  }

  ghost function Pick(short: seq<Fact>, order: seq<Scored>): (hits: seq<Fact>)
    requires forall p :: 0 <= p < |order| ==> 0 <= order[p].0 < |short|
    ensures |hits| == |order|
  {
    seq(|order|, p requires 0 <= p < |order| => short[order[p].0])
  }

  ghost function Reranked(short: seq<Fact>, second: Option<Second>, topK: nat): seq<Fact> {
    if second.None? then Take(short, topK)
    else if |short| <= 1 then short
    else if NoOpinion(short, second.value) then Take(short, topK)
    else
      SortedPlaces(Fused(short, second.value));
      Take(Pick(short, Order(short, second.value)), topK)
  }

  ghost function Depth(topK: nat): nat {
    if topK > RERANK_DEPTH then topK else RERANK_DEPTH
  }

  ghost function Shortlist(store: seq<Fact>, datasets: seq<string>, q: Query, topK: nat): seq<Fact> {
    Take(Ranked(store, datasets, q), Depth(topK))
  }

  method RecallReranked(store: seq<Fact>, datasets: seq<string>, q: Query, second: Option<Second>, topK: nat)
    returns (hits: seq<Fact>)
    ensures hits == Reranked(Shortlist(store, datasets, q, topK), second, topK)
  {
    hide Ranked, Sort, Fuse, PlaceOf;
    if second.None? {
      hits := RecallFacts(store, datasets, q, topK);
      RecallIsPrefix(store, datasets, q, topK, Depth(topK));
      return;
    }
    var short := RecallFacts(store, datasets, q, if topK > RERANK_DEPTH then topK else RERANK_DEPTH);
    if |short| <= 1 {
      return short;
    }
    hits := Reorder(short, second.value, topK);
  }

  method ScoreShortlist(short: seq<Fact>, second: Second) returns (scores: seq<Scored>)
    ensures scores == SecondScores(short, second)
  {
    scores := [];
    for i := 0 to |short|
      invariant scores == SecondScores(short, second)[..i]
    {
      match second.vector(short[i]) {
        case Some(s) => scores := scores + [(i, s)];
        case None => scores := scores + [(i, F32_MIN)];
      }
    }
  }

  method RankScores(scores: seq<Scored>) returns (rank2: seq<nat>)
    requires ByPosition(scores)
    ensures |rank2| == |scores| && forall i :: 0 <= i < |scores| ==> rank2[i] == PlaceOf(Sort(scores, Best()), i)
  {
    hide Sort, PlaceOf;
    var ranked := Sort(scores, Best());
    SortedPlaces(scores);
    rank2 := seq(|scores|, _ => |scores|);
    for r := 0 to |ranked|
      invariant |rank2| == |scores|
      invariant forall p :: 0 <= p < r ==> rank2[ranked[p].0] == p
    {
      rank2 := rank2[ranked[r].0 := r];
    }
  }

  method FuseRanks(short: seq<Fact>, second: Second, rank2: seq<nat>) returns (fused: seq<Scored>)
    requires |rank2| == |short| && forall i :: 0 <= i < |short| ==> rank2[i] == Rank2(short, second, i)
    ensures fused == Fused(short, second)
  {
    hide Rank2, Fuse;
    fused := [];
    for i := 0 to |short|
      invariant fused == Fused(short, second)[..i]
    {
      fused := fused + [(i, Fuse(second.blend, i, rank2[i]))];
    }
  }

  method PickFacts(short: seq<Fact>, order: seq<Scored>) returns (hits: seq<Fact>)
    requires forall p :: 0 <= p < |order| ==> 0 <= order[p].0 < |short|
    ensures hits == Pick(short, order)
  {
    hits := [];
    for p := 0 to |order|
      invariant hits == Pick(short, order)[..p]
    {
      hits := hits + [short[order[p].0]];
    }
  }

  method Reorder(short: seq<Fact>, second: Second, topK: nat) returns (hits: seq<Fact>)
    requires |short| > 1
    ensures hits == Reranked(short, Some(second), topK)
  {
    hide Sort, Fuse, PlaceOf, SecondScores, Fused, Pick, Best;
    var scores := ScoreShortlist(short, second);
    if forall i :: 0 <= i < |scores| ==> scores[i].1 == F32_MIN {
      return if |short| <= topK then short else short[..topK];
    }
    var rank2 := RankScores(scores);
    var fused := FuseRanks(short, second, rank2);
    var order := Sort(fused, Best());
    SortedPlaces(fused);
    hits := PickFacts(short, order);
    hits := if |hits| <= topK then hits else hits[..topK];
  }

  // ---- what the fusion guarantees ---------------------------------------------------------

  ghost function Reciprocal(rank: nat): real {
    1.0 / (RRF_K + rank as real)
  }

  lemma ReciprocalFalls(x: nat, y: nat)
    requires x < y
    ensures Reciprocal(x) > Reciprocal(y) > 0.0
  {
    InverseFalls(RRF_K + x as real, RRF_K + y as real);
  }

  lemma InverseFalls(a: real, c: real)
    requires 0.0 < a < c
    ensures 1.0 / a > 1.0 / c > 0.0
  {
  }

  ghost function Times(x: real, y: real): real {
    x * y
  }

  lemma FuseWeighs(b: real, first: nat, other: nat)
    ensures Fuse(b, first, other) == Times(1.0 - b, Reciprocal(first)) + Times(b, Reciprocal(other))
  {
    DivideIsScale(1.0 - b, RRF_K + first as real);
    DivideIsScale(b, RRF_K + other as real);
  }

  lemma DivideIsScale(w: real, d: real)
    requires d > 0.0
    ensures w / d == w * (1.0 / d)
  {
    var inverse := 1.0 / d;
    assert inverse * d == 1.0;
    assert (w * inverse) * d == w * (inverse * d);
  }

  lemma WeightedFalls(u: real, b: real, p: real, q: real, r: real, s: real)
    requires u >= 0.0 && b >= 0.0 && u + b == 1.0 && p > q && r > s
    ensures Times(u, p) + Times(b, r) > Times(u, q) + Times(b, s)
  {
    hide Times;
    ScaleMore(u, p, q);
    ScaleMore(b, r, s);
  }

  lemma ScaleMore(w: real, p: real, q: real)
    requires w >= 0.0 && p > q
    ensures Times(w, p) >= Times(w, q) && (w > 0.0 ==> Times(w, p) > Times(w, q))
  {
  }

  lemma FuseFalls(b: real, i: nat, j: nat, x: nat, y: nat)
    requires 0.0 <= b <= 1.0 && i < j && x < y
    ensures Fuse(b, i, x) > Fuse(b, j, y)
  {
    hide Fuse, Reciprocal, Times;
    FuseWeighs(b, i, x);
    FuseWeighs(b, j, y);
    ReciprocalFalls(i, j);
    ReciprocalFalls(x, y);
    WeightedFalls(1.0 - b, b, Reciprocal(i), Reciprocal(j), Reciprocal(x), Reciprocal(y));
  }

  /** A fact ahead in the first stage and not behind in the second stays ahead, for every blend. */
  lemma AheadInBothStaysAhead(short: seq<Fact>, second: Second, i: nat, j: nat)
    requires i < j < |short| && 0.0 <= second.blend <= 1.0
    requires SecondScores(short, second)[i].1 >= SecondScores(short, second)[j].1
    ensures Rank2(short, second, i) < Rank2(short, second, j)
    ensures PlaceOf(Order(short, second), i) < PlaceOf(Order(short, second), j)
  {
    hide Sort, PlaceOf, Fuse, Best;
    PlacedAhead(SecondScores(short, second), i, j);
    FuseFalls(second.blend, i, j, Rank2(short, second, i), Rank2(short, second, j));
    PlacedAhead(Fused(short, second), i, j);
  }

  /** The returned order is a rearrangement of the whole shortlist: every position appears, also
      without a second vector, and none twice. */
  lemma OrderIsPermutation(short: seq<Fact>, second: Second)
    ensures |Order(short, second)| == |short|
    ensures forall p :: 0 <= p < |short| ==> 0 <= Order(short, second)[p].0 < |short|
    ensures forall p, r :: 0 <= p < r < |short| ==> Order(short, second)[p].0 != Order(short, second)[r].0
    ensures forall i :: 0 <= i < |short| ==>
              && PlaceOf(Order(short, second), i) < |short|
              && Order(short, second)[PlaceOf(Order(short, second), i)].0 == i
  {
    hide Sort, PlaceOf, Fuse, Best;
    SortedPlaces(Fused(short, second));
  }

  /** Blend 0, or a store without second vectors, gives exactly what plain recall returns. */
  lemma FallsBackToRecall(store: seq<Fact>, datasets: seq<string>, q: Query, second: Second, topK: nat)
    requires topK > 0
    requires second.blend == 0.0 || NoOpinion(Shortlist(store, datasets, q, topK), second)
    ensures Reranked(Shortlist(store, datasets, q, topK), Some(second), topK) == Take(Ranked(store, datasets, q), topK)
  {
    hide Ranked, Order;
    var short := Shortlist(store, datasets, q, topK);
    RecallIsPrefix(store, datasets, q, topK, Depth(topK));
    if |short| > 1 && !NoOpinion(short, second) {
      BlendZeroKeepsOrder(short, second);
      assert Pick(short, Order(short, second)) == short;
    }
  }

  lemma BlendZeroKeepsOrder(short: seq<Fact>, second: Second)
    requires second.blend == 0.0
    ensures Order(short, second) == Fused(short, second)
  {
    hide Sort, Rank2;
    var xs := Fused(short, second);
    forall i, j | 0 <= i < j < |xs| ensures Best()(xs[i]) <= Best()(xs[j]) {
      ReciprocalFalls(i, j);
    }
    SortOfSorted(xs, Best());
  }

  /** At blend 1 the second stage's ranking is returned as it is. */
  lemma BlendOneIsSecondStage(short: seq<Fact>, second: Second, i: nat, j: nat)
    requires second.blend == 1.0 && i < |short| && j < |short|
    requires Rank2(short, second, i) < Rank2(short, second, j)
    ensures PlaceOf(Order(short, second), i) < PlaceOf(Order(short, second), j)
  {
    hide Sort, PlaceOf, Rank2, Best;
    ReciprocalFalls(Rank2(short, second, i), Rank2(short, second, j));
    PlacedAhead(Fused(short, second), i, j);
  }

  /** The result has min(topK, shortlist) facts in every case but one: asked for none, a configured
      second stage still returns a shortlist of one. */
  lemma RerankedCountIff(short: seq<Fact>, second: Option<Second>, topK: nat)
    ensures |Reranked(short, second, topK)| == (if topK < |short| then topK else |short|)
       <==> !(topK == 0 && |short| == 1 && second.Some?)
  {
    hide Order, NoOpinion;
    if second.Some? {
      OrderIsPermutation(short, second.value);
    }
  }

  /** Neither do facts of other datasets, or retired ones, change a reranked recall. */
  lemma OthersDoNotMatterReranked(x: seq<Fact>, others: seq<Fact>, y: seq<Fact>, datasets: seq<string>, q: Query,
                                  second: Option<Second>, topK: nat)
    requires forall f :: f in others ==> f.dataset !in datasets || f.superseded.Some?
    ensures Reranked(Shortlist(x + others + y, datasets, q, topK), second, topK)
         == Reranked(Shortlist(x + y, datasets, q, topK), second, topK)
  {
    hide Ranked, Reranked;
    OthersDoNotMatter(x, others, y, datasets, q, Depth(topK));
  }

  /** And it returns live facts of the asked datasets only, none twice, all from the 30 best of the first
      stage, or from as many as were asked for. */
  lemma RerankedReturns(store: seq<Fact>, datasets: seq<string>, q: Query, second: Option<Second>, topK: nat)
    ensures var hits := Reranked(Shortlist(store, datasets, q, topK), second, topK);
            && (forall h :: h in hits ==> h in store && h.superseded == None && h.dataset in datasets)
            && (forall i, j :: 0 <= i < j < |hits| ==> q.norm(hits[i].text) != q.norm(hits[j].text))
            && (forall h :: h in hits ==> h in Take(Ranked(store, datasets, q), if topK > 30 then topK else 30))
  {
    hide Ranked, Order, NoOpinion, Texts;
    var short := Shortlist(store, datasets, q, topK);
    RecallReturns(store, datasets, q, Depth(topK));
    if second.Some? {
      OrderIsPermutation(short, second.value);
    }
  }

  // ---- the order in so many words -----------------------------------------------------------------

  /** What the second stage holds of a fact; one without a vector is worth less than any similarity. */
  ghost function Worth(second: Second, f: Fact): real {
    match second.vector(f)
    case Some(v) => v
    case None => -340282346638528859811704183484516925440.0
  }

  /** The shortlist positions that the second stage puts before position `i`. */
  ghost function Before(short: seq<Fact>, second: Second, i: nat): set<int>
    requires i < |short|
  {
    set k | 0 <= k < |short| &&
      (Worth(second, short[k]) > Worth(second, short[i]) || (Worth(second, short[k]) == Worth(second, short[i]) && k < i))
  }

  lemma {:induction false} HeadsCount(ys: seq<Scored>, p: nat)
    requires p <= |ys| && forall r, r' :: 0 <= r < r' < |ys| ==> ys[r].0 != ys[r'].0
    ensures |set r | 0 <= r < p :: ys[r].0| == p
  {
    if p > 0 {
      HeadsCount(ys, p - 1);
      assert (set r | 0 <= r < p :: ys[r].0) == (set r | 0 <= r < p - 1 :: ys[r].0) + {ys[p - 1].0};
    }
  }

  /** A position's second-stage rank counts the positions before it. */
  lemma RankCounts(short: seq<Fact>, second: Second, i: nat)
    requires i < |short|
    ensures Rank2(short, second, i) == |Before(short, second, i)|
  {
    hide Sort, PlaceOf, Best;
    var xs := SecondScores(short, second);
    var ys := Sort(xs, Best());
    SortedPlaces(xs);
    var p := PlaceOf(ys, i);
    HeadsCount(ys, p);
    var heads := set r | 0 <= r < p :: ys[r].0;
    forall k ensures k in heads <==> k in Before(short, second, i) {
      if 0 <= k < |short| {
        var r := PlaceOf(ys, k);
        assert ys[r] == xs[k] && ys[p] == xs[i];
        assert r < p <==> k in Before(short, second, i);
      }
    }
    assert heads == Before(short, second, i);
  }

  /** Reciprocal ranks in both stages, weighed by the blend. */
  ghost function Merit(short: seq<Fact>, second: Second, i: nat): real
    requires i < |short|
  {
    (1.0 - second.blend) / (60.0 + i as real) + second.blend / (60.0 + |Before(short, second, i)| as real)
  }

  /** One fact is returned before another exactly if it has more merit, or as much from an earlier place. */
  lemma OrderIff(short: seq<Fact>, second: Second, i: nat, j: nat)
    requires i < |short| && j < |short| && i != j
    ensures PlaceOf(Order(short, second), i) < PlaceOf(Order(short, second), j)
       <==> var (x, y) := (Merit(short, second, i), Merit(short, second, j)); x > y || (x == y && i < j)
  {
    hide Sort, PlaceOf, Best, Rank2;
    RankCounts(short, second, i);
    RankCounts(short, second, j);
    var xs := Fused(short, second);
    assert xs[i].1 == Merit(short, second, i) && xs[j].1 == Merit(short, second, j);
    if xs[i].1 > xs[j].1 || (xs[i].1 == xs[j].1 && i < j) {
      PlacedAhead(xs, i, j);
    } else {
      PlacedAhead(xs, j, i);
    }
  }

  /** However well it did in the first stage, at blend 1 a fact without a second vector comes after every
      fact that has one. */
  lemma VectorlessIsLast(short: seq<Fact>, second: Second, i: nat, j: nat)
    requires i < |short| && j < |short| && second.blend == 1.0
    requires second.vector(short[i]).Some? && second.vector(short[i]).value >= -1.0 && second.vector(short[j]).None?
    ensures PlaceOf(Order(short, second), i) < PlaceOf(Order(short, second), j)
  {
    hide Sort, PlaceOf, Best, Order;
    PlacedAhead(SecondScores(short, second), i, j);
    BlendOneIsSecondStage(short, second, i, j);
  }

  /** One shortlist position is returned before another: by merit if the second stage holds a vector worth
      anything, else in the first stage's order. */
  ghost predicate Ahead(short: seq<Fact>, second: Second, i: nat, j: nat)
    requires i < |short| && j < |short|
  {
    if exists k :: 0 <= k < |short| && Worth(second, short[k]) != -340282346638528859811704183484516925440.0 then
      var (x, y) := (Merit(short, second, i), Merit(short, second, j)); x > y || (x == y && i < j)
    else i < j
  }

  /** With a second stage, and more than one fact to order, the result is the first `topK` of the shortlist
      in that order. */
  lemma RerankedIs(short: seq<Fact>, second: Second, topK: nat) returns (ix: seq<nat>)
    requires |short| > 1
    ensures |ix| == |short| && (forall p :: 0 <= p < |ix| ==> ix[p] < |short|)
    ensures forall p, r :: 0 <= p < r < |ix| ==> ix[p] != ix[r] && Ahead(short, second, ix[p], ix[r])
    ensures |Reranked(short, Some(second), topK)| == if topK < |short| then topK else |short|
    ensures forall p :: 0 <= p < |Reranked(short, Some(second), topK)| ==> Reranked(short, Some(second), topK)[p] == short[ix[p]]
  {
    hide Order, Merit, Worth;
    RerankedCountIff(short, Some(second), topK);
    NoOpinionIff(short, second);
    if NoOpinion(short, second) {
      ix := seq(|short|, i => i);
    } else {
      OrderIsPermutation(short, second);
      var order := Order(short, second);
      ix := seq(|short|, p requires 0 <= p < |short| => order[p].0);
      forall p, r | 0 <= p < r < |ix| ensures Ahead(short, second, ix[p], ix[r]) {
        FirstPlace(order, p);
        FirstPlace(order, r);
        OrderIff(short, second, ix[p], ix[r]);
      }
    }
  }

  lemma NoOpinionIff(short: seq<Fact>, second: Second)
    ensures NoOpinion(short, second) <==> forall k :: 0 <= k < |short| ==> Worth(second, short[k]) == -340282346638528859811704183484516925440.0
  {
    forall k | 0 <= k < |short| ensures SecondScores(short, second)[k].1 == Worth(second, short[k]) {
    }
  }

  lemma {:induction false} FirstPlace(ys: seq<Scored>, p: nat)
    requires p < |ys| && forall r, r' :: 0 <= r < r' < |ys| ==> ys[r].0 != ys[r'].0
    ensures PlaceOf(ys, ys[p].0) == p
  {
    if p > 0 {
      FirstPlace(ys[1..], p - 1);
    }
  }
}
