/** From an approved proposal to the ordered steps that apply it. */
module Apply {
  import opened Text
  import opened Lists
  import opened FactStore

  const SPLIT_SEP := "\n---8<---\n"

  datatype Status = Pending | Approved | Rejected

  datatype Proposal = Proposal(kind: string, dataset: string, text: Option<string>, targets: Option<string>, status: Status)

  datatype Step =
    | StoreFact(dataset: string, text: string)
    | StoreAndRetire(dataset: string, text: string, sources: seq<string>)
    | RetireFacts(sources: seq<string>)

  datatype Refusal = NotPending | AllSourcesGone | NotASplit | EmptyReplacement | UnknownKind(kind: string)

  datatype Plan = Steps(steps: seq<Step>) | Refused(why: Refusal)

  function Or(s: Option<string>): string {
    if s.Some? then s.value else ""
  }

  function NonEmpty(parts: seq<string>): seq<string> {
    Filter(parts, p => p != "")
  }

  /** The trimmed, non-empty pieces of a cut. */
  function Pieces(s: string, sep: string): seq<string>
    requires sep != []
  {
    NonEmpty(TrimAll(Split(s, sep)))
  }

  /** The ids a proposal names. */
  function Named(p: Proposal): seq<string> {
    Pieces(Or(p.targets), ",")
  }

  function PlainStores(dataset: string, parts: seq<string>): (r: seq<Step>)
    ensures |r| == |parts| && forall i :: 0 <= i < |parts| ==> r[i] == StoreFact(dataset, parts[i])
  {
    seq(|parts|, i requires 0 <= i < |parts| => StoreFact(dataset, parts[i]))
  }

  /** Kinds that apply alike; they stay distinct names so that each one's approval rate can be told. */
  datatype Kind = Storing | Splitting | Replacing | Retiring | Unknown

  function KindOf(kind: string): Kind {
    if kind == "capture" || kind == "lesson" then Storing
    else if kind == "split" then Splitting
    else if kind == "supersede" || kind == "tidy" || kind == "contradiction" then Replacing
    else if kind == "retire" then Retiring
    else Unknown
  }

  function PlanApply(p: Proposal, present: string -> bool): Plan {
    if p.status != Pending then Refused(NotPending)
    else
      var text := Trim(Or(p.text));
      var targets := Filter(Named(p), present);
      if Named(p) != [] && targets == [] then Refused(AllSourcesGone)
      else
        match KindOf(p.kind)
        case Storing => Steps([StoreFact(p.dataset, text)])
        case Splitting =>
          var parts := Pieces(text, SPLIT_SEP);
          if |parts| < 2 then Refused(NotASplit)
          else Steps(PlainStores(p.dataset, parts[..|parts| - 1]) + [StoreAndRetire(p.dataset, parts[|parts| - 1], targets)])
        case Replacing =>
          if text == "" then Refused(EmptyReplacement) else Steps([StoreAndRetire(p.dataset, text, targets)])
        case Retiring =>
          if targets == [] then Refused(AllSourcesGone) else Steps([RetireFacts(targets)])
        case Unknown => Refused(UnknownKind(p.kind))
  }

  /** Only a proposal whose sources are all gone is resolved by its refusal. */
  function RefusalRetires(why: Refusal): bool {
    why == AllSourcesGone
  }

  // ---- what a plan writes -----------------------------------------------------------------

  /** The row writes the daemon makes for one step, in order; text and dataset arrive trimmed. */
  function Writes(name: Naming, step: Step): seq<Write> {
    match step
    case StoreFact(dataset, text) => [Put(Trim(dataset), Trim(text))]
    case StoreAndRetire(dataset, text, sources) =>
      [Put(Trim(dataset), Trim(text))] + Withdrawals(sources, name(Trim(dataset), Trim(text)))
    case RetireFacts(sources) => Withdrawals(sources, "retired")
  }

  function AllWrites(name: Naming, steps: seq<Step>): seq<Write> {
    if steps == [] then [] else Writes(name, steps[0]) + AllWrites(name, steps[1..])
  }

  /** The texts approval puts in the store. */
  function Parts(p: Proposal): seq<string> {
    if p.kind == "retire" then []
    else if p.kind == "split" then Pieces(Trim(Or(p.text)), SPLIT_SEP)
    else [Trim(Or(p.text))]
  }

  predicate Retires(p: Proposal) {
    p.kind != "capture" && p.kind != "lesson"
  }

  lemma ByKind(p: Proposal)
    ensures Retires(p) <==> KindOf(p.kind) != Storing
    ensures Parts(p) ==
              match KindOf(p.kind)
              case Retiring => []
              case Splitting => Pieces(Trim(Or(p.text)), SPLIT_SEP)
              case _ => [Trim(Or(p.text))]
  {
    hide Trim, Pieces;
  }

  /** The ids approval retires, of those that exist. */
  function Sources(p: Proposal, present: string -> bool): seq<string> {
    if Retires(p) then Filter(Named(p), present) else []
  }

  /** What a retired source is marked with, when the parts are filed in this dataset. */
  function Reason(p: Proposal, name: Naming, dataset: string): string {
    var parts := Parts(p);
    if parts == [] then "retired" else name(dataset, parts[|parts| - 1])
  }

  lemma {:induction false} PiecesAreTrimmed(s: string, sep: string)
    requires sep != []
    ensures forall p :: p in Pieces(s, sep) ==> p != "" && Trim(p) == p
  {
    var all := TrimAll(Split(s, sep));
    forall p | p in Pieces(s, sep) ensures p != "" && Trim(p) == p {
      assert p in all;
      var i :| 0 <= i < |all| && all[i] == p;
      TrimIsTrimmed(Split(s, sep)[i]);
      TrimIsTrimmed(p);
    }
  }

  lemma {:induction false} WritesOfPlainStores(name: Naming, dataset: string, parts: seq<string>, last: Step)
    requires forall p :: p in parts ==> Trim(p) == p
    ensures AllWrites(name, PlainStores(dataset, parts) + [last]) == Puts(Trim(dataset), parts) + Writes(name, last)
  {
    hide Writes, Trim, PlainStores, Puts;
    if parts == [] {
      NoPlainStores(dataset);
      assert PlainStores(dataset, parts) + [last] == [last];
      OneStep(name, last);
      assert Puts(Trim(dataset), parts) == [];
    } else {
      assert parts[0] in parts && forall p :: p in parts[1..] ==> p in parts;
      WritesOfPlainStores(name, dataset, parts[1..], last);
      PlainStoresCons(dataset, parts, last);
      StoreWrites(name, dataset, parts[0]);
      PutsCons(Trim(dataset), parts);
    }
  }

  lemma NoPlainStores(dataset: string)
    ensures PlainStores(dataset, []) == []
  {
  }

  lemma PlainStoresCons(dataset: string, parts: seq<string>, last: Step)
    requires parts != []
    ensures var steps := PlainStores(dataset, parts) + [last];
            steps[0] == StoreFact(dataset, parts[0]) && steps[1..] == PlainStores(dataset, parts[1..]) + [last]
  {
  }

  lemma PutsCons(dataset: string, parts: seq<string>)
    requires parts != []
    ensures Puts(dataset, parts) == [Put(dataset, parts[0])] + Puts(dataset, parts[1..])
  {
  }

  lemma StoreWrites(name: Naming, dataset: string, text: string)
    ensures Writes(name, StoreFact(dataset, text)) == [Put(Trim(dataset), Trim(text))]
  {
  }

  lemma OneStep(name: Naming, step: Step)
    ensures AllWrites(name, [step]) == Writes(name, step)
  {
    assert AllWrites(name, []) == [];
  }

  lemma PlanOfSplit(p: Proposal, present: string -> bool)
    ensures PlanApply(p, present).Steps? && KindOf(p.kind) == Splitting ==>
              var parts := Parts(p);
              && |parts| >= 2
              && PlanApply(p, present).steps
                 == PlainStores(p.dataset, parts[..|parts| - 1]) + [StoreAndRetire(p.dataset, parts[|parts| - 1], Sources(p, present))]
  {
    hide KindOf, Trim, Pieces, Filter, Named, PlainStores, Parts, Retires;
    ByKind(p);
  }

  /** The step that carries the retirement, if there is one; it comes last. */
  function EndStep(p: Proposal, sources: seq<string>): Step
    requires Parts(p) != []
  {
    var last := Parts(p)[|Parts(p)| - 1];
    if Retires(p) then StoreAndRetire(p.dataset, last, sources) else StoreFact(p.dataset, last)
  }

  /** Every plan but a plain retirement has this shape. */
  lemma PlanShape(p: Proposal, present: string -> bool)
    requires p.kind != "retire"
    ensures PlanApply(p, present).Steps? ==>
              var parts := Parts(p);
              && parts != []
              && PlanApply(p, present).steps == PlainStores(p.dataset, parts[..|parts| - 1]) + [EndStep(p, Sources(p, present))]
  {
    hide Trim, Pieces, Filter, Named, PlainStores, Parts, Retires, KindOf;
    ByKind(p);
    RetireByKind(p);
    if PlanApply(p, present).Steps? {
      if KindOf(p.kind) == Splitting {
        PlanOfSplit(p, present);
      } else {
        assert Parts(p)[..0] == [];
        NoPlainStores(p.dataset);
        assert PlanApply(p, present).steps == [EndStep(p, Sources(p, present))];
      }
    }
  }

  lemma RetireByKind(p: Proposal)
    ensures KindOf(p.kind) == Retiring <==> p.kind == "retire"
  {
  }

  lemma PutsSnoc(dataset: string, init: seq<string>, last: string)
    ensures Puts(dataset, init + [last]) == Puts(dataset, init) + [Put(dataset, last)]
  {
  }

  lemma EndWrites(name: Naming, dataset: string, last: string, sources: seq<string>)
    requires Trim(last) == last
    ensures Writes(name, StoreAndRetire(dataset, last, sources))
         == [Put(Trim(dataset), last)] + Withdrawals(sources, name(Trim(dataset), last))
  {
    hide Trim;
  }

  lemma SplitWrites(p: Proposal, present: string -> bool, name: Naming)
    requires KindOf(p.kind) == Splitting
    ensures PlanApply(p, present).Steps? ==>
              AllWrites(name, PlanApply(p, present).steps)
              == Puts(Trim(p.dataset), Parts(p)) + Withdrawals(Sources(p, present), Reason(p, name, Trim(p.dataset)))
  {
    hide KindOf, Trim, Pieces, AllWrites, PlanApply, Parts, Retires, Sources, Puts, Withdrawals, PlainStores, Writes;
    if PlanApply(p, present).Refused? {
      return;
    }
    ByKind(p);
    PlanOfSplit(p, present);
    PiecesAreTrimmed(Trim(Or(p.text)), SPLIT_SEP);
    var (parts, ds, sources) := (Parts(p), Trim(p.dataset), Sources(p, present));
    var (init, last) := (parts[..|parts| - 1], parts[|parts| - 1]);
    assert parts == init + [last];
    assert last in parts && forall x :: x in init ==> x in parts;
    WritesOfPlainStores(name, p.dataset, init, StoreAndRetire(p.dataset, last, sources));
    EndWrites(name, p.dataset, last, sources);
    PutsSnoc(ds, init, last);
    Assoc(Puts(ds, init), [Put(ds, last)], Withdrawals(sources, name(ds, last)));
  }

  lemma OneStepWrites(p: Proposal, present: string -> bool, name: Naming)
    requires PlanApply(p, present).Steps? && KindOf(p.kind) != Splitting
    ensures |PlanApply(p, present).steps| == 1
    ensures Writes(name, PlanApply(p, present).steps[0])
         == Puts(Trim(p.dataset), Parts(p)) + Withdrawals(Sources(p, present), Reason(p, name, Trim(p.dataset)))
  {
    hide KindOf, Trim, Pieces, Filter, Named, Parts, Retires;
    ByKind(p);
    TrimIsTrimmed(Or(p.text));
    TrimIsTrimmed(Trim(Or(p.text)));
    if KindOf(p.kind) != Retiring {
      assert Puts(Trim(p.dataset), Parts(p)) == [Put(Trim(p.dataset), Trim(Or(p.text)))];
    } else {
      assert Puts(Trim(p.dataset), Parts(p)) == [];
    }
  }

  /** Whatever its kind, a plan stores every part, in order, and only then retires the named sources
      that exist. */
  lemma PlanWrites(p: Proposal, present: string -> bool, name: Naming)
    requires PlanApply(p, present).Steps?
    ensures AllWrites(name, PlanApply(p, present).steps)
         == Puts(Trim(p.dataset), Parts(p)) + Withdrawals(Sources(p, present), Reason(p, name, Trim(p.dataset)))
  {
    hide *;
    if KindOf(p.kind) == Splitting {
      SplitWrites(p, present, name);
    } else {
      OneStepWrites(p, present, name);
      var steps := PlanApply(p, present).steps;
      assert steps == [steps[0]];
      OneStep(name, steps[0]);
    }
  }

  /** A proposal that names sources none of which exists is applied in no case, whatever its kind; and
      these are all the reasons not to apply one. */
  lemma RefusedIff(p: Proposal, present: string -> bool)
    ensures PlanApply(p, present).Refused?
       <==> || p.status != Pending
            || (Named(p) != [] && forall id :: id in Named(p) ==> !present(id))
            || (p.kind == "split" && |Pieces(Trim(Or(p.text)), SPLIT_SEP)| < 2)
            || (p.kind in {"supersede", "tidy", "contradiction"} && Trim(Or(p.text)) == "")
            || (p.kind == "retire" && Named(p) == [])
            || p.kind !in {"capture", "lesson", "split", "supersede", "tidy", "contradiction", "retire"}
    ensures PlanApply(p, present) == Refused(AllSourcesGone)
       <==> p.status == Pending && (Named(p) != [] || p.kind == "retire") && forall id :: id in Named(p) ==> !present(id)
  {
    hide Named, Pieces, Trim;
    var alive := Filter(Named(p), present);
    if alive != [] {
      assert alive[0] in alive;
    }
  }

  // ---- a split's parts survive the trip through one row -----------------------------------

  lemma TidySnoc(raw: seq<string>, last: string)
    ensures NonEmpty(TrimAll(raw + [last])) == NonEmpty(TrimAll(raw)) + if Trim(last) != "" then [Trim(last)] else []
  {
    hide Trim, Filter;
    assert TrimAll(raw + [last]) == TrimAll(raw) + [Trim(last)];
    FilterSnoc(TrimAll(raw), Trim(last), p => p != "");
  }

  lemma NothingTidied()
    ensures NonEmpty(TrimAll([])) == []
  {
  }

  /** Tidying pieces only loses: as many pieces with as many characters means nothing was lost. */
  lemma {:induction false} TidyLoses(raw: seq<string>)
    ensures var tidy := NonEmpty(TrimAll(raw));
            |tidy| <= |raw| && Sum(tidy) <= Sum(raw) && (|tidy| == |raw| && Sum(tidy) == Sum(raw) ==> tidy == raw)
  {
    hide Trim, TrimAll, NonEmpty, Sum;
    if raw == [] {
      NothingTidied();
    } else {
      var (init, last) := (raw[..|raw| - 1], raw[|raw| - 1]);
      assert raw == init + [last];
      TidyLoses(init);
      TrimShortens(last);
      TidySnoc(init, last);
      SumSnoc(init, last);
      var before := NonEmpty(TrimAll(init));
      SumSnoc(before, Trim(last));
      assert before + [] == before;
    }
  }

  lemma {:induction false} TidyKeeps(parts: seq<string>)
    requires forall p :: p in parts ==> p != "" && Trim(p) == p
    ensures NonEmpty(TrimAll(parts)) == parts
  {
    hide Trim, TrimAll, NonEmpty;
    if parts == [] {
      NothingTidied();
    } else {
      var (init, last) := (parts[..|parts| - 1], parts[|parts| - 1]);
      assert last in parts && forall p :: p in init ==> p in parts;
      assert parts == init + [last];
      TidyKeeps(init);
      TidySnoc(init, last);
    }
  }

  /** The split pass's veto: at least two parts that keep 60% of the characters between them. */
  function PlanSplit(candidates: seq<string>, original: string): (r: Option<seq<string>>)
    ensures r.Some? ==> |r.value| >= 2
  {
    var parts := NonEmpty(TrimAll(candidates));
    if |parts| < 2 || 10 * Sum(parts) < 6 * |original| then None else Some(parts)
  }

  /** The veto in so many words: two or more parts, with at least six tenths of the original's characters. */
  lemma PlanSplitIff(candidates: seq<string>, original: string)
    requires original != ""
    ensures var parts := NonEmpty(TrimAll(candidates));
            && (PlanSplit(candidates, original).Some? <==> |parts| >= 2 && Sum(parts) as real / |original| as real >= 0.6)
            && (PlanSplit(candidates, original).Some? ==> PlanSplit(candidates, original).value == parts)
  {
    hide NonEmpty, Sum, TrimAll;
    var (n, d) := (Sum(NonEmpty(TrimAll(candidates))), |original|);
    AtLeast(n as real, d as real);
    assert 10.0 * n as real >= 6.0 * d as real <==> 10 * n >= 6 * d;
  }

  lemma AtLeast(x: real, d: real)
    requires d > 0.0
    ensures x / d >= 0.6 <==> 10.0 * x >= 6.0 * d
  {
    var r := x / d;
    assert x == r * d;
    if r >= 0.6 {
      assert (r - 0.6) * d >= 0.0;
    } else {
      assert (0.6 - r) * d > 0.0;
    }
  }

  lemma TidyIsTidy(candidates: seq<string>)
    ensures forall p :: p in NonEmpty(TrimAll(candidates)) ==> p != "" && Trim(p) == p
  {
    var all := TrimAll(candidates);
    forall p | p in NonEmpty(all) ensures p != "" && Trim(p) == p {
      assert p in all;
      var i :| 0 <= i < |all| && all[i] == p;
      TrimIsTrimmed(candidates[i]);
      TrimIsTrimmed(p);
    }
  }

  lemma JoinIsTrimmed(parts: seq<string>, sep: string)
    requires parts != [] && forall p :: p in parts ==> p != "" && Trim(p) == p
    ensures Trim(Join(parts, sep)) == Join(parts, sep)
  {
    hide Trim;
    TidyEnds(parts, sep);
    TrimIsTrimmed(Join(parts, sep));
  }

  lemma {:induction false} TidyEnds(parts: seq<string>, sep: string)
    requires parts != [] && forall p :: p in parts ==> p != "" && Trim(p) == p
    ensures var t := Join(parts, sep); t != [] && !IsSpace(t[0]) && !IsSpace(t[|t| - 1])
  {
    hide Trim, IsSpace;
    assert parts[0] in parts;
    TrimIsTrimmed(parts[0]);
    if |parts| > 1 {
      assert forall p :: p in parts[1..] ==> p in parts;
      TidyEnds(parts[1..], sep);
      var (t, rest) := (Join(parts, sep), Join(parts[1..], sep));
      assert t[0] == parts[0][0] && t[|t| - 1] == rest[|rest| - 1];
    } else {
      JoinOne(parts[0], sep);
      assert parts == [parts[0]];
    }
  }

  /** The parts of a split come back out of their single row exactly when they are separable there. */
  lemma SplitReadsBackIff(parts: seq<string>)
    requires parts != [] && forall p :: p in parts ==> p != "" && Trim(p) == p
    ensures Pieces(Trim(Join(parts, SPLIT_SEP)), SPLIT_SEP) == parts <==> Separable(parts, SPLIT_SEP)
  {
    hide Trim, Split, Join, Separable, Sum, NonEmpty;
    JoinIsTrimmed(parts, SPLIT_SEP);
    var joined := Join(parts, SPLIT_SEP);
    var raw := Split(joined, SPLIT_SEP);
    SplitJoinIff(parts, SPLIT_SEP);
    if raw == parts {
      TidyKeeps(parts);
    } else if Pieces(joined, SPLIT_SEP) == parts {
      TidyLoses(raw);
      JoinSplit(joined, SPLIT_SEP);
      JoinLength(parts, SPLIT_SEP);
      JoinLength(raw, SPLIT_SEP);
      assert false;
    }
  }

  /** What the split pass accepted is what approval stores, exactly when the parts are separable. */
  lemma SplitSurvivesIff(p: Proposal, candidates: seq<string>, original: string)
    requires p.kind == "split" && PlanSplit(candidates, original).Some?
    requires p.text == Some(Join(PlanSplit(candidates, original).value, SPLIT_SEP))
    ensures Parts(p) == PlanSplit(candidates, original).value <==> Separable(PlanSplit(candidates, original).value, SPLIT_SEP)
  {
    hide KindOf, Trim, Split, Join, Separable, Sum, NonEmpty, Pieces;
    TidyIsTidy(candidates);
    SplitReadsBackIff(PlanSplit(candidates, original).value);
  }

  lemma SingleIsTidy(c: char)
    requires !IsSpace(c)
    ensures Trim([c]) == [c]
  {
    TrimIsTrimmed([c]);
  }

  /** A part that holds the separator does not survive: it comes back as two. */
  lemma PartWithSeparatorIsCut()
    ensures Pieces(Trim(Join(["a" + SPLIT_SEP + "b", "c"], SPLIT_SEP)), SPLIT_SEP) == ["a", "b", "c"]
  {
    hide Trim, Split, Pieces, Find, NonEmpty;
    var cut := ["a", "b", "c"];
    assert Join(["a" + SPLIT_SEP + "b", "c"], SPLIT_SEP) == Join(cut, SPLIT_SEP) by { JoinTwoThree("a", "b", "c"); }
    SingleIsTidy('a');
    SingleIsTidy('b');
    SingleIsTidy('c');
    CleanWithoutFirst("a", SPLIT_SEP);
    CleanWithoutFirst("b", SPLIT_SEP);
    CleanWithoutFirst("c", SPLIT_SEP);
    SplitReadsBackIff(cut);
  }

  lemma JoinTwoThree(x: string, y: string, z: string)
    ensures Join([x + SPLIT_SEP + y, z], SPLIT_SEP) == Join([x, y, z], SPLIT_SEP)
  {
    JoinCons(x + SPLIT_SEP + y, [z], SPLIT_SEP);
    JoinCons(x, [y, z], SPLIT_SEP);
    JoinCons(y, [z], SPLIT_SEP);
    JoinOne(z, SPLIT_SEP);
    assert [x + SPLIT_SEP + y] + [z] == [x + SPLIT_SEP + y, z] && [x] + [y, z] == [x, y, z] && [y] + [z] == [y, z];
  }
}
