/** What carrying out a proposal comes to. */
module Carrying {
  import opened Text
  import opened Lists
  import opened FactStore
  import opened Apply

  ghost predicate Applicable(s: Store, p: Proposal) {
    PlanApply(p, id => id in s).Steps?
  }

  /** The sources approval would retire in this store. */
  ghost function Alive(s: Store, p: Proposal): set<string> {
    set id | Retires(p) && id in Named(p) && id in s
  }

  /** Where the parts belong.  The daemon trims a dataset and refuses one of blanks only; the drain takes
      it as it is, so parts with such a dataset can only be stored by way of the spool. */
  function Place(p: Proposal): string {
    if Trim(p.dataset) == "" then p.dataset else Trim(p.dataset)
  }

  /** The store one uninterrupted run leaves: served, or drained where the daemon refuses the dataset. */
  ghost function Complete(s: Store, p: Proposal, name: Naming): Store {
    Outcome(s, name, Place(p), Parts(p), Alive(s, p), Reason(p, name, Place(p)))
  }

  ghost function Last(p: Proposal): string {
    if Parts(p) == [] then "" else Parts(p)[|Parts(p)| - 1]
  }

  /** A replacement that names no source: the drain sets its last request aside. */
  ghost predicate Lossy(p: Proposal) {
    Retires(p) && Named(p) == []
  }

  /** The parts a drain can store. */
  ghost function Drainable(p: Proposal): seq<string> {
    if Lossy(p) && Parts(p) != [] then Parts(p)[..|Parts(p)| - 1] else Parts(p)
  }

  ghost function Reasons(p: Proposal, name: Naming): set<string> {
    {Reason(p, name, Place(p)), Reason(p, name, p.dataset)}
  }

  ghost function BatchOf(p: Proposal, name: Naming): Batch {
    Batch(name, Place(p), p.dataset, Parts(p), Drainable(p), Reasons(p, name))
  }

  /** The part is in the table, where it belongs or where a drain puts it. */
  ghost predicate InRow(s: Store, p: Proposal, name: Naming, part: string) {
    name(Place(p), part) in s || name(p.dataset, part) in s
  }

  /** Something is missing that the daemon and the drain both ask for. */
  ghost predicate Blank(p: Proposal) {
    p.kind != "retire" && (p.dataset == "" || Trim(Or(p.text)) == "")
  }

  lemma AliveAreSources(s: Store, p: Proposal)
    ensures Set(Sources(p, id => id in s)) == Alive(s, p)
  {
    hide Named;
  }

  lemma AliveIsStored(s: Store, p: Proposal)
    ensures Alive(s, p) <= s.Keys
  {
  }

  lemma AliveRises(s: Store, now: Store, p: Proposal)
    requires s.Keys <= now.Keys
    ensures Alive(s, p) <= Alive(now, p)
  {
  }

  lemma NothingAlive(s: Store, p: Proposal)
    ensures !Retires(p) || Named(p) == [] ==> Alive(s, p) == {}
  {
  }

  lemma StaysApplicable(s: Store, now: Store, p: Proposal)
    requires Applicable(s, p) && s.Keys <= now.Keys
    ensures Applicable(now, p)
    ensures Alive(s, p) <= Alive(now, p)
  {
    hide Named, KindOf, Pieces, Trim;
    var targets := Filter(Named(p), id => id in s);
    if targets != [] {
      assert targets[0] in Filter(Named(p), id => id in now);
    }
  }

  lemma PendingAtFirst(s: Store, p: Proposal)
    requires Applicable(s, p)
    ensures p.status == Pending
  {
  }

  lemma PartsAreTrimmed(p: Proposal)
    ensures forall x :: x in Parts(p) ==> Trim(x) == x
  {
    hide Trim, Pieces;
    PiecesAreTrimmed(Trim(Or(p.text)), SPLIT_SEP);
    TrimIsTrimmed(Or(p.text));
    TrimIsTrimmed(Trim(Or(p.text)));
  }

  /** Of a proposal that is not blank no part is. */
  lemma PartsAreSome(p: Proposal)
    requires !Blank(p)
    ensures forall x :: x in Parts(p) ==> x != ""
  {
    hide Trim, Pieces;
    PiecesAreTrimmed(Trim(Or(p.text)), SPLIT_SEP);
  }

  lemma DrainableAreParts(p: Proposal)
    ensures forall x :: x in Drainable(p) ==> x in Parts(p)
    ensures !Lossy(p) ==> Drainable(p) == Parts(p)
  {
    hide Parts, Lossy;
  }

  lemma PlaceIsTrimmed(p: Proposal)
    ensures Trim(p.dataset) != "" ==> Place(p) == Trim(p.dataset)
    ensures Trim(p.dataset) == "" ==> Place(p) == p.dataset
    ensures p.dataset != "" ==> Place(p) != ""
  {
    hide Trim;
  }

  /** After an uninterrupted run a fact is live exactly if it was live or new, and was not named for
      retirement; a part that is itself among the retired sources, or was retired before, is not. */
  lemma LiveAfterwards(s: Store, p: Proposal, name: Naming, id: string)
    ensures Live(Complete(s, p, name), id)
       <==> (Live(s, id) || (id !in s && id in Ids(name, Place(p), Parts(p)))) && id !in Alive(s, p)
  {
    hide Parts, Reason, Ids, Alive, LastText, Place;
  }

  /** Every part is live after an uninterrupted run, exactly if none has the id of a source that exists,
      or of a fact retired before. */
  lemma PartsAreLiveIff(s: Store, p: Proposal, name: Naming)
    ensures (forall x :: x in Parts(p) ==> Live(Complete(s, p, name), name(Place(p), x)))
       <==> forall x :: x in Parts(p) ==> var id := name(Place(p), x); id !in Alive(s, p) && (id in s ==> Live(s, id))
  {
    hide Parts, Alive, Place, Complete;
    forall x | x in Parts(p) {
      LiveAfterwards(s, p, name, name(Place(p), x));
    }
  }

  /** The text left under a part's id is the part's own, or that of a later part with the same id. */
  lemma TextAfterwards(s: Store, p: Proposal, name: Naming, i: nat)
    requires i < |Parts(p)|
    requires forall j :: i < j < |Parts(p)| ==> name(Place(p), Parts(p)[j]) != name(Place(p), Parts(p)[i])
    ensures var id := name(Place(p), Parts(p)[i]);
            id in Complete(s, p, name) && Complete(s, p, name)[id].text == Parts(p)[i]
  {
    hide Parts, Reason, Alive, LastText, Place;
    var id := name(Place(p), Parts(p)[i]);
    LastTextIs(name, Place(p), Parts(p), i, if id in s then s[id].text else "");
  }
}
