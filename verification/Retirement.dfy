/** What an approval does to later recalls. */
module Retirement {
  import opened FactStore
  import opened Apply
  import opened Carrying
  import Recall

  ghost function RowOf(s: Store, id: string): Recall.Fact
    requires id in s
  {
    Recall.Fact(id, s[id].dataset, s[id].text, s[id].superseded)
  }

  /** `rows` lists the facts of the table, in whatever order the store returns them. */
  ghost predicate Lists(rows: seq<Recall.Fact>, s: Store) {
    && (forall f :: f in rows ==> f.id in s && f == RowOf(s, f.id))
    && (forall id :: id in s ==> RowOf(s, id) in rows)
  }

  /** Once a proposal is carried out, no recall returns what it retired. */
  lemma ApprovalStopsRecall(s: Store, p: Proposal, name: Naming, rows: seq<Recall.Fact>, datasets: seq<string>, q: Recall.Query, topK: nat)
    requires Lists(rows, Complete(s, p, name))
    ensures forall h :: h in Recall.Take(Recall.Ranked(rows, datasets, q), topK) ==> h.id !in Alive(s, p)
  {
    hide Complete, Alive, Recall.Take, Recall.Ranked;
    Recall.RecallReturns(rows, datasets, q, topK);
    forall h | h in Recall.Take(Recall.Ranked(rows, datasets, q), topK) ensures h.id !in Alive(s, p) {
      assert h in rows && h.superseded.None?;
      LiveAfterwards(s, p, name, h.id);
    }
  }

  /** And a recall with room for every distinct text returns each part left live, or a fact with the
      same normal form that scores at least as high. */
  lemma ApprovedPartsAreRecalled(s: Store, p: Proposal, name: Naming, rows: seq<Recall.Fact>, datasets: seq<string>, q: Recall.Query,
                                 topK: nat, id: string)
    requires Lists(rows, Complete(s, p, name)) && topK >= |Recall.Texts(rows, datasets, q.norm)|
    requires id in Ids(name, Place(p), Parts(p)) && (id in s ==> Live(s, id)) && id !in Alive(s, p)
    ensures id in Complete(s, p, name)
    ensures Complete(s, p, name)[id].dataset in datasets
        ==> Recall.Covered(RowOf(Complete(s, p, name), id), Recall.Take(Recall.Ranked(rows, datasets, q), topK), q)
  {
    hide Complete, Alive, Ids, Parts, Place, Recall.Take, Recall.Covered, Recall.Ranked, Recall.Texts;
    LiveAfterwards(s, p, name, id);
    var done := Complete(s, p, name);
    if done[id].dataset in datasets {
      assert RowOf(done, id).superseded.None?;
      Recall.RecallOfAll(rows, datasets, q, topK, RowOf(done, id));
    }
  }
}
