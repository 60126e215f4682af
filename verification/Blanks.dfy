/** Proposals without a dataset or a text: whatever is tried, nothing is ever written. */
module Blanks {
  import opened Text
  import opened Lists
  import opened FactStore
  import opened Apply
  import opened Requests
  import opened Carrying

  ghost predicate Empty(name: Naming, step: Step) {
    !step.RetireFacts? && Refuses(step) && forall failing :: DrainWrites(name, step, failing) == []
  }

  lemma BlankSteps(s: Store, p: Proposal, name: Naming)
    requires Applicable(s, p) && Blank(p)
    ensures forall step :: step in PlanApply(p, x => x in s).steps ==> Empty(name, step)
  {
    hide KindOf, Pieces, Named, Filter, Trim, PlainStores;
    RetireByKind(p);
    TrimIsTrimmed(Or(p.text));
    TrimIsTrimmed(Trim(Or(p.text)));
    TrimIsTrimmed("");
    if KindOf(p.kind) == Splitting {
      BlankPieces(p);
    }
    forall step | step in PlanApply(p, x => x in s).steps ensures Empty(name, step) {
      assert !step.RetireFacts? && (step.dataset == "" || Trim(step.text) == "");
    }
  }

  lemma BlankPieces(p: Proposal)
    ensures Trim(Or(p.text)) == "" ==> |Pieces(Trim(Or(p.text)), SPLIT_SEP)| < 2
  {
    hide Trim;
    assert Find("", SPLIT_SEP) == None;
    assert Split("", SPLIT_SEP) == [""];
  }

  ghost predicate OnlyEmpty(name: Naming, spool: seq<Entry>) {
    forall e :: e in spool && e.QueuedStep? ==> Empty(name, e.step)
  }

  lemma {:induction false} EmptyExecution(s: Store, name: Naming, steps: seq<Step>, net: Net, n: nat)
    requires forall step :: step in steps ==> Empty(name, step)
    ensures var e := Execute(s, name, steps, net, n);
            e.store == s && OnlyEmpty(name, e.queued)
    decreases |steps|
  {
    hide Empty, Sent, Writes, DrainWrites;
    if steps != [] {
      assert steps[0] in steps && forall step :: step in steps[1..] ==> step in steps;
      EmptyHandle(s, name, steps[0], net(n));
      EmptyExecution(s, name, steps[1..], net, n + 1);
    }
  }

  lemma EmptyHandle(s: Store, name: Naming, step: Step, r: Reach)
    requires Empty(name, step)
    ensures Handle(s, name, step, r) == s
  {
    hide Sent;
    DoOne(s, name, Put("", ""));
    assert Sent(name, step, r)[..0] == [];
  }

  /** Over any run a blank proposal writes nothing, although its row may come to say approved. */
  lemma {:induction false} BlankWritesNothing(s: Store, p: Proposal, id: int, name: Naming, moves: seq<Move>)
    requires Blank(p)
    ensures var w := Run(World(s, p, []), id, name, moves);
            w.store == s && OnlyEmpty(name, w.spool) && w.row == p.(status := w.row.status)
  {
    hide Moved, OnlyEmpty, Blank;
    if moves == [] {
      assert OnlyEmpty(name, []) by { NothingIsEmpty(name); }
    } else {
      var (init, last) := (moves[..|moves| - 1], moves[|moves| - 1]);
      BlankWritesNothing(s, p, id, name, init);
      BlankMove(Run(World(s, p, []), id, name, init), p, id, name, last);
    }
  }

  lemma NothingIsEmpty(name: Naming)
    ensures OnlyEmpty(name, [])
  {
  }

  lemma BlankMove(w: World, p: Proposal, id: int, name: Naming, m: Move)
    requires Blank(p) && w.row == p.(status := w.row.status) && OnlyEmpty(name, w.spool)
    ensures var after := Moved(w, id, name, m);
            after.store == w.store && OnlyEmpty(name, after.spool) && after.row == p.(status := after.row.status)
  {
    hide PlanApply, Execute, Trim, DrainWrites, Empty;
    match m
    case Try(net) =>
      if Applicable(w.store, w.row) {
        BlankSteps(w.store, w.row, name);
        EmptyExecution(w.store, name, PlanApply(w.row, x => x in w.store).steps, net, 0);
      }
    case Drains(i, d) =>
      if i < |w.spool| {
        InWithout(w.spool, i);
        assert w.spool[i] in w.spool;
        if w.spool[i].QueuedStep? {
          EmptyDrains(w.store, name, w.spool[i], d);
        }
      }
  }

  lemma EmptyDrains(s: Store, name: Naming, e: Entry, d: Draining)
    requires e.QueuedStep? && Empty(name, e.step)
    ensures Drained(s, name, e, d) == s
  {
    hide DrainWrites;
    DoOne(s, name, Put("", ""));
  }

  /** There is nothing that carrying out the proposal would change. */
  ghost predicate NothingToDo(s: Store, p: Proposal, name: Naming) {
    && (forall id :: id in Ids(name, Place(p), Parts(p)) ==> id in s && s[id].text == LastText(name, Place(p), Parts(p), id, ""))
    && forall x :: x in Alive(s, p) ==> !Live(s, x)
  }

  lemma NothingToDoIff(s: Store, p: Proposal, name: Naming)
    ensures Complete(s, p, name) == s <==> NothingToDo(s, p, name)
  {
    hide Parts, Place, Alive, Reason, Ids, LastText;
    AliveIsStored(s, p);
    var (ds, parts, done) := (Place(p), Parts(p), Complete(s, p, name));
    forall id | id in done
      ensures id in s ==> (done[id] == s[id] <==> (id in Ids(name, ds, parts) ==> s[id].text == LastText(name, ds, parts, id, ""))
                                                  && (id in Alive(s, p) ==> !Live(s, id)))
    {
      if id in s {
        LastTextKeeps(name, ds, parts, id, s[id].text, "");
      }
    }
    if NothingToDo(s, p, name) {
      assert done.Keys == s.Keys;
    }
    if done == s {
      forall id | id in Ids(name, ds, parts) ensures id in s && s[id].text == LastText(name, ds, parts, id, "") {
        assert id in done;
      }
    }
  }
}
