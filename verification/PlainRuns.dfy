/** Approvals whose requests are all answered, or lost for good: what one stopped attempt leaves, and where
    a row of attempts ends. */
module PlainRuns {
  import opened Text
  import opened Lists
  import opened FactStore
  import opened Apply
  import opened Requests
  import opened Carrying
  import opened ApplyRuns

  /** The row writes an execution makes before it stops. */
  ghost function Reached(name: Naming, steps: seq<Step>, net: Net, n: nat): nat {
    if steps == [] then 0
    else Done(name, steps[0], net(n)) + if Accepted(name, steps[0], net(n)) then Reached(name, steps[1..], net, n + 1) else 0
  }

  lemma SentInFull(name: Naming, step: Step, r: Reach)
    requires !step.RetireFacts?
    ensures Sent(name, step, r) == Writes(name, step)
  {
  }

  lemma NoWrites(s: Store, name: Naming)
    ensures AllWrites(name, []) == [] && DoAll(s, name, []) == s
  {
  }

  /** An execution that spools nothing makes a prefix of the plan's writes, and all of them if it gets to
      the end. */
  lemma {:induction false} ExecutionIsPrefix(s: Store, name: Naming, steps: seq<Step>, net: Net, n: nat)
    requires (forall step :: step in steps ==> !step.RetireFacts?) && Execute(s, name, steps, net, n).queued == []
    ensures Reached(name, steps, net, n) <= |AllWrites(name, steps)|
    ensures Execute(s, name, steps, net, n).store == DoAll(s, name, AllWrites(name, steps)[..Reached(name, steps, net, n)])
    ensures Execute(s, name, steps, net, n).ok ==> Reached(name, steps, net, n) == |AllWrites(name, steps)|
    decreases |steps|
  {
    hide Writes, DoAll, Done, Refuses, Sent;
    if steps == [] {
      NoWrites(s, name);
    } else {
      assert steps[0] in steps && forall step :: step in steps[1..] ==> step in steps;
      SentInFull(name, steps[0], net(n));
      var (ws, rest) := (Writes(name, steps[0]), AllWrites(name, steps[1..]));
      var k := Done(name, steps[0], net(n));
      var next := Handle(s, name, steps[0], net(n));
      assert AllWrites(name, steps) == ws + rest;
      if Good(name, steps[0], net(n)) {
        assert Accepted(name, steps[0], net(n));
        ExecutionIsPrefix(next, name, steps[1..], net, n + 1);
        var m := Reached(name, steps[1..], net, n + 1);
        assert (ws + rest)[..|ws| + m] == ws + rest[..m];
        assert ws[..k] == ws;
        DoConcat(s, name, ws, rest[..m]);
      } else {
        assert (ws + rest)[..k] == ws[..k];
      }
    }
  }

  lemma PlanOfStores(s: Store, p: Proposal)
    requires Applicable(s, p) && p.kind != "retire"
    ensures forall step :: step in PlanApply(p, id => id in s).steps ==> !step.RetireFacts?
  {
    hide Named, Filter, Trim, Pieces;
  }

  lemma ReplacementStops(w: World, p: Proposal, id: int, name: Naming, net: Net) returns (b: nat, gone: set<string>)
    requires w.row == p && Applicable(w.store, p) && p.kind != "retire" && Attempt(w, id, name, net).spool == w.spool
    requires Trim(p.dataset) != ""
    ensures b <= |Parts(p)| && gone <= Alive(w.store, p) && (gone != {} ==> b == |Parts(p)|)
    ensures Attempt(w, id, name, net).store == Outcome(w.store, name, Place(p), Parts(p)[..b], gone, Reason(p, name, Place(p)))
    ensures Attempt(w, id, name, net).row != p ==> b == |Parts(p)| && gone == Alive(w.store, p)
  {
    hide Execute, PlanApply, Outcome, Parts, Sources, Reason, Reached, AllWrites, Alive, Puts, Withdrawals, Trim;
    var present := (x: string) => x in w.store;
    var steps := PlanApply(p, present).steps;
    var (parts, sources, ds) := (Parts(p), Sources(p, present), Place(p));
    var reason := Reason(p, name, ds);
    PlanOfStores(w.store, p);
    ExecutionIsPrefix(w.store, name, steps, net, 0);
    PlanWrites(p, present, name);
    var k := Reached(name, steps, net, 0);
    StoppedBatch(w.store, name, ds, parts, sources, reason, k);
    AliveAreSources(w.store, p);
    b := Min(k, |parts|);
    gone := Set(sources[..k - b]);
    assert |Puts(ds, parts)| == |parts| && |Withdrawals(sources, reason)| == |sources|;
    if k == |parts| + |sources| {
      assert sources[..k - b] == sources && parts[..b] == parts;
    }
  }

  /** A dataset of blanks only: the daemon refuses the first request. */
  lemma BlanksAreRefused(w: World, p: Proposal, id: int, name: Naming, net: Net)
    requires w.row == p && Applicable(w.store, p) && p.kind != "retire" && Attempt(w, id, name, net).spool == w.spool
    requires Trim(p.dataset) == ""
    ensures Attempt(w, id, name, net) == w
  {
    hide Applicable, Parts, StepsFor, PlanApply, Sent, Trim, EndStep;
    PlanIsSteps(p, w.store);
    var steps := StepsFor(p, w.store);
    EndIsLast(p, w.store);
    FirstIsRefused(p, w.store);
    DoOne(w.store, name, Put("", ""));
    assert Sent(name, steps[0], net(0))[..0] == [];
    assert w.spool + [] == w.spool;
    var e := Execute(w.store, name, steps, net, 0);
    assert |e.queued| >= |QueuedOf(steps[0], net(0))|;
    JudgeAdds(World(e.store, w.row, w.spool + e.queued), id, net(e.requests));
    assert QueuedOf(steps[0], net(0)) == [];
  }

  lemma JudgeAdds(w: World, id: int, r: Reach)
    ensures |Judge(w, id, Approved, r).spool| >= |w.spool|
  {
  }

  lemma FirstIsRefused(p: Proposal, store: Store)
    requires Parts(p) != [] && Trim(p.dataset) == ""
    ensures StepsFor(p, store) != [] && Refuses(StepsFor(p, store)[0]) && !StepsFor(p, store)[0].RetireFacts?
  {
    hide Parts, Trim, Sources;
  }

  /** Wherever an attempt that spools nothing stops, it has stored a prefix of the parts, and retired
      something only if it stored them all. */
  lemma AttemptStops(w: World, p: Proposal, id: int, name: Naming, net: Net) returns (b: nat, gone: set<string>)
    requires w.row == p && Applicable(w.store, p) && Attempt(w, id, name, net).spool == w.spool
    ensures b <= |Parts(p)| && gone <= Alive(w.store, p) && (gone != {} ==> b == |Parts(p)|)
    ensures Attempt(w, id, name, net).store == Outcome(w.store, name, Place(p), Parts(p)[..b], gone, Reason(p, name, Place(p)))
    ensures Attempt(w, id, name, net).row != p ==> b == |Parts(p)| && gone == Alive(w.store, p) - Missed(p, net)
  {
    hide Attempt, PlanApply, Outcome, Alive, KindOf, Between, Place, Trim, Reason, Drainable;
    if p.kind == "retire" {
      PlanOfRetirement(w.store, p);
      b := 0;
      var ok;
      BetweenStarts(w.store, BatchOf(p, name));
      gone, ok := RetirementTry(w.store, p, id, name, w, {}, {}, net);
      assert {} + gone == gone;
      NoPartsOutcome(p, name, w.store, Attempt(w, id, name, net).store, gone);
      assert Parts(p)[..b] == Parts(p);
    } else if Trim(p.dataset) == "" {
      b, gone := 0, {};
      BlanksAreRefused(w, p, id, name, net);
      NothingDone(w.store, name, Place(p), Reason(p, name, Place(p)));
      assert Parts(p)[..0] == [];
    } else {
      b, gone := ReplacementStops(w, p, id, name, net);
    }
  }

  lemma NoPartsOutcome(p: Proposal, name: Naming, s: Store, now: Store, gone: set<string>)
    requires Parts(p) == [] && Between(s, now, BatchOf(p, name), {}, gone)
    ensures now == Outcome(s, name, Place(p), Parts(p), gone, Reason(p, name, Place(p)))
  {
    hide Parts, Place, Between, RowBetween, Outcome, Named;
    var b := BatchOf(p, name);
    BetweenIsOutcome(s, now, b, {}, gone, Reason(p, name, Place(p)));
  }

  /** An approval that spooled nothing is recorded only for a plan carried out in full, with one
      exception: a plain retirement is approved although the update of a live source errored, and that
      source stays live. */
  lemma ApprovedMeansAppliedIff(w: World, p: Proposal, id: int, name: Naming, net: Net)
    ensures w.row == p && p.status == Pending && Attempt(w, id, name, net).row.status == Approved && Attempt(w, id, name, net).spool == w.spool ==>
              && Applicable(w.store, p)
              && (Attempt(w, id, name, net).store == Complete(w.store, p, name)
                  <==> forall x :: x in Alive(w.store, p) && Live(w.store, x) ==> x !in Missed(p, net))
  {
    hide PlanApply, Execute, Outcome, Parts, Reason, Alive, Missed, Place;
    if w.row == p && p.status == Pending && Applicable(w.store, p) && Attempt(w, id, name, net).row.status == Approved
       && Attempt(w, id, name, net).spool == w.spool {
      var (alive, missed) := (Alive(w.store, p), Missed(p, net));
      var b, gone := AttemptStops(w, p, id, name, net);
      assert Parts(p)[..b] == Parts(p);
      AliveIsStored(w.store, p);
      OutcomesDiffer(w.store, name, Place(p), Parts(p), alive - missed, alive, Reason(p, name, Place(p)));
    }
  }

  /** The client spools nothing: every request gets a reply, or its spool file cannot be written. */
  ghost predicate Unspooled(m: Move) {
    m.Try? && forall n: nat :: m.net(n).answered || !m.net(n).spooled
  }

  lemma {:induction false} NothingQueued(s: Store, name: Naming, steps: seq<Step>, net: Net, n: nat)
    requires Unspooled(Try(net))
    ensures Execute(s, name, steps, net, n).queued == []
    decreases |steps|
  {
    hide Handle, Accepted;
    assert Try(net).net == net;
    if steps != [] {
      NothingQueued(Handle(s, name, steps[0], net(n)), name, steps[1..], net, n + 1);
    }
  }

  lemma TryQueuesNothing(w: World, id: int, name: Naming, net: Net)
    requires Unspooled(Try(net))
    ensures Attempt(w, id, name, net).spool == w.spool
  {
    hide PlanApply, Execute;
    assert Try(net).net == net;
    var plan := PlanApply(w.row, fact => fact in w.store);
    if plan.Steps? {
      NothingQueued(w.store, name, plan.steps, net, 0);
    }
  }

  /** Storing a prefix of the parts and retiring some of the sources is undone by nothing and seen by
      nothing once the whole batch follows. */
  lemma AgainIsOnce(s: Store, name: Naming, dataset: string, parts: seq<string>, k: nat, gone: set<string>, more: set<string>, reason: string)
    requires k <= |parts| && gone <= more
    ensures Outcome(Outcome(s, name, dataset, parts[..k], gone, reason), name, dataset, parts, more, reason)
         == Outcome(s, name, dataset, parts, more, reason)
  {
    hide LastText, Ids;
    var half := Outcome(s, name, dataset, parts[..k], gone, reason);
    var (x, y) := (Outcome(half, name, dataset, parts, more, reason), Outcome(s, name, dataset, parts, more, reason));
    PrefixIds(name, dataset, parts, k);
    assert x.Keys == y.Keys;
    forall id | id in x.Keys ensures x[id] == y[id] {
      var before := if id in s then s[id].text else "";
      LastTextKeeps(name, dataset, parts, id, if id in half then half[id].text else "", before);
      LastTextKeeps(name, dataset, parts[..k], id, before, before);
    }
  }

  lemma PrefixIds(name: Naming, dataset: string, parts: seq<string>, k: nat)
    requires k <= |parts|
    ensures Ids(name, dataset, parts[..k]) <= Ids(name, dataset, parts)
  {
    assert forall x :: x in parts[..k] ==> x in parts;
  }

  /** Without the spool, and unless the proposal names a missing source that is one of its own parts: an
      approved proposal has left the store of one uninterrupted run, however many attempts it took. */
  lemma {:induction false} ApprovedInTheEnd(s: Store, p: Proposal, id: int, name: Naming, moves: seq<Move>)
    requires Applicable(s, p) && forall m :: m in moves ==> Unspooled(m) && Heard(p, m)
    requires !(Retires(p) && exists x :: x in Named(p) && x !in s && x in Ids(name, Place(p), Parts(p)))
    ensures var w := Run(World(s, p, []), id, name, moves);
            w.spool == [] && if w.row.status == Pending then Midway(s, p, name, w) else w == World(Complete(s, p, name), p.(status := Approved), [])
  {
    hide Applicable, Named, Parts, Reason, Ids, Attempt, Retires, Outcome, Missed, Alive, Unspooled, Place, Midway;
    PendingAtFirst(s, p);
    if moves == [] {
      StartsMidway(s, p, name);
    } else {
      var (init, m) := (moves[..|moves| - 1], moves[|moves| - 1]);
      assert m in moves && forall x :: x in init ==> x in moves;
      ApprovedInTheEnd(s, p, id, name, init);
      var w := Run(World(s, p, []), id, name, init);
      assert m.Try? by { UnspooledIsTry(m); }
      TryQueuesNothing(w, id, name, m.net);
      if w.row.status != Pending {
        Settled(w, id, name, m.net);
      } else {
        NextTry(s, p, id, name, w, m.net);
      }
    }
  }

  lemma StartsMidway(s: Store, p: Proposal, name: Naming)
    ensures Midway(s, p, name, World(s, p, []))
  {
    hide Parts, Outcome, Alive, Reason, Ids, Place;
  }

  /** Attempts so far have stored parts and retired sources, and carrying out the proposal from here comes
      to the same. */
  ghost predicate Midway(s: Store, p: Proposal, name: Naming, w: World) {
    && w.row == p
    && s.Keys <= w.store.Keys <= s.Keys + Ids(name, Place(p), Parts(p))
    && Complete(w.store, p, name) == Complete(s, p, name)
  }

  lemma UnspooledIsTry(m: Move)
    requires Unspooled(m)
    ensures m.Try?
  {
  }

  lemma NextTry(s: Store, p: Proposal, id: int, name: Naming, w: World, net: Net)
    requires Applicable(s, p) && Missed(p, net) == {} && Midway(s, p, name, w) && Attempt(w, id, name, net).spool == w.spool == []
    requires !(Retires(p) && exists x :: x in Named(p) && x !in s && x in Ids(name, Place(p), Parts(p)))
    ensures var after := Attempt(w, id, name, net);
            if after.row.status == Pending then Midway(s, p, name, after) else after == World(Complete(s, p, name), p.(status := Approved), [])
  {
    hide Applicable, Named, Parts, Reason, Ids, Attempt, Retires, Outcome, Missed, Alive, Place;
    PendingAtFirst(s, p);
    StaysApplicable(s, w.store, p);
    TryJudges(w, p, id, name, net);
    var (after, ds, parts) := (Attempt(w, id, name, net), Place(p), Parts(p));
    var b, gone := AttemptStops(w, p, id, name, net);
    var reason := Reason(p, name, ds);
    StoppedKeys(w.store, p, name, b, gone);
    NoneAppears(s, w.store, p, name);
    NoneAppears(s, after.store, p, name);
    AgainIsOnce(w.store, name, ds, parts, b, gone, Alive(s, p), reason);
    if after.row != p {
      assert parts[..|parts|] == parts && Alive(w.store, p) - {} == Alive(w.store, p);
    }
  }

  lemma StoppedKeys(s: Store, p: Proposal, name: Naming, b: nat, gone: set<string>)
    requires b <= |Parts(p)|
    ensures var now := Outcome(s, name, Place(p), Parts(p)[..b], gone, Reason(p, name, Place(p)));
            s.Keys <= now.Keys <= s.Keys + Ids(name, Place(p), Parts(p))
  {
    hide Parts, Ids, LastText, Reason, Place;
    PrefixIds(name, Place(p), Parts(p), b);
  }

  lemma NoneAppears(s: Store, now: Store, p: Proposal, name: Naming)
    requires s.Keys <= now.Keys <= s.Keys + Ids(name, Place(p), Parts(p))
    requires !(Retires(p) && exists x :: x in Named(p) && x !in s && x in Ids(name, Place(p), Parts(p)))
    ensures Alive(now, p) == Alive(s, p)
  {
    hide Parts, Ids, Named, Place;
  }

  lemma TryJudges(w: World, p: Proposal, id: int, name: Naming, net: Net)
    requires w.row == p && Applicable(w.store, p)
    ensures Attempt(w, id, name, net).row == p || Attempt(w, id, name, net).row == p.(status := Approved)
  {
    hide PlanApply, Execute;
  }

  lemma {:induction false} OnlyStepsQueued(s: Store, name: Naming, steps: seq<Step>, net: Net, n: nat)
    ensures forall e :: e in Execute(s, name, steps, net, n).queued ==> e.QueuedStep?
    decreases |steps|
  {
    hide Handle, Good;
    if steps != [] {
      OnlyStepsQueued(Handle(s, name, steps[0], net(n)), name, steps[1..], net, n + 1);
    }
  }

  /** Approving rejects a proposal, or spools its rejection, exactly when there is nothing left that it
      could be about. */
  lemma ApprovalRejectsIff(w: World, id: int, name: Naming, net: Net)
    requires w.row.status != Rejected && QueuedVerdict(id, Rejected) !in w.spool
    ensures var after := Attempt(w, id, name, net);
            after.row.status == Rejected || QueuedVerdict(id, Rejected) in after.spool
            <==> && w.row.status == Pending && (net(0).writes > 0 || (!net(0).answered && net(0).spooled))
                 && (Named(w.row) != [] || w.row.kind == "retire")
                 && forall x :: x in Named(w.row) ==> x !in w.store
  {
    hide PlanApply, Execute, Named;
    RefusedIff(w.row, x => x in w.store);
    var plan := PlanApply(w.row, x => x in w.store);
    if plan.Steps? {
      OnlyStepsQueued(w.store, name, plan.steps, net, 0);
    }
  }
}
