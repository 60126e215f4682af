/** What every run of approvals and drains keeps, however requests are stopped, lost, spooled and
    reordered. */
module ApplyRuns {
  import opened Text
  import opened Lists
  import opened FactStore
  import opened Apply
  import opened Requests
  import opened Carrying
  import opened Blanks

  // ---- one request ------------------------------------------------------------------------

  function SourcesOf(step: Step): seq<string> {
    if step.StoreAndRetire? then step.sources else []
  }

  /** The step is for a part of the batch, and retires facts that exist.  Only a last part without
      sources is one that the drain cannot store. */
  ghost predicate Fits(b: Batch, now: Store, step: Step) {
    && !step.RetireFacts?
    && step.dataset == b.other != "" && (Trim(step.dataset) == b.dataset || Trim(step.dataset) == "")
    && step.text == Trim(step.text) != "" && step.text in b.parts
    && (step.text in b.drained || (step.StoreAndRetire? && step.sources == []))
    && (forall x :: x in SourcesOf(step) ==> x in now)
    && (step.StoreAndRetire? ==> {b.name(b.dataset, step.text), b.name(b.other, step.text)} <= b.reasons)
  }

  /** The part is stored, by the one way or the other. */
  ghost predicate Has(b: Batch, made: set<string>, text: string) {
    b.name(b.dataset, text) in made || (text in b.drained && b.name(b.other, text) in made)
  }

  lemma HasRises(b: Batch, made: set<string>, made': set<string>)
    requires made <= made'
    ensures forall x :: Has(b, made, x) ==> Has(b, made', x)
  {
  }

  lemma FitsWrites(b: Batch, now: Store, step: Step, r: Reach)
    requires Fits(b, now, step)
    ensures !Refuses(step) ==> Sent(b.name, step, r) == StoreThenRetire(b.name, b.dataset, step.text, SourcesOf(step))
    ensures Goes(b, b.dataset, step.text) && !step.RetireFacts?
  {
    hide Trim;
    if step.StoreFact? {
      assert Withdrawals([], b.name(b.dataset, step.text)) == [];
    }
  }

  lemma FitsDrains(b: Batch, now: Store, step: Step, failing: set<string>)
    requires Fits(b, now, step) && (step.StoreAndRetire? ==> step.sources != [])
    ensures DrainWrites(b.name, step, failing)
         == StoreThenRetire(b.name, b.other, step.text, Filter(SourcesOf(step), id => id !in failing))
    ensures Goes(b, b.other, step.text)
  {
    hide Trim;
    if step.StoreFact? {
      assert Filter([], id => id !in failing) == [];
      assert Withdrawals([], b.name(b.other, step.text)) == [];
    }
  }

  /** Served requests and drained entries alike: nothing happens, or the part is stored before any
      source is retired. */
  lemma StoppedKeeps(s: Store, now: Store, b: Batch, made: set<string>, gone: set<string>, step: Step, dataset: string, sources: seq<string>, k: nat)
    returns (made': set<string>, gone': set<string>)
    requires Between(s, now, b, made, gone) && Fits(b, now, step) && Goes(b, dataset, step.text)
    requires dataset == b.dataset || (dataset == b.other && step.text in b.drained)
    requires k <= 1 + |sources| && forall x :: x in sources ==> x in SourcesOf(step)
    ensures Between(s, DoAll(now, b.name, StoreThenRetire(b.name, dataset, step.text, sources)[..k]), b, made', gone')
    ensures made <= made' && gone <= gone' <= gone + Set(sources)
    ensures k > 0 ==> Has(b, made', step.text)
    ensures gone' != gone ==> Has(b, made', step.text) && step.StoreAndRetire?
    ensures k == 1 + |sources| ==> Set(sources) <= gone'
  {
    hide Between, DoAll, Trim, Goes, StoreThenRetire;
    if k == 0 {
      made', gone' := made, gone;
      DoOne(now, b.name, Put(dataset, step.text));
      assert StoreThenRetire(b.name, dataset, step.text, sources)[..0] == [];
    } else {
      if sources != [] {
        assert sources[0] in SourcesOf(step);
      }
      StoppedBetween(s, now, b, made, gone, dataset, step.text, sources, k);
      made', gone' := made + {b.name(dataset, step.text)}, gone + Set(sources[..k - 1]);
      assert forall x :: x in sources[..k - 1] ==> x in sources;
      if k == 1 + |sources| {
        assert sources[..k - 1] == sources;
      }
    }
  }

  lemma RequestKeeps(s: Store, now: Store, b: Batch, made: set<string>, gone: set<string>, step: Step, r: Reach)
    returns (made': set<string>, gone': set<string>)
    requires Between(s, now, b, made, gone) && Fits(b, now, step)
    ensures Between(s, Handle(now, b.name, step, r), b, made', gone')
    ensures One(b, step, r, made, gone, made', gone')
  {
    hide Between, DoAll, Fits, Withdrawals, Sent, Refuses, Goes, Has;
    FitsWrites(b, now, step, r);
    if Refuses(step) {
      made', gone' := made, gone;
      DoOne(now, b.name, Put("", ""));
      assert Sent(b.name, step, r)[..0] == [];
    } else {
      assert |Sent(b.name, step, r)| == 1 + |SourcesOf(step)|;
      made', gone' := StoppedKeeps(s, now, b, made, gone, step, b.dataset, SourcesOf(step), Done(b.name, step, r));
    }
  }

  // ---- one attempt ------------------------------------------------------------------------

  ghost predicate Kept(b: Batch, made: set<string>, spool: seq<Entry>, step: Step) {
    (!step.RetireFacts? && Has(b, made, step.text)) || QueuedStep(step) in spool
  }

  ghost predicate Ends(b: Batch, now: Store, steps: seq<Step>) {
    && (forall step :: step in steps ==> Fits(b, now, step))
    && (forall i :: 0 <= i < |steps| - 1 ==> steps[i].StoreFact?)
  }

  /** What an execution of `steps` from `made` and `gone` leaves: if the client got to the end, or
      anything was retired, each step was carried out or is in the spool. */
  ghost predicate Carried(b: Batch, steps: seq<Step>, e: Execution, made: set<string>, gone: set<string>, made': set<string>, gone': set<string>) {
    && made <= made'
    && gone <= gone'
    && (forall x :: x in e.queued ==> x.QueuedStep? && x.step in steps)
    && (e.ok || gone' != gone ==> forall step :: step in steps ==> Kept(b, made', e.queued, step))
    && (forall x :: x in e.queued && x.QueuedStep? && x.step.StoreAndRetire? ==> e.ok)
    && (steps == [] ==> gone' == gone && e.ok)
    && (steps != [] ==>
          var last := steps[|steps| - 1];
          && gone' <= gone + Set(SourcesOf(last))
          && (gone' != gone ==> last.StoreAndRetire? && Has(b, made', last.text))
          && (e.ok ==> Set(SourcesOf(last)) <= gone' || QueuedStep(last) in e.queued))
  }

  lemma {:induction false} ExecutionKeeps(s: Store, now: Store, b: Batch, made: set<string>, gone: set<string>, steps: seq<Step>, net: Net, n: nat)
    returns (made': set<string>, gone': set<string>)
    requires Between(s, now, b, made, gone) && Ends(b, now, steps)
    ensures var e := Execute(now, b.name, steps, net, n);
            Between(s, e.store, b, made', gone') && Carried(b, steps, e, made, gone, made', gone')
    decreases |steps|
  {
    hide Between, Handle, Fits, Good, Accepted, Carried, QueuedOf;
    if steps == [] {
      made', gone' := made, gone;
      NothingCarried(b, made, gone);
    } else {
      assert steps[0] in steps;
      var rest := steps[1..];
      var next := Handle(now, b.name, steps[0], net(n));
      var made1, gone1 := RequestKeeps(s, now, b, made, gone, steps[0], net(n));
      if |steps| > 1 {
        assert gone1 == gone;
      }
      if Good(b.name, steps[0], net(n)) {
        EndsTail(s, now, next, b, made, gone, made1, gone1, steps);
        made', gone' := ExecutionKeeps(s, next, b, made1, gone1, rest, net, n + 1);
        CarriedCons(b, steps, net(n), Execute(next, b.name, rest, net, n + 1), made, gone, made1, gone1, made', gone');
      } else {
        made', gone' := made1, gone1;
        CarriedStop(b, steps, net(n), next, n + 1, made, gone, made1, gone1);
      }
    }
  }

  lemma NothingCarried(b: Batch, made: set<string>, gone: set<string>)
    ensures forall store, n :: Carried(b, [], Execution(store, true, n, []), made, gone, made, gone)
  {
  }

  /** What `RequestKeeps` says of one request. */
  ghost predicate One(b: Batch, step: Step, r: Reach, made: set<string>, gone: set<string>, made': set<string>, gone': set<string>) {
    && !step.RetireFacts? && made <= made' && gone <= gone' <= gone + Set(SourcesOf(step))
    && (gone' != gone ==> Has(b, made', step.text) && step.StoreAndRetire?)
    && (Accepted(b.name, step, r) ==> Has(b, made', step.text) && Set(SourcesOf(step)) <= gone')
  }

  lemma CarriedStop(b: Batch, steps: seq<Step>, r: Reach, store: Store, n: nat, made: set<string>, gone: set<string>, made': set<string>, gone': set<string>)
    requires steps != [] && One(b, steps[0], r, made, gone, made', gone') && !Good(b.name, steps[0], r)
    requires |steps| > 1 ==> gone' == gone
    ensures Carried(b, steps, Execution(store, false, n, QueuedOf(steps[0], r)), made, gone, made', gone')
  {
    hide Accepted;
    GoodIs(b.name, steps[0], r);
    if |steps| == 1 {
      assert forall step :: step in steps ==> step == steps[0];
    }
  }

  lemma CarriedCons(b: Batch, steps: seq<Step>, r: Reach, e: Execution, made: set<string>, gone: set<string>,
                    made1: set<string>, gone1: set<string>, made': set<string>, gone': set<string>)
    requires steps != [] && One(b, steps[0], r, made, gone, made1, gone1) && Good(b.name, steps[0], r)
    requires (|steps| > 1 ==> gone1 == gone && steps[0].StoreFact?) && Carried(b, steps[1..], e, made1, gone1, made', gone')
    ensures Carried(b, steps, e.(queued := QueuedOf(steps[0], r) + e.queued), made, gone, made', gone')
  {
    hide Accepted, Good, Has, Set, SourcesOf;
    HasRises(b, made1, made');
    GoodIs(b.name, steps[0], r);
    var (rest, queued) := (steps[1..], QueuedOf(steps[0], r) + e.queued);
    assert forall step :: step in steps ==> step == steps[0] || step in rest;
    assert forall x :: x in queued <==> x in QueuedOf(steps[0], r) || x in e.queued;
    assert Kept(b, made', queued, steps[0]);
    if |steps| > 1 {
      assert rest[|rest| - 1] == steps[|steps| - 1];
    } else {
      assert rest == [] && gone' == gone1;
    }
  }

  lemma GoodIs(name: Naming, step: Step, r: Reach)
    ensures Good(name, step, r) <==> Accepted(name, step, r) || QueuedOf(step, r) == [QueuedStep(step)]
    ensures QueuedOf(step, r) == [] || QueuedOf(step, r) == [QueuedStep(step)]
    ensures !Good(name, step, r) ==> QueuedOf(step, r) == []
  {
  }

  lemma EndsTail(s: Store, now: Store, next: Store, b: Batch, made: set<string>, gone: set<string>, made': set<string>, gone': set<string>, steps: seq<Step>)
    requires Ends(b, now, steps) && steps != []
    requires Between(s, now, b, made, gone) && Between(s, next, b, made', gone') && made <= made'
    ensures Ends(b, next, steps[1..])
    ensures forall step :: step in steps[1..] ==> Fits(b, now, step)
  {
    hide Trim, RowBetween;
    assert now.Keys <= next.Keys;
    assert forall step :: step in steps[1..] ==> step in steps;
  }

  // ---- what every run keeps -----------------------------------------------------------------

  /** A spool entry that approving the proposal wrote. */
  ghost predicate Entered(p: Proposal, id: int, store: Store, e: Entry) {
    match e
    case QueuedVerdict(i, status) => i == id && status == Approved
    case QueuedStep(step) =>
      && p.kind != "retire" && !step.RetireFacts? && step.dataset == p.dataset && step.text in Parts(p)
      && (step.text in Drainable(p) || (step.StoreAndRetire? && step.sources == []))
      && (step.StoreAndRetire? ==> && Retires(p) && step.text == Last(p) && Set(step.sources) <= Alive(store, p)
                                   && (step.sources == [] ==> Named(p) == []))
  }

  ghost predicate EndEntry(p: Proposal, e: Entry) {
    e.QueuedStep? && !e.step.RetireFacts? && e.step.text == Last(p) && (e.step.StoreAndRetire? <==> Retires(p))
  }

  /** Every part is stored or in the spool, except a last part that the drain set aside. */
  ghost predicate PartsKept(p: Proposal, b: Batch, made: set<string>, spool: seq<Entry>) {
    && (forall i :: 0 <= i < |Parts(p)| - 1 ==> Kept(b, made, spool, StoreFact(p.dataset, Parts(p)[i])))
    && (Parts(p) != [] ==> Has(b, made, Last(p)) || Lossy(p) || exists e :: e in spool && EndEntry(p, e))
  }

  /** Something was retired or judged, or is bound to be by the spool. */
  ghost predicate Committed(p: Proposal, w: World, gone: set<string>) {
    gone != {} || w.row != p || exists e :: e in w.spool && (e.QueuedVerdict? || e.step.StoreAndRetire?)
  }

  ghost predicate Sound(s: Store, p: Proposal, id: int, name: Naming, w: World, made: set<string>, gone: set<string>) {
    var b := BatchOf(p, name);
    && Between(s, w.store, b, made, gone)
    && gone <= Alive(w.store, p)
    && (w.row == p || w.row == p.(status := Approved))
    && (forall e :: e in w.spool ==> Entered(p, id, w.store, e))
    && (Committed(p, w, gone) ==> PartsKept(p, b, made, w.spool))
    && (gone != {} && Parts(p) != [] ==> Has(b, made, Last(p)))
  }

  /** Once the proposal is judged, or the verdict is in the spool, so is every retirement. */
  ghost predicate Settling(s: Store, p: Proposal, w: World, gone: set<string>) {
    (w.row != p || exists e :: e in w.spool && e.QueuedVerdict?)
    ==> forall x :: x in Alive(s, p) ==> x in gone || exists e :: e in w.spool && RetiresLater(e, x)
  }

  ghost predicate RetiresLater(e: Entry, x: string) {
    e.QueuedStep? && e.step.StoreAndRetire? && x in e.step.sources
  }

  lemma StartsSound(s: Store, p: Proposal, id: int, name: Naming)
    ensures Sound(s, p, id, name, World(s, p, []), {}, {}) && Settling(s, p, World(s, p, []), {})
  {
    BetweenStarts(s, BatchOf(p, name));
  }

  lemma EnteredStays(p: Proposal, id: int, s: Store, now: Store, e: Entry)
    requires Entered(p, id, s, e) && s.Keys <= now.Keys
    ensures Entered(p, id, now, e)
  {
    hide Named, Parts;
    AliveRises(s, now, p);
  }

  lemma PartsStayKept(p: Proposal, b: Batch, made: set<string>, spool: seq<Entry>, made': set<string>, spool': seq<Entry>)
    requires PartsKept(p, b, made, spool) && made <= made' && forall e :: e in spool ==> e in spool'
    ensures PartsKept(p, b, made', spool')
  {
    hide Has, Parts, EndEntry, Lossy;
    HasRises(b, made, made');
  }

  /** A resolved proposal is never applied again. */
  lemma Settled(w: World, id: int, name: Naming, net: Net)
    requires w.row.status != Pending
    ensures Attempt(w, id, name, net) == w
  {
  }

  // ---- a try ----------------------------------------------------------------------------------

  ghost function StepsFor(p: Proposal, store: Store): seq<Step>
    requires Parts(p) != []
  {
    PlainStores(p.dataset, Parts(p)[..|Parts(p)| - 1]) + [EndStep(p, Sources(p, id => id in store))]
  }

  lemma PlanIsSteps(p: Proposal, store: Store)
    requires Applicable(store, p) && p.kind != "retire"
    ensures Parts(p) != [] && PlanApply(p, id => id in store) == Steps(StepsFor(p, store))
  {
    hide PlanApply, EndStep, PlainStores, Sources, Parts;
    PlanShape(p, id => id in store);
  }

  lemma StepsFit(p: Proposal, store: Store, name: Naming)
    requires Applicable(store, p) && !Blank(p) && p.kind != "retire" && Parts(p) != []
    ensures Ends(BatchOf(p, name), store, StepsFor(p, store))
    ensures StepsFor(p, store) != []
    ensures var steps := StepsFor(p, store);
            Set(SourcesOf(steps[|steps| - 1])) == if Retires(p) then Alive(store, p) else {}
  {
    hide Trim, Parts, Named, Filter, Applicable, Drainable, Blank, Place, Retires, Pieces;
    PartsAreTrimmed(p);
    PartsAreSome(p);
    PlaceIsTrimmed(p);
    NotBlank(p);
    AliveAreSources(store, p);
    var (parts, steps) := (Parts(p), StepsFor(p, store));
    forall step | step in steps ensures Fits(BatchOf(p, name), store, step) {
      var i :| 0 <= i < |steps| && steps[i] == step;
      assert parts[i] in parts;
      StepDrains(p, store, i);
    }
  }

  lemma NotBlank(p: Proposal)
    requires !Blank(p) && p.kind != "retire"
    ensures p.dataset != ""
  {
    hide Trim;
  }

  lemma StepDrains(p: Proposal, store: Store, i: nat)
    requires Applicable(store, p) && p.kind != "retire" && Parts(p) != [] && i < |StepsFor(p, store)|
    ensures var step := StepsFor(p, store)[i];
            !step.RetireFacts? && (step.text in Drainable(p) || (step.StoreAndRetire? && step.sources == []))
  {
    hide Trim, Parts, Applicable, PlanApply, Named, Filter, Retires;
    var (parts, steps) := (Parts(p), StepsFor(p, store));
    assert steps[i].text == parts[i];
    if i < |parts| - 1 {
      assert steps[i] == StoreFact(p.dataset, parts[i]);
      assert parts[i] in parts[..|parts| - 1];
    } else if Lossy(p) {
      LossySources(p, store);
    } else {
      assert parts[i] in parts;
    }
  }

  lemma LossySources(p: Proposal, store: Store)
    requires Lossy(p)
    ensures Sources(p, id => id in store) == []
  {
    hide Named;
    assert Filter([], id => id in store) == [];
  }

  lemma StepsEntered(p: Proposal, id: int, store: Store, step: Step)
    requires Applicable(store, p) && p.kind != "retire" && Parts(p) != [] && step in StepsFor(p, store)
    ensures Entered(p, id, store, QueuedStep(step))
  {
    hide Trim, Parts, PlanApply, Named, Filter, Applicable, Drainable, Retires;
    AliveAreSources(store, p);
    NoSourcesNamed(p, store);
    var (parts, steps) := (Parts(p), StepsFor(p, store));
    var i :| 0 <= i < |steps| && steps[i] == step;
    assert parts[i] in parts;
    StepDrains(p, store, i);
  }

  lemma NoSourcesNamed(p: Proposal, store: Store)
    requires Applicable(store, p)
    ensures Retires(p) && Sources(p, id => id in store) == [] ==> Named(p) == []
  {
    hide Named, Pieces, Trim;
    var alive := Filter(Named(p), id => id in store);
  }

  /** Every step kept means every part kept. */
  lemma StepsKept(p: Proposal, store: Store, b: Batch, made: set<string>, spool: seq<Entry>)
    requires p.kind != "retire" && Parts(p) != [] && forall step :: step in StepsFor(p, store) ==> Kept(b, made, spool, step)
    ensures PartsKept(p, b, made, spool)
  {
    hide Parts, Sources;
    var (parts, steps) := (Parts(p), StepsFor(p, store));
    forall i | 0 <= i < |parts| - 1 ensures Kept(b, made, spool, StoreFact(p.dataset, parts[i])) {
      assert steps[i] == StoreFact(p.dataset, parts[i]) && steps[i] in steps;
    }
    var end := EndStep(p, Sources(p, id => id in store));
    assert steps[|steps| - 1] == end && end in steps;
    if QueuedStep(end) in spool {
      assert EndEntry(p, QueuedStep(end));
    }
  }

  lemma EndIsLast(p: Proposal, store: Store)
    requires p.kind != "retire" && Parts(p) != []
    ensures StepsFor(p, store) != [] && var end := StepsFor(p, store)[|StepsFor(p, store)| - 1];
            end.text == Last(p) && (end.StoreAndRetire? <==> Retires(p))
  {
    hide Parts, Sources, Retires;
  }

  lemma TryKeeps(s: Store, p: Proposal, id: int, name: Naming, w: World, made: set<string>, gone: set<string>, net: Net)
    returns (made': set<string>, gone': set<string>)
    requires Sound(s, p, id, name, w, made, gone) && w.row == p && Applicable(w.store, p) && !Blank(p) && p.kind != "retire"
    ensures Sound(s, p, id, name, Attempt(w, id, name, net), made', gone')
    ensures Settling(s, p, w, gone) ==> Settling(s, p, Attempt(w, id, name, net), gone')
  {
    hide Trim, Parts, Named, PlanApply, Execute, Between, Ends, Carried, PartsKept, StepsFor, EndStep, Reason, Alive, Committed, Sound, Settling, Blank, Place, Drainable;
    var b := BatchOf(p, name);
    PlanIsSteps(p, w.store);
    StepsFit(p, w.store, name);
    SoundParts(s, p, id, name, w, made, gone);
    var steps := StepsFor(p, w.store);
    made', gone' := ExecutionKeeps(s, w.store, b, made, gone, steps, net, 0);
    var e := Execute(w.store, name, steps, net, 0);
    var after := World(e.store, p, w.spool + e.queued);
    TryIsSound(s, p, id, name, w, made, gone, e, made', gone');
    if e.ok {
      JudgeIsSound(s, p, id, name, after, made', gone', net(e.requests));
      TrySettles(s, p, id, name, w, gone, e, made, made', gone', net(e.requests));
    } else {
      TryUnsettled(s, p, w, gone, e, made, made', gone', b, steps);
    }
  }

  lemma SoundParts(s: Store, p: Proposal, id: int, name: Naming, w: World, made: set<string>, gone: set<string>)
    requires Sound(s, p, id, name, w, made, gone)
    ensures Between(s, w.store, BatchOf(p, name), made, gone) && s.Keys <= w.store.Keys
  {
  }

  lemma TryIsSound(s: Store, p: Proposal, id: int, name: Naming, w: World, made: set<string>, gone: set<string>,
                   e: Execution, made': set<string>, gone': set<string>)
    requires Sound(s, p, id, name, w, made, gone) && w.row == p && Applicable(w.store, p) && p.kind != "retire" && Parts(p) != []
    requires var (b, steps) := (BatchOf(p, name), StepsFor(p, w.store));
             && Between(s, e.store, b, made', gone') && Carried(b, steps, e, made, gone, made', gone')
             && steps != [] && Set(SourcesOf(steps[|steps| - 1])) <= Alive(w.store, p)
    ensures Sound(s, p, id, name, World(e.store, p, w.spool + e.queued), made', gone')
    ensures e.ok ==> PartsKept(p, BatchOf(p, name), made', w.spool + e.queued)
  {
    hide Trim, Parts, Named, PlanApply, Ends, StepsFor, EndStep, Reason, RowBetween, PartsKept, Alive, EndEntry, Kept;
    var (b, steps) := (BatchOf(p, name), StepsFor(p, w.store));
    assert w.store.Keys <= e.store.Keys;
    AliveRises(w.store, e.store, p);
    var spool := w.spool + e.queued;
    forall x | x in spool ensures Entered(p, id, e.store, x) {
      if x in e.queued {
        StepsEntered(p, id, w.store, x.step);
      }
      EnteredStays(p, id, w.store, e.store, x);
    }
    if Committed(p, w, gone) {
      PartsStayKept(p, b, made, w.spool, made', spool);
    } else if e.ok || gone' != gone {
      StepsKept(p, w.store, b, made', e.queued);
      PartsStayKept(p, b, made', e.queued, made', spool);
    }
    if e.ok {
      StepsKept(p, w.store, b, made', e.queued);
      PartsStayKept(p, b, made', e.queued, made', spool);
    }
    EndIsLast(p, w.store);
    HasRises(b, made, made');
  }

  lemma JudgeIsSound(s: Store, p: Proposal, id: int, name: Naming, w: World, made: set<string>, gone: set<string>, r: Reach)
    requires Sound(s, p, id, name, w, made, gone) && w.row == p && PartsKept(p, BatchOf(p, name), made, w.spool)
    ensures Sound(s, p, id, name, Judge(w, id, Approved, r), made, gone)
  {
    hide Between, Parts, Reason, Alive, PartsKept;
    var after := Judge(w, id, Approved, r);
    PartsStayKept(p, BatchOf(p, name), made, w.spool, made, after.spool);
    forall e | e in after.spool ensures Entered(p, id, w.store, e) {
      assert e in w.spool || e == QueuedVerdict(id, Approved);
    }
  }

  lemma TrySettles(s: Store, p: Proposal, id: int, name: Naming, w: World, gone: set<string>, e: Execution,
                   made: set<string>, made': set<string>, gone': set<string>, r: Reach)
    requires s.Keys <= w.store.Keys && p.kind != "retire" && Parts(p) != [] && e.ok
    requires var (b, steps) := (BatchOf(p, name), StepsFor(p, w.store));
             && steps != [] && Carried(b, steps, e, made, gone, made', gone')
             && (Set(SourcesOf(steps[|steps| - 1])) == Alive(w.store, p) || !Retires(p))
    ensures Settling(s, p, Judge(World(e.store, p, w.spool + e.queued), id, Approved, r), gone')
  {
    hide Parts, Named, StepsFor, Kept, Alive, Reason;
    var last := StepsFor(p, w.store)[|StepsFor(p, w.store)| - 1];
    var after := Judge(World(e.store, p, w.spool + e.queued), id, Approved, r);
    AliveRises(s, w.store, p);
    NothingAlive(s, p);
    forall x | x in Alive(s, p) ensures x in gone' || exists e :: e in after.spool && RetiresLater(e, x) {
      assert x in Set(SourcesOf(last));
      if x !in gone' {
        assert QueuedStep(last) in after.spool && RetiresLater(QueuedStep(last), x);
      }
    }
  }

  lemma SettlingStays(s: Store, p: Proposal, w: World, gone: set<string>, after: World, gone': set<string>)
    requires Settling(s, p, w, gone) && gone <= gone' && (forall e :: e in w.spool ==> e in after.spool)
    requires after.row == w.row && forall e :: e in after.spool && e.QueuedVerdict? ==> e in w.spool
    ensures Settling(s, p, after, gone')
  {
    hide Alive;
  }

  lemma TryUnsettled(s: Store, p: Proposal, w: World, gone: set<string>, e: Execution, made: set<string>, made': set<string>, gone': set<string>, b: Batch, steps: seq<Step>)
    requires w.row == p && Carried(b, steps, e, made, gone, made', gone')
    ensures Settling(s, p, w, gone) ==> Settling(s, p, World(e.store, p, w.spool + e.queued), gone')
  {
    hide Kept, Set, Settling;
    if Settling(s, p, w, gone) {
      SettlingStays(s, p, w, gone, World(e.store, p, w.spool + e.queued), gone');
    }
  }

  // ---- a try of a plain retirement --------------------------------------------------------------

  lemma PlanOfRetirement(s: Store, p: Proposal)
    requires Applicable(s, p) && p.kind == "retire"
    ensures PlanApply(p, id => id in s) == Steps([RetireFacts(Filter(Named(p), id => id in s))])
    ensures Retires(p) && Parts(p) == []
  {
    hide Named, Filter, Trim;
  }

  /** The sources an attempt could pass over in silence. */
  ghost function Missed(p: Proposal, net: Net): set<string> {
    if p.kind == "retire" then net(0).failing else {}
  }

  lemma OneExecution(s: Store, name: Naming, step: Step, net: Net)
    ensures Execute(s, name, [step], net, 0)
         == Execution(Handle(s, name, step, net(0)), Good(name, step, net(0)), 1, QueuedOf(step, net(0)))
  {
    hide Handle, Good;
    assert [step][1..] == [];
    assert QueuedOf(step, net(0)) + [] == QueuedOf(step, net(0));
  }

  lemma RetirementTry(s: Store, p: Proposal, id: int, name: Naming, w: World, made: set<string>, gone: set<string>, net: Net)
    returns (left: set<string>, ok: bool)
    requires Between(s, w.store, BatchOf(p, name), made, gone) && w.row == p && Applicable(w.store, p) && p.kind == "retire"
    ensures left <= Alive(w.store, p) && (ok ==> left == Alive(w.store, p) - Missed(p, net))
    ensures Between(s, Attempt(w, id, name, net).store, BatchOf(p, name), made, gone + left)
    ensures var after := Attempt(w, id, name, net);
            after == if ok then Judge(World(after.store, p, w.spool), id, Approved, net(1)) else World(after.store, p, w.spool)
  {
    hide Between, Named, Trim, Filter, KindOf, Refuses, PlanApply, DoAll, Withdrawals;
    var sources := Filter(Named(p), id => id in w.store);
    var kept := Filter(sources, id => id !in net(0).failing);
    var step := RetireFacts(sources);
    PlanOfRetirement(w.store, p);
    OneExecution(w.store, name, step, net);
    assert w.spool + [] == w.spool;
    WithdrawalsCut(kept, "retired", 0);
    var k := Done(name, step, net(0));
    WithdrawalsCut(kept, "retired", k);
    assert forall x :: x in kept[..k] ==> x in kept;
    WithdrawalsBetween(s, w.store, BatchOf(p, name), made, gone, kept[..k], "retired");
    left, ok := Set(kept[..k]), Accepted(name, step, net(0));
    if ok {
      assert kept[..k] == kept;
    }
  }

  lemma RetirementKeeps(s: Store, p: Proposal, id: int, name: Naming, w: World, made: set<string>, gone: set<string>, net: Net)
    returns (gone': set<string>)
    requires Sound(s, p, id, name, w, made, gone) && w.row == p && Applicable(w.store, p) && p.kind == "retire"
    ensures Sound(s, p, id, name, Attempt(w, id, name, net), made, gone')
    ensures Settling(s, p, w, gone) && Missed(p, net) == {} ==> Settling(s, p, Attempt(w, id, name, net), gone')
  {
    hide Between, Named, Attempt, Alive, Reason, Trim, Missed;
    PlanOfRetirement(w.store, p);
    var left, ok := RetirementTry(s, p, id, name, w, made, gone, net);
    gone' := gone + left;
    var after := Attempt(w, id, name, net);
    BetweenRises(s, w.store, after.store, BatchOf(p, name), made, gone, made, gone');
    AliveRises(w.store, after.store, p);
    AliveRises(s, w.store, p);
    forall e | e in after.spool ensures Entered(p, id, after.store, e) {
      if e in w.spool {
        EnteredStays(p, id, w.store, after.store, e);
      }
    }
    if !ok && Settling(s, p, w, gone) {
      SettlingStays(s, p, w, gone, after, gone');
    }
  }

  lemma BetweenRises(s: Store, now: Store, next: Store, b: Batch, made: set<string>, gone: set<string>, made': set<string>, gone': set<string>)
    requires Between(s, now, b, made, gone) && Between(s, next, b, made', gone') && made <= made'
    ensures s.Keys <= now.Keys <= next.Keys
  {
  }

  // ---- a drain ----------------------------------------------------------------------------------

  lemma EntryFits(p: Proposal, id: int, name: Naming, store: Store, e: Entry)
    requires Entered(p, id, store, e) && e.QueuedStep? && !Blank(p)
    ensures Fits(BatchOf(p, name), store, e.step)
  {
    hide Trim, Parts, Named, Drainable, Blank, Place, Alive;
    PartsAreTrimmed(p);
    PartsAreSome(p);
    PlaceIsTrimmed(p);
    NotBlank(p);
    AliveIsStored(store, p);
    if e.step.StoreAndRetire? {
      assert forall x :: x in e.step.sources ==> x in Set(e.step.sources);
    }
  }

  /** What draining one entry does to the rows it is about. */
  lemma DrainRows(s: Store, p: Proposal, id: int, name: Naming, w: World, made: set<string>, gone: set<string>, e: Entry, d: Draining)
    returns (made': set<string>, gone': set<string>)
    requires Between(s, w.store, BatchOf(p, name), made, gone) && Entered(p, id, w.store, e) && e.QueuedStep? && !Blank(p)
    ensures Between(s, Drained(w.store, name, e, d), BatchOf(p, name), made', gone')
    ensures made <= made' && gone <= gone' <= gone + Set(SourcesOf(e.step))
    ensures gone' != gone ==> e.step.StoreAndRetire? && Has(BatchOf(p, name), made', e.step.text)
    ensures Removes(name, e, d) ==> Has(BatchOf(p, name), made', e.step.text) || (e.step.StoreAndRetire? && e.step.sources == [])
    ensures Removes(name, e, d) && d.failing == {} ==> Set(SourcesOf(e.step)) <= gone'
  {
    hide Between, Parts, Named, Trim, DoAll, Fits, Filter, DrainWrites, Withdrawals, Reason, Alive;
    var (b, step) := (BatchOf(p, name), e.step);
    if step.StoreAndRetire? && step.sources == [] {
      made', gone' := made, gone;
      QuarantineWrites(name, step, d.failing);
      DoOne(w.store, name, Put("", ""));
    } else {
      EntryFits(p, id, name, w.store, e);
      FitsDrains(b, w.store, step, d.failing);
      var sources := Filter(SourcesOf(step), id => id !in d.failing);
      WithdrawalsCut(sources, b.name(b.other, step.text), 0);
      made', gone' := StoppedKeeps(s, w.store, b, made, gone, step, b.other, sources, Min(d.writes, 1 + |sources|));
      if d.failing == {} {
        assert forall x :: x in SourcesOf(step) ==> x in sources;
      }
    }
  }

  lemma QuarantineWrites(name: Naming, step: Step, failing: set<string>)
    requires step.StoreAndRetire? && step.sources == []
    ensures DrainWrites(name, step, failing) == []
  {
  }

  lemma DrainKeeps(s: Store, p: Proposal, id: int, name: Naming, w: World, made: set<string>, gone: set<string>, i: nat, d: Draining)
    returns (made': set<string>, gone': set<string>)
    requires Sound(s, p, id, name, w, made, gone) && !Blank(p)
    ensures Sound(s, p, id, name, Drain(w, name, i, d), made', gone')
    ensures Settling(s, p, w, gone) && d.failing == {} ==> Settling(s, p, Drain(w, name, i, d), gone')
  {
    hide Sound, Settling, Drain, Blank;
    if i >= |w.spool| {
      made', gone' := made, gone;
      NothingDrained(w, name, i, d);
    } else if w.spool[i].QueuedVerdict? {
      made', gone' := made, gone;
      VerdictKeeps(s, p, id, name, w, made, gone, i, d);
    } else {
      made', gone' := EntryKeeps(s, p, id, name, w, made, gone, i, d);
    }
  }

  lemma NothingDrained(w: World, name: Naming, i: nat, d: Draining)
    requires i >= |w.spool|
    ensures Drain(w, name, i, d) == w
  {
  }

  lemma VerdictKeeps(s: Store, p: Proposal, id: int, name: Naming, w: World, made: set<string>, gone: set<string>, i: nat, d: Draining)
    requires Sound(s, p, id, name, w, made, gone) && i < |w.spool| && w.spool[i].QueuedVerdict?
    ensures Sound(s, p, id, name, Drain(w, name, i, d), made, gone)
    ensures Settling(s, p, w, gone) ==> Settling(s, p, Drain(w, name, i, d), gone)
  {
    hide Between, Parts, Reason, Alive;
    var after := Drain(w, name, i, d);
    InWithout(w.spool, i);
    assert w.spool[i] in w.spool && Entered(p, id, w.store, w.spool[i]);
    assert Committed(p, w, gone);
    assert forall e :: e in w.spool && e.QueuedStep? ==> e in after.spool;
  }

  lemma EntryKeeps(s: Store, p: Proposal, id: int, name: Naming, w: World, made: set<string>, gone: set<string>, i: nat, d: Draining)
    returns (made': set<string>, gone': set<string>)
    requires Sound(s, p, id, name, w, made, gone) && !Blank(p) && i < |w.spool| && w.spool[i].QueuedStep?
    ensures Sound(s, p, id, name, Drain(w, name, i, d), made', gone')
    ensures Settling(s, p, w, gone) && d.failing == {} ==> Settling(s, p, Drain(w, name, i, d), gone')
  {
    hide Between, Parts, Reason, Alive, Drained, Removes, Named, Set, PartsKept, Blank, Has, Drainable;
    var (b, e, after) := (BatchOf(p, name), w.spool[i], Drain(w, name, i, d));
    assert e in w.spool && Entered(p, id, w.store, e);
    made', gone' := DrainRows(s, p, id, name, w, made, gone, e, d);
    InWithout(w.spool, i);
    BetweenRises(s, w.store, after.store, b, made, gone, made', gone');
    AliveRises(w.store, after.store, p);
    forall x | x in after.spool ensures Entered(p, id, after.store, x) {
      EnteredStays(p, id, w.store, after.store, x);
    }
    SourcesAreAlive(p, id, w.store, e);
    HasRises(b, made, made');
    if Committed(p, after, gone') {
      assert Committed(p, w, gone);
      PartsKeptDraining(p, id, name, w, made, made', i, d);
    }
    if Settling(s, p, w, gone) && d.failing == {} {
      SettlesDraining(s, p, name, w, gone, gone', i, d);
    }
  }

  lemma SettlesDraining(s: Store, p: Proposal, name: Naming, w: World, gone: set<string>, gone': set<string>, i: nat, d: Draining)
    requires Settling(s, p, w, gone) && gone <= gone' && i < |w.spool| && w.spool[i].QueuedStep?
    requires Removes(name, w.spool[i], d) ==> Set(SourcesOf(w.spool[i].step)) <= gone'
    ensures Settling(s, p, Drain(w, name, i, d), gone')
  {
    hide Alive, Drained, Removes;
    var (e, after) := (w.spool[i], Drain(w, name, i, d));
    InWithout(w.spool, i);
    if after.row != p || exists x :: x in after.spool && x.QueuedVerdict? {
      forall x | x in Alive(s, p) ensures x in gone' || exists y :: y in after.spool && RetiresLater(y, x) {
        if x !in gone {
          var y :| y in w.spool && RetiresLater(y, x);
          if y == e && Removes(name, e, d) {
            assert x in Set(SourcesOf(e.step));
          } else {
            assert y in after.spool;
          }
        }
      }
    }
  }

  /** An entry leaves the spool only once its part is stored, or when it was the last part without
      sources. */
  lemma PartsKeptDraining(p: Proposal, id: int, name: Naming, w: World, made: set<string>, made': set<string>, i: nat, d: Draining)
    requires i < |w.spool| && w.spool[i].QueuedStep? && Entered(p, id, w.store, w.spool[i])
    requires PartsKept(p, BatchOf(p, name), made, w.spool) && made <= made'
    requires Removes(name, w.spool[i], d) ==> Has(BatchOf(p, name), made', w.spool[i].step.text)
                                              || (w.spool[i].step.StoreAndRetire? && w.spool[i].step.sources == [])
    ensures PartsKept(p, BatchOf(p, name), made', Drain(w, name, i, d).spool)
  {
    hide Parts, Reason, Alive, Drained, Removes, Named;
    var (b, e, after) := (BatchOf(p, name), w.spool[i], Drain(w, name, i, d));
    InWithout(w.spool, i);
    forall j | 0 <= j < |Parts(p)| - 1 ensures Kept(b, made', after.spool, StoreFact(p.dataset, Parts(p)[j])) {
      var step := StoreFact(p.dataset, Parts(p)[j]);
      assert Kept(b, made, w.spool, step);
      if QueuedStep(step) == e {
        assert !Removes(name, e, d) ==> e in after.spool;
      }
    }
    if Parts(p) != [] && !Has(b, made', Last(p)) && !Lossy(p) {
      var x :| x in w.spool && EndEntry(p, x);
      assert x in after.spool;
    }
  }

  lemma SourcesAreAlive(p: Proposal, id: int, store: Store, e: Entry)
    requires Entered(p, id, store, e) && e.QueuedStep?
    ensures Set(SourcesOf(e.step)) <= Alive(store, p)
  {
    hide Named, Parts;
  }

  // ---- every run --------------------------------------------------------------------------------

  /** No update errors in silence. */
  ghost predicate Heard(p: Proposal, m: Move) {
    match m
    case Try(net) => Missed(p, net) == {}
    case Drains(_, d) => d.failing == {}
  }

  lemma MoveKeeps(s: Store, p: Proposal, id: int, name: Naming, w: World, made: set<string>, gone: set<string>, m: Move)
    returns (made': set<string>, gone': set<string>)
    requires Sound(s, p, id, name, w, made, gone) && Applicable(s, p) && !Blank(p)
    ensures Sound(s, p, id, name, Moved(w, id, name, m), made', gone')
    ensures Settling(s, p, w, gone) && Heard(p, m) ==> Settling(s, p, Moved(w, id, name, m), gone')
  {
    hide Sound, Settling, Blank, Applicable, Attempt, Drain, Missed;
    match m
    case Try(net) =>
      SoundRow(s, p, id, name, w, made, gone);
      if w.row != p {
        made', gone' := made, gone;
        Settled(w, id, name, net);
      } else {
        SoundParts(s, p, id, name, w, made, gone);
        StaysApplicable(s, w.store, p);
        if p.kind == "retire" {
          made' := made;
          gone' := RetirementKeeps(s, p, id, name, w, made, gone, net);
        } else {
          made', gone' := TryKeeps(s, p, id, name, w, made, gone, net);
        }
      }
    case Drains(i, d) =>
      made', gone' := DrainKeeps(s, p, id, name, w, made, gone, i, d);
  }

  lemma SoundRow(s: Store, p: Proposal, id: int, name: Naming, w: World, made: set<string>, gone: set<string>)
    requires Sound(s, p, id, name, w, made, gone)
    ensures w.row == p || (w.row == p.(status := Approved) && w.row.status != Pending)
  {
    hide Between, PartsKept, Alive;
  }

  lemma {:induction false} RunKeeps(s: Store, p: Proposal, id: int, name: Naming, moves: seq<Move>)
    returns (made: set<string>, gone: set<string>)
    requires Applicable(s, p) && !Blank(p)
    ensures Sound(s, p, id, name, Run(World(s, p, []), id, name, moves), made, gone)
    ensures (forall m :: m in moves ==> Heard(p, m)) ==> Settling(s, p, Run(World(s, p, []), id, name, moves), gone)
  {
    hide Sound, Settling, Applicable, Blank, Moved, Heard;
    if moves == [] {
      made, gone := {}, {};
      StartsSound(s, p, id, name);
    } else {
      var (init, last) := (moves[..|moves| - 1], moves[|moves| - 1]);
      assert last in moves && forall m :: m in init ==> m in moves;
      made, gone := RunKeeps(s, p, id, name, init);
      made, gone := MoveKeeps(s, p, id, name, Run(World(s, p, []), id, name, init), made, gone, last);
    }
  }

  /** A spool file that will store this part. */
  ghost predicate PartQueued(p: Proposal, spool: seq<Entry>, part: string) {
    exists e :: e in spool && e.QueuedStep? && !e.step.RetireFacts? && e.step.dataset == p.dataset && e.step.text == part
  }

  /** In every run no row is lost, rows the proposal neither names nor writes are untouched, and a
      source is retired only if every part is stored or waits in the spool. */
  lemma NothingLostMidway(s: Store, p: Proposal, id: int, name: Naming, moves: seq<Move>, x: string)
    requires Applicable(s, p)
    ensures var w := Run(World(s, p, []), id, name, moves);
            && (x in s ==> x in w.store)
            && (x !in AllIds(BatchOf(p, name)) ==>
                  (x in w.store <==> x in s) && (x in s ==> w.store[x].text == s[x].text && w.store[x].dataset == s[x].dataset))
            && (x in s && !Live(s, x) ==> w.store[x].superseded == s[x].superseded)
            && (Live(s, x) && !Live(w.store, x) ==>
                  x in Named(p) && forall part :: part in Parts(p) ==> InRow(w.store, p, name, part) || PartQueued(p, w.spool, part))
  {
    hide Applicable, Blank, Named, Parts, Ids, PartsKept, Run, Reason, Place, Drainable, OnlyEmpty, AllIds, Lands;
    if Blank(p) {
      BlankWritesNothing(s, p, id, name, moves);
    } else {
      var made, gone := RunKeeps(s, p, id, name, moves);
      var w := Run(World(s, p, []), id, name, moves);
      assert x in w.store ==> RowBetween(s, w.store, BatchOf(p, name), made, gone, x);
      if gone != {} {
        PartsKeptEach(p, name, w, made);
      }
    }
  }

  lemma PartsKeptEach(p: Proposal, name: Naming, w: World, made: set<string>)
    requires PartsKept(p, BatchOf(p, name), made, w.spool)
    ensures forall part :: part in Parts(p) ==>
              Has(BatchOf(p, name), made, part) || PartQueued(p, w.spool, part)
              || (part == Last(p) && (Lossy(p) || exists e :: e in w.spool && EndEntry(p, e)))
  {
    hide Parts, Named, Lossy, Has;
    var parts := Parts(p);
    forall part | part in parts
      ensures Has(BatchOf(p, name), made, part) || PartQueued(p, w.spool, part)
              || (part == Last(p) && (Lossy(p) || exists e :: e in w.spool && EndEntry(p, e)))
    {
      var i :| 0 <= i < |parts| && parts[i] == part;
      if i < |parts| - 1 {
        var step := StoreFact(p.dataset, part);
        assert Kept(BatchOf(p, name), made, w.spool, step);
        if QueuedStep(step) in w.spool {
          assert PartQueued(p, w.spool, part);
        }
      }
    }
  }

  lemma HasIsInRow(p: Proposal, name: Naming, now: Store, made: set<string>, part: string)
    requires Has(BatchOf(p, name), made, part) && made <= now.Keys
    ensures InRow(now, p, name, part)
  {
    hide Place, Drainable, Parts, Reason;
  }

  /** In every run without silent errors, an approved proposal that is not blank has each part stored or
      in the spool, and each of its sources retired or about to be; only a last part without sources can
      have been set aside by the drain. */
  lemma ApprovedMeansKept(s: Store, p: Proposal, id: int, name: Naming, moves: seq<Move>)
    requires Applicable(s, p) && forall m :: m in moves ==> Heard(p, m)
    ensures var w := Run(World(s, p, []), id, name, moves);
            w.row.status == Approved && !Blank(p) ==>
              && (forall part :: part in Parts(p) ==>
                    InRow(w.store, p, name, part) || PartQueued(p, w.spool, part) || (Lossy(p) && part == Last(p)))
              && (forall x :: x in Alive(s, p) ==> !Live(w.store, x) || exists e :: e in w.spool && RetiresLater(e, x))
  {
    hide Applicable, Blank, Named, Parts, Ids, PartsKept, Run, Reason, Heard, Lossy, Place, Drainable, InRow, Has, AllIds, Lands;
    var w := Run(World(s, p, []), id, name, moves);
    if w.row.status == Approved && !Blank(p) {
      var made, gone := RunKeeps(s, p, id, name, moves);
      PendingAtFirst(s, p);
      PartsKeptEach(p, name, w, made);
      forall part | part in Parts(p) && Has(BatchOf(p, name), made, part) ensures InRow(w.store, p, name, part) {
        HasIsInRow(p, name, w.store, made, part);
      }
      forall x | x in gone ensures x in w.store && !Live(w.store, x) {
        assert RowBetween(s, w.store, BatchOf(p, name), made, gone, x);
      }
    }
  }

  // ---- how a run and its retry end ----------------------------------------------------------------

  /** A source that was missing at first is there now, so a retry would retire it. */
  ghost predicate SourceAppeared(s: Store, p: Proposal, now: Store) {
    Retires(p) && exists x :: x in Named(p) && x !in s && x in now
  }

  /** Approving again after any run of tries and drains would end where one uninterrupted run from the
      start does, exactly unless a source that was missing at first has meanwhile come into being, or a
      drain has left something that storing the parts does not overwrite.  The latter only happens if
      the drain files them elsewhere. */
  lemma RetryConverges(s: Store, p: Proposal, id: int, name: Naming, moves: seq<Move>)
    requires Applicable(s, p)
    ensures var now := Run(World(s, p, []), id, name, moves).store;
            && now.Keys <= s.Keys + AllIds(BatchOf(p, name))
            && (Complete(now, p, name) == Complete(s, p, name)
                <==> !SourceAppeared(s, p, now) && Unstrayed(s, now, BatchOf(p, name), Reason(p, name, Place(p))))
            && (p.dataset == Place(p) ==> Unstrayed(s, now, BatchOf(p, name), Reason(p, name, Place(p))))
  {
    hide Run, Applicable, Blank, Named, Parts, Reason, Ids, Outcome, RowBetween, PartsKept, Entered, Committed, Place, Drainable, OnlyEmpty, Unstrayed, AllIds;
    var now := Run(World(s, p, []), id, name, moves).store;
    var (b, reason) := (BatchOf(p, name), Reason(p, name, Place(p)));
    var made, gone: set<string> := {}, {};
    if Blank(p) {
      BlankWritesNothing(s, p, id, name, moves);
      BetweenStarts(s, b);
    } else {
      made, gone := RunKeeps(s, p, id, name, moves);
    }
    AliveRises(s, now, p);
    RetryIff(s, now, b, made, gone, reason, Alive(now, p), Alive(s, p));
    MoreIsAppeared(s, p, now);
    DrainableAreParts(p);
    if p.dataset == Place(p) {
      NothingStrays(s, now, b, made, gone, reason);
    }
  }

  lemma MoreIsAppeared(s: Store, p: Proposal, now: Store)
    ensures (forall x :: x in Alive(now, p) && (x in s ==> s[x].superseded == None) ==> x in Alive(s, p)) <==> !SourceAppeared(s, p, now)
  {
    hide Named;
  }

  /** What a proposal needs for its spooled approval to do no more and no less than a served one: no
      missing source is one of its parts, no two writes leave different texts in one row, it makes no
      difference which way a part is stored or a source retired, and a replacement that names no source
      already has its last part stored, or stores it twice. */
  ghost predicate SpoolSafe(s: Store, p: Proposal, name: Naming) {
    if Blank(p) then NothingToDo(s, p, name)
    else
      var b := BatchOf(p, name);
      && !(Retires(p) && exists x :: x in Named(p) && x !in s && x in AllIds(b))
      && OneTextPerRow(b)
      && EitherWay(s, b)
      && (Reason(p, name, Place(p)) == Reason(p, name, p.dataset) || forall x :: x in Alive(s, p) ==> !Live(s, x))
      && (Lossy(p) && Parts(p) != [] ==> Holds(s, name, Place(p), Last(p)) || Last(p) in Drainable(p))
  }

  /** Whatever was tried, spooled, reordered and repeated, an approved proposal with an empty spool has
      left the store of one uninterrupted run. */
  lemma EmptiedSpoolIsComplete(s: Store, p: Proposal, id: int, name: Naming, moves: seq<Move>)
    requires Applicable(s, p) && (forall m :: m in moves ==> Heard(p, m)) && SpoolSafe(s, p, name)
    ensures var w := Run(World(s, p, []), id, name, moves);
            w.row.status == Approved && w.spool == [] ==> w.store == Complete(s, p, name)
  {
    hide Applicable, Blank, Named, Parts, Ids, Run, Reason, Heard, Lossy, RowBetween, Outcome, Entered, Retires, Place, Drainable, OnlyEmpty,
         NothingToDo, AllIds, PartsKept, OneTextPerRow, EitherWay, Holds, AllStored;
    var w := Run(World(s, p, []), id, name, moves);
    if w.row.status == Approved && w.spool == [] {
      if Blank(p) {
        BlankWritesNothing(s, p, id, name, moves);
        NothingToDoIff(s, p, name);
      } else {
        var made, gone := RunKeeps(s, p, id, name, moves);
        var b := BatchOf(p, name);
        PendingAtFirst(s, p);
        assert Alive(w.store, p) == Alive(s, p) == gone;
        EachIsThere(s, p, name, w, made);
        DrainableAreParts(p);
        AliveIsStored(s, p);
        BetweenIsOutcome(s, w.store, b, made, gone, Reason(p, name, Place(p)));
      }
    }
  }

  lemma EachIsThere(s: Store, p: Proposal, name: Naming, w: World, made: set<string>)
    requires PartsKept(p, BatchOf(p, name), made, w.spool) && w.spool == [] && SpoolSafe(s, p, name) && !Blank(p)
    ensures AllStored(s, BatchOf(p, name), made)
  {
    hide Parts, Holds, Lossy, Reason, OneTextPerRow, EitherWay, AllIds, Place, Named, Blank;
    var (parts, b) := (Parts(p), BatchOf(p, name));
    forall i | 0 <= i < |parts| - 1 ensures Has(b, made, parts[i]) && parts[i] in b.drained {
      assert Kept(b, made, w.spool, StoreFact(p.dataset, parts[i]));
      assert parts[i] in parts[..|parts| - 1];
    }
    forall x | x in parts
      ensures x in b.drained || Holds(s, name, b.dataset, x)
      ensures Has(b, made, x) || Holds(s, name, b.dataset, x)
    {
      var i :| 0 <= i < |parts| && parts[i] == x;
      if i == |parts| - 1 && x in parts[..|parts| - 1] {
        var j :| 0 <= j < |parts| - 1 && parts[j] == x;
      }
    }
  }
}
