/** Runs with the daemon away: every request is spooled, and the spool is drained later. */
module SpoolMoves {
  import opened Text
  import opened Lists
  import opened FactStore
  import opened Apply
  import opened Requests
  import opened Carrying
  import opened Blanks
  import opened ApplyRuns
  import opened PlainRuns

  // ---- attempts -----------------------------------------------------------------------------

  const AWAY := Reach(0, false, {}, true)
  const LOST := Reach(0, false, {}, false)

  /** The first `m` requests are spooled. */
  ghost function Silent(m: nat, rest: Reach): Net {
    (n: nat) => if n < m then AWAY else rest
  }

  /** The daemon serves the first row write of each request up to number `i`, and then fails. */
  ghost function ServedTo(i: nat): Net {
    (n: nat) => Reach(if n <= i then 1 else 0, true, {}, false)
  }

  ghost function Entries(steps: seq<Step>): seq<Entry> {
    if steps == [] then [] else [QueuedStep(steps[0])] + Entries(steps[1..])
  }

  lemma {:induction false} EntriesAre(steps: seq<Step>)
    ensures |Entries(steps)| == |steps| && forall i :: 0 <= i < |steps| ==> Entries(steps)[i] == QueuedStep(steps[i])
  {
    if steps != [] {
      EntriesAre(steps[1..]);
    }
  }

  lemma AwayRequest(s: Store, name: Naming, steps: seq<Step>, net: Net, n: nat)
    requires steps != [] && !steps[0].RetireFacts? && net(n) == AWAY
    ensures var e := Execute(s, name, steps[1..], net, n + 1);
            Execute(s, name, steps, net, n) == e.(queued := [QueuedStep(steps[0])] + e.queued)
  {
    hide Sent, Refuses;
    DoOne(s, name, Put("", ""));
    assert Sent(name, steps[0], AWAY)[..0] == [];
  }

  /** Requests that get no reply change nothing, and the client goes on with the others. */
  lemma {:induction false} AwayExecution(s: Store, name: Naming, steps: seq<Step>, rest: seq<Step>, net: Net, n: nat)
    requires (forall step :: step in steps ==> !step.RetireFacts?) && forall k :: n <= k < n + |steps| ==> net(k) == AWAY
    ensures var e := Execute(s, name, rest, net, n + |steps|);
            Execute(s, name, steps + rest, net, n) == e.(queued := Entries(steps) + e.queued)
    decreases |steps|
  {
    hide Execute;
    var e := Execute(s, name, rest, net, n + |steps|);
    if steps == [] {
      assert steps + rest == rest;
      assert [] + e.queued == e.queued;
    } else {
      var tail := steps[1..];
      assert steps[0] in steps && forall step :: step in tail ==> step in steps;
      AwayExecution(s, name, tail, rest, net, n + 1);
      assert (steps + rest)[1..] == tail + rest && (steps + rest)[0] == steps[0];
      AwayRequest(s, name, steps + rest, net, n);
      Assoc([QueuedStep(steps[0])], Entries(tail), e.queued);
    }
  }

  lemma StepsStore(p: Proposal, store: Store)
    requires Parts(p) != []
    ensures forall step :: step in StepsFor(p, store) ==> !step.RetireFacts?
    ensures |StepsFor(p, store)| == |Parts(p)|
    ensures forall i :: 0 <= i < |Parts(p)| - 1 ==> StepsFor(p, store)[i] == StoreFact(p.dataset, Parts(p)[i])
    ensures StepsFor(p, store)[|Parts(p)| - 1] == EndStep(p, Sources(p, x => x in store))
  {
    hide Parts, Sources;
  }

  /** An approval with the daemon away spools a request for every part, and the verdict unless that is lost. */
  lemma AwayAttempt(w: World, p: Proposal, id: int, name: Naming, verdict: Reach)
    requires w.row == p && Applicable(w.store, p) && p.kind != "retire" && verdict.writes == 0 && !verdict.answered
    ensures Parts(p) != []
    ensures Attempt(w, id, name, Silent(|Parts(p)|, verdict))
         == w.(spool := w.spool + Entries(StepsFor(p, w.store)) + VerdictOf(id, Approved, verdict))
  {
    hide Applicable, Parts, StepsFor, PlanApply, Execute, Entries, EndStep;
    PlanIsSteps(p, w.store);
    StepsStore(p, w.store);
    var (steps, net) := (StepsFor(p, w.store), Silent(|Parts(p)|, verdict));
    AwayExecution(w.store, name, steps, [], net, 0);
    NothingExecuted(w.store, name, net, |steps|);
    assert steps + [] == steps && Entries(steps) + [] == Entries(steps);
  }

  lemma NothingExecuted(s: Store, name: Naming, net: Net, n: nat)
    ensures Execute(s, name, [], net, n) == Execution(s, true, n, [])
  {
  }

  // ---- an attempt that fails between two row writes --------------------------------------------

  lemma {:induction false} ReachedTo(name: Naming, steps: seq<Step>, n: nat, i: nat)
    requires forall step :: step in steps ==> !step.RetireFacts? && !Refuses(step)
    requires forall k :: 0 <= k < |steps| - 1 ==> steps[k].StoreFact?
    requires i < n + |steps|
    ensures Reached(name, steps, ServedTo(i), n) == if n <= i then i + 1 - n else 0
    decreases |steps|
  {
    hide Refuses, Trim, Withdrawals;
    if steps != [] {
      assert steps[0] in steps && forall step :: step in steps[1..] ==> step in steps;
      WithdrawalsCut(SourcesOf(steps[0]), "", 0);
      SentSize(name, steps[0], ServedTo(i)(n));
      if |steps| > 1 || i < n {
        ReachedTo(name, steps[1..], n + 1, i);
      }
    }
  }

  lemma SentSize(name: Naming, step: Step, r: Reach)
    requires !step.RetireFacts?
    ensures |Sent(name, step, r)| == 1 + |SourcesOf(step)|
  {
    hide Trim;
  }

  /** The parts up to number `i` are stored in the daemon's way, and nothing else happens. */
  lemma ServedAttempt(w: World, p: Proposal, id: int, name: Naming, i: nat)
    requires w.row == p && Applicable(w.store, p) && p.kind != "retire" && !Blank(p) && Trim(p.dataset) != "" && i < |Parts(p)|
    ensures Attempt(w, id, name, ServedTo(i)) == World(DoAll(w.store, name, Puts(Place(p), Parts(p)[..i + 1])), p, w.spool)
  {
    hide Applicable, Blank, Parts, Trim, StepsFor, PlanApply, Execute, AllWrites, DoAll, Puts, Withdrawals, Sources, Reason, Reached, EndStep, Refuses;
    PlanIsSteps(p, w.store);
    StepsStore(p, w.store);
    StepsServed(p, w.store);
    var (steps, net, present) := (StepsFor(p, w.store), ServedTo(i), (x: string) => x in w.store);
    assert Unspooled(Try(net)) by { ServedToAnswers(i); }
    NothingQueued(w.store, name, steps, net, 0);
    ExecutionIsPrefix(w.store, name, steps, net, 0);
    ReachedTo(name, steps, 0, i);
    PlanWrites(p, present, name);
    var (ds, sources) := (Trim(p.dataset), Sources(p, present));
    CutBatch(ds, Parts(p), sources, Reason(p, name, ds), i + 1);
    WithdrawalsCut(sources[..0], Reason(p, name, ds), 0);
    assert Puts(ds, Parts(p)[..i + 1]) + [] == Puts(ds, Parts(p)[..i + 1]);
    RequestsAll(w.store, name, steps, net, 0);
    assert w.spool + [] == w.spool;
  }

  lemma ServedToAnswers(i: nat)
    ensures Unspooled(Try(ServedTo(i)))
  {
    assert Try(ServedTo(i)).net == ServedTo(i);
  }

  lemma {:induction false} RequestsAll(s: Store, name: Naming, steps: seq<Step>, net: Net, n: nat)
    ensures Execute(s, name, steps, net, n).ok ==> Execute(s, name, steps, net, n).requests == n + |steps|
    decreases |steps|
  {
    hide Handle, Good;
    if steps != [] {
      RequestsAll(Handle(s, name, steps[0], net(n)), name, steps[1..], net, n + 1);
    }
  }

  lemma StepsServed(p: Proposal, store: Store)
    requires Applicable(store, p) && !Blank(p) && p.kind != "retire" && Parts(p) != [] && Trim(p.dataset) != ""
    ensures forall step :: step in StepsFor(p, store) ==> !Refuses(step)
  {
    hide Applicable, Parts, Trim, StepsFor, EndStep, Blank;
    PartsAreTrimmed(p);
    PartsAreSome(p);
    StepsStore(p, store);
    var steps := StepsFor(p, store);
    forall step | step in steps ensures !Refuses(step) {
      var i :| 0 <= i < |steps| && steps[i] == step;
      assert Parts(p)[i] in Parts(p);
      StepIs(p, store, i);
    }
  }

  lemma StepIs(p: Proposal, store: Store, i: nat)
    requires Parts(p) != [] && i < |StepsFor(p, store)|
    ensures |StepsFor(p, store)| == |Parts(p)|
    ensures var step := StepsFor(p, store)[i]; !step.RetireFacts? && step.dataset == p.dataset && step.text == Parts(p)[i]
  {
    hide Parts, Sources;
  }

  /** Only the last request is served: its sources are retired while every other part is in the spool. */
  ghost function LastOnly(s: Store, p: Proposal, name: Naming): Move
    requires Parts(p) != []
  {
    Try(Silent(|Parts(p)| - 1, Reach(1 + |Sources(p, x => x in s)|, true, {}, false)))
  }

  lemma LastOnlyRun(s: Store, p: Proposal, id: int, name: Naming)
    requires Applicable(s, p) && !Blank(p) && p.kind != "retire" && Parts(p) != [] && Trim(p.dataset) != ""
    ensures Run(World(s, p, []), id, name, [LastOnly(s, p, name)]).store
         == Outcome(s, name, Place(p), [Last(p)], Alive(s, p), Reason(p, name, Place(p)))
  {
    hide Applicable, Blank, Parts, PlanApply, Execute, Attempt, DoAll, Outcome, Trim, Reason, Named, PlainStores, Puts, Sources, Alive, EndStep, Handle;
    RunOne(World(s, p, []), id, name, LastOnly(s, p, name));
    PlanIsSteps(p, s);
    StepsStore(p, s);
    var (plain, end) := (PlainStores(p.dataset, Parts(p)[..|Parts(p)| - 1]), EndStep(p, Sources(p, x => x in s)));
    var net := LastOnly(s, p, name).net;
    assert forall step :: step in plain ==> step in StepsFor(p, s);
    AwayExecution(s, name, plain, [end], net, 0);
    OneRequest(s, name, end, net, |plain|);
    StoreOfAttempt(World(s, p, []), id, name, net, plain + [end]);
    EndServed(s, p, name);
  }

  lemma OneRequest(s: Store, name: Naming, step: Step, net: Net, n: nat)
    ensures Execute(s, name, [step], net, n).store == Handle(s, name, step, net(n))
  {
    hide Handle, Good;
    assert [step][1..] == [];
  }

  lemma StoreOfAttempt(w: World, id: int, name: Naming, net: Net, steps: seq<Step>)
    requires PlanApply(w.row, x => x in w.store) == Steps(steps)
    ensures Attempt(w, id, name, net).store == Execute(w.store, name, steps, net, 0).store
  {
    hide PlanApply, Execute;
  }

  lemma EndServed(s: Store, p: Proposal, name: Naming)
    requires Applicable(s, p) && !Blank(p) && p.kind != "retire" && Parts(p) != [] && Trim(p.dataset) != ""
    ensures var end := EndStep(p, Sources(p, x => x in s));
            Handle(s, name, end, Reach(1 + |Sources(p, x => x in s)|, true, {}, false))
            == Outcome(s, name, Place(p), [Last(p)], Alive(s, p), Reason(p, name, Place(p)))
  {
    hide Applicable, Blank, Parts, DoAll, Outcome, Trim, Reason, Named, Puts, Sources, Alive, EndStep, Refuses, Withdrawals;
    var (sources, ds, reason) := (Sources(p, x => x in s), Place(p), Reason(p, name, Place(p)));
    var end := EndStep(p, sources);
    StepsStore(p, s);
    StepsServed(p, s);
    assert end in StepsFor(p, s);
    EndStepWrites(s, p, name);
    SentInFull(name, end, Reach(1 + |sources|, true, {}, false));
    WithdrawalsCut(sources, reason, 0);
    OnePut(ds, Last(p));
    assert Writes(name, end)[..|Writes(name, end)|] == Writes(name, end);
    BatchOutcome(s, name, ds, [Last(p)], sources, reason);
    AliveAreSources(s, p);
  }

  lemma OnePut(dataset: string, text: string)
    ensures Puts(dataset, [text]) == [Put(dataset, text)]
  {
  }

  lemma EndStepWrites(s: Store, p: Proposal, name: Naming)
    requires Parts(p) != [] && Trim(p.dataset) != ""
    ensures var sources := Sources(p, x => x in s);
            Writes(name, EndStep(p, sources)) == Puts(Place(p), [Last(p)]) + Withdrawals(sources, Reason(p, name, Place(p)))
  {
    hide Parts, Trim, Named, Filter;
    PartsAreTrimmed(p);
    OnePut(Place(p), Last(p));
  }

  // ---- draining -----------------------------------------------------------------------------------

  ghost function EntryWrites(name: Naming, e: Entry): seq<Write> {
    if e.QueuedStep? then DrainWrites(name, e.step, {}) else []
  }

  ghost function SpoolWrites(name: Naming, spool: seq<Entry>): seq<Write> {
    if spool == [] then [] else EntryWrites(name, spool[0]) + SpoolWrites(name, spool[1..])
  }

  ghost function DecidedBy(row: Proposal, e: Entry): Proposal {
    if e.QueuedVerdict? then Resolve(row, e.status, Reach(1, true, {}, false)) else row
  }

  ghost function Decided(row: Proposal, spool: seq<Entry>): Proposal
    decreases |spool|
  {
    if spool == [] then row else Decided(DecidedBy(row, spool[0]), spool[1..])
  }

  /** The drain does all of the `i`-th entry. */
  ghost function Finish(w: World, name: Naming, i: nat): Move
    requires i < |w.spool|
  {
    Drains(i, Draining(|EntryWrites(name, w.spool[i])| + 1, true, {}))
  }

  lemma Finished(w: World, id: int, name: Naming, i: nat)
    requires i < |w.spool|
    ensures Moved(w, id, name, Finish(w, name, i))
         == World(DoAll(w.store, name, EntryWrites(name, w.spool[i])), DecidedBy(w.row, w.spool[i]), Without(w.spool, i))
  {
    hide DrainWrites;
    DoOne(w.store, name, Put("", ""));
    var ws := EntryWrites(name, w.spool[i]);
    assert ws[..|ws|] == ws;
  }

  /** Drains only, and no update errors. */
  ghost predicate Clean(moves: seq<Move>) {
    forall m :: m in moves ==> m.Drains? && m.d.failing == {}
  }

  lemma {:induction false} RunConcat(w: World, id: int, name: Naming, x: seq<Move>, y: seq<Move>)
    ensures Run(w, id, name, x + y) == Run(Run(w, id, name, x), id, name, y)
  {
    hide Moved;
    if y == [] {
      assert x + y == x;
    } else {
      var (init, last) := (y[..|y| - 1], y[|y| - 1]);
      RunConcat(w, id, name, x, init);
      assert x + y == (x + init) + [last];
      RunSnoc(w, id, name, x + init, last);
    }
  }

  lemma RunCons(w: World, id: int, name: Naming, m: Move, moves: seq<Move>)
    ensures Run(w, id, name, [m] + moves) == Run(Moved(w, id, name, m), id, name, moves)
  {
    RunOne(w, id, name, m);
    RunConcat(w, id, name, [m], moves);
  }

  /** The spool drained in the order in which it was written. */
  lemma {:induction false} DrainAll(w: World, id: int, name: Naming) returns (moves: seq<Move>)
    ensures Clean(moves)
    ensures Run(w, id, name, moves) == World(DoAll(w.store, name, SpoolWrites(name, w.spool)), Decided(w.row, w.spool), [])
    decreases |w.spool|
  {
    hide Moved, Finish, DecidedBy, EntryWrites, DoAll;
    if w.spool == [] {
      moves := [];
      DoOne(w.store, name, Put("", ""));
    } else {
      var next := Moved(w, id, name, Finish(w, name, 0));
      Finished(w, id, name, 0);
      assert Without(w.spool, 0) == w.spool[1..];
      var rest := DrainAll(next, id, name);
      moves := [Finish(w, name, 0)] + rest;
      FinishIsClean(w, name, 0);
      RunCons(w, id, name, Finish(w, name, 0), rest);
      DoConcat(w.store, name, EntryWrites(name, w.spool[0]), SpoolWrites(name, w.spool[1..]));
    }
  }

  lemma FinishIsClean(w: World, name: Naming, i: nat)
    requires i < |w.spool|
    ensures Clean([Finish(w, name, i)])
  {
  }

  /** Everything but one entry drained. */
  lemma {:induction false} DrainOthers(w: World, id: int, name: Naming, i: nat) returns (moves: seq<Move>)
    requires i < |w.spool|
    ensures Clean(moves)
    ensures var after := Run(w, id, name, moves); after.spool == [w.spool[i]] && after.row == Decided(w.row, Without(w.spool, i))
    decreases |w.spool|
  {
    hide Moved, Finish, DecidedBy, EntryWrites, DoAll;
    if |w.spool| == 1 {
      moves := [];
      assert Without(w.spool, 0) == [];
      assert w.spool == [w.spool[i]];
    } else {
      var j := if i > 0 then 0 else 1;
      var next := Moved(w, id, name, Finish(w, name, j));
      Finished(w, id, name, j);
      WithoutTwo(w.spool, i);
      var rest := DrainOthers(next, id, name, if i > 0 then i - 1 else 0);
      moves := [Finish(w, name, j)] + rest;
      FinishIsClean(w, name, j);
      RunCons(w, id, name, Finish(w, name, j), rest);
    }
  }

  lemma WithoutTwo(spool: seq<Entry>, i: nat)
    requires i < |spool| && |spool| > 1
    ensures var (j, k) := (if i > 0 then 0 else 1, if i > 0 then i - 1 else 0);
            && Without(spool, j)[k] == spool[i]
            && Without(spool, i)[0] == spool[j] && Without(spool, i)[1..] == Without(Without(spool, j), k)
  {
  }

  /** Approvals in the spool approve a pending row, and nothing else changes it. */
  lemma {:induction false} DecidedIs(row: Proposal, spool: seq<Entry>)
    requires row.status != Rejected && forall e :: e in spool && e.QueuedVerdict? ==> e.status == Approved
    ensures Decided(row, spool) == if exists e :: e in spool && e.QueuedVerdict? then row.(status := Approved) else row
    decreases |spool|
  {
    if spool != [] {
      assert spool[0] in spool && forall e :: e in spool[1..] ==> e in spool;
      assert forall e :: e in spool ==> e == spool[0] || e in spool[1..];
      DecidedIs(DecidedBy(row, spool[0]), spool[1..]);
    }
  }

  // ---- what the spool of an approval comes to ---------------------------------------------------------

  lemma {:induction false} SpoolWritesConcat(name: Naming, x: seq<Entry>, y: seq<Entry>)
    ensures SpoolWrites(name, x + y) == SpoolWrites(name, x) + SpoolWrites(name, y)
    decreases |x|
  {
    hide EntryWrites;
    if x == [] {
      assert x + y == y;
    } else {
      SpoolWritesConcat(name, x[1..], y);
      assert (x + y)[1..] == x[1..] + y && (x + y)[0] == x[0];
      Assoc(EntryWrites(name, x[0]), SpoolWrites(name, x[1..]), SpoolWrites(name, y));
    }
  }

  lemma SpoolWritesOne(name: Naming, e: Entry)
    ensures SpoolWrites(name, [e]) == EntryWrites(name, e)
  {
    hide EntryWrites;
    assert [e][1..] == [] && EntryWrites(name, e) + [] == EntryWrites(name, e);
  }

  lemma {:induction false} EntriesConcat(x: seq<Step>, y: seq<Step>)
    ensures Entries(x + y) == Entries(x) + Entries(y)
  {
    EntriesAre(x);
    EntriesAre(y);
    EntriesAre(x + y);
  }

  lemma PlainDrains(name: Naming, dataset: string, text: string)
    requires dataset != "" && text == Trim(text) != ""
    ensures DrainWrites(name, StoreFact(dataset, text), {}) == [Put(dataset, text)]
  {
    hide Trim;
    assert Withdrawals([], name(dataset, text)) == [];
    assert [Put(dataset, text)] + [] == [Put(dataset, text)];
  }

  lemma {:induction false} PlainSpoolWrites(name: Naming, dataset: string, parts: seq<string>)
    requires dataset != "" && forall x :: x in parts ==> x == Trim(x) != ""
    ensures SpoolWrites(name, Entries(PlainStores(dataset, parts))) == Puts(dataset, parts)
    decreases |parts|
  {
    hide DrainWrites, Trim, Puts;
    if parts == [] {
      NoPlainStores(dataset);
      assert Puts(dataset, []) == [];
    } else {
      assert parts[0] in parts && forall x :: x in parts[1..] ==> x in parts;
      PlainSpoolWrites(name, dataset, parts[1..]);
      assert PlainStores(dataset, parts)[1..] == PlainStores(dataset, parts[1..]);
      PlainDrains(name, dataset, parts[0]);
      PutsCons(dataset, parts);
    }
  }

  lemma {:induction false} NoneFails(sources: seq<string>, failing: set<string>)
    requires failing == {}
    ensures Filter(sources, id => id !in failing) == sources
  {
    if sources != [] {
      NoneFails(sources[..|sources| - 1], failing);
    }
  }

  lemma FullDrain(name: Naming, step: Step)
    requires !step.RetireFacts? && step.dataset != "" && step.text == Trim(step.text) != ""
    ensures DrainWrites(name, step, {})
         == if step.StoreAndRetire? && step.sources == [] then []
            else [Put(step.dataset, step.text)] + Withdrawals(SourcesOf(step), name(step.dataset, step.text))
  {
    hide Trim;
    NoneFails(SourcesOf(step), {});
  }

  lemma EndDrains(s: Store, p: Proposal, name: Naming)
    requires Applicable(s, p) && !Blank(p) && p.kind != "retire" && Parts(p) != []
    ensures var (sources, reason) := (Sources(p, x => x in s), Reason(p, name, p.dataset));
            DrainWrites(name, EndStep(p, sources), {})
            == if Lossy(p) then [] else [Put(p.dataset, Last(p))] + Withdrawals(sources, reason)
  {
    hide Applicable, Blank, Parts, Trim, Named, Filter, Withdrawals;
    PartsAreTrimmed(p);
    PartsAreSome(p);
    NotBlank(p);
    assert Last(p) in Parts(p);
    var sources := Sources(p, x => x in s);
    FullDrain(name, EndStep(p, sources));
    NoSourcesNamed(p, s);
    if Lossy(p) {
      LossySources(p, s);
    }
  }

  /** Drained, an approval stores every part but a lossy one and retires the sources, all for the dataset
      as it was written. */
  lemma ApprovalDrains(s: Store, p: Proposal, name: Naming)
    requires Applicable(s, p) && !Blank(p) && p.kind != "retire" && Parts(p) != []
    ensures SpoolWrites(name, Entries(StepsFor(p, s)))
         == Puts(p.dataset, Drainable(p)) + Withdrawals(Sources(p, x => x in s), Reason(p, name, p.dataset))
  {
    hide Applicable, Blank, Parts, Trim, Named, Sources, Withdrawals, Puts, Reason, EndStep, PlainStores, DrainWrites, Lossy, SpoolWrites, Entries;
    PartsAreTrimmed(p);
    PartsAreSome(p);
    NotBlank(p);
    var (init, sources, reason) := (Parts(p)[..|Parts(p)| - 1], Sources(p, x => x in s), Reason(p, name, p.dataset));
    assert forall x :: x in init ==> x in Parts(p);
    var (plain, end) := (PlainStores(p.dataset, init), EndStep(p, sources));
    PlainSpoolWrites(name, p.dataset, init);
    EntriesConcat(plain, [end]);
    SpoolWritesConcat(name, Entries(plain), Entries([end]));
    assert Entries([end]) == [QueuedStep(end)] by { EntriesAre([end]); }
    SpoolWritesOne(name, QueuedStep(end));
    EndDrains(s, p, name);
    assert init + [Last(p)] == Parts(p);
    if Lossy(p) {
      LossySources(p, s);
      WithdrawalsCut([], reason, 0);
    } else {
      PutsSnoc(p.dataset, init, Last(p));
      Assoc(Puts(p.dataset, init), [Put(p.dataset, Last(p))], Withdrawals(sources, reason));
    }
  }

  // ---- the runs ------------------------------------------------------------------------------------

  /** The store that draining a whole approval leaves. */
  ghost function AfterDraining(s: Store, p: Proposal, name: Naming): Store {
    Outcome(s, name, p.dataset, Drainable(p), Alive(s, p), Reason(p, name, p.dataset))
  }

  ghost predicate Quiet(p: Proposal, moves: seq<Move>) {
    forall m :: m in moves ==> Heard(p, m)
  }

  lemma CleanIsQuiet(p: Proposal, moves: seq<Move>)
    requires Clean(moves)
    ensures Quiet(p, moves)
  {
  }

  lemma TryIsQuiet(p: Proposal, net: Net)
    requires p.kind != "retire"
    ensures Quiet(p, [Try(net)])
  {
  }

  /** Everything is spooled; then the spool is drained. */
  lemma AwayRun(s: Store, p: Proposal, id: int, name: Naming, w: World, verdict: Reach) returns (moves: seq<Move>)
    requires w == World(s, p, []) && Applicable(s, p) && p.kind != "retire" && verdict in {AWAY, LOST}
    ensures Quiet(p, moves)
    ensures var after := Run(w, id, name, moves);
            && after.spool == [] && after.row == (if verdict == AWAY then p.(status := Approved) else p)
            && (!Blank(p) ==> after.store == AfterDraining(s, p, name))
            && (Blank(p) ==> after.store == s)
  {
    hide Applicable, Blank, Attempt, Parts, StepsFor, DoAll, SpoolWrites, Entries, Outcome, Reason, Sources, Alive, Puts, Withdrawals, Run, Heard, Drainable, EndStep, OnlyEmpty;
    PendingAtFirst(s, p);
    AwayAttempt(w, p, id, name, verdict);
    var m := Try(Silent(|Parts(p)|, verdict));
    var steps := StepsFor(p, s);
    var queued := Entries(steps) + VerdictOf(id, Approved, verdict);
    assert [] + Entries(steps) == Entries(steps);
    var drains := DrainAll(World(s, p, queued), id, name);
    moves := [m] + drains;
    RunCons(w, id, name, m, drains);
    CleanIsQuiet(p, drains);
    TryIsQuiet(p, m.net);
    EntriesAre(steps);
    assert forall e :: e in Entries(steps) ==> e.QueuedStep?;
    assert verdict == AWAY ==> queued[|queued| - 1] == QueuedVerdict(id, Approved);
    DecidedIs(p, queued);
    if Blank(p) {
      BlankWritesNothing(s, p, id, name, moves);
    } else {
      SpoolWritesConcat(name, Entries(steps), VerdictOf(id, Approved, verdict));
      VerdictWritesNothing(name, id, verdict);
      ApprovalDrains(s, p, name);
      assert SpoolWrites(name, Entries(steps)) + [] == SpoolWrites(name, Entries(steps));
      BatchOutcome(s, name, p.dataset, Drainable(p), Sources(p, x => x in s), Reason(p, name, p.dataset));
      AliveAreSources(s, p);
    }
  }

  lemma VerdictWritesNothing(name: Naming, id: int, verdict: Reach)
    ensures SpoolWrites(name, VerdictOf(id, Approved, verdict)) == []
  {
    SpoolWritesOne(name, QueuedVerdict(id, Approved));
  }

  lemma SpooledFirst(s: Store, p: Proposal, id: int, name: Naming)
    requires Applicable(s, p) && p.kind != "retire" && Parts(p) != []
    ensures var steps := StepsFor(p, s);
            && Moved(World(s, p, []), id, name, Try(Silent(|Parts(p)|, AWAY))) == World(s, p, Entries(steps) + [QueuedVerdict(id, Approved)])
            && |Entries(steps)| == |steps| == |Parts(p)| && forall i :: 0 <= i < |steps| ==> Entries(steps)[i] == QueuedStep(steps[i])
  {
    hide Applicable, Attempt, Parts, StepsFor, Entries, EndStep;
    var (w, steps) := (World(s, p, []), StepsFor(p, s));
    StepsStore(p, s);
    EntriesAre(steps);
    AwayAttempt(w, p, id, name, AWAY);
    assert [] + Entries(steps) == Entries(steps);
  }

  /** The spool drained but for one entry, and that one last. */
  lemma DrainedLast(s: Store, p: Proposal, id: int, name: Naming, i: nat) returns (moves: seq<Move>, before: Store)
    requires Applicable(s, p) && p.kind != "retire" && Parts(p) != [] && i < |Parts(p)|
    ensures Quiet(p, moves) && i < |StepsFor(p, s)|
    ensures Run(World(s, p, []), id, name, moves)
         == World(DoAll(before, name, DrainWrites(name, StepsFor(p, s)[i], {})), p.(status := Approved), [])
  {
    hide Applicable, Attempt, Parts, StepsFor, DoAll, Entries, Run, Heard, EndStep, DrainWrites, Moved, Finish, DecidedBy;
    var (w, steps) := (World(s, p, []), StepsFor(p, s));
    PendingAtFirst(s, p);
    SpooledFirst(s, p, id, name);
    var m := Try(Silent(|Parts(p)|, AWAY));
    var queued := Entries(steps) + [QueuedVerdict(id, Approved)];
    var spooled := World(s, p, queued);
    var others := DrainOthers(spooled, id, name, i);
    assert Without(queued, i)[|queued| - 2] == QueuedVerdict(id, Approved);
    DecidedIs(p, Without(queued, i));
    var next := Run(spooled, id, name, others);
    before := next.store;
    Finished(next, id, name, 0);
    assert DecidedBy(next.row, queued[i]) == next.row by { StepDecidesNothing(next.row, steps[i]); }
    assert Without([queued[i]], 0) == [];
    var last := Finish(next, name, 0);
    moves := [m] + (others + [last]);
    RunCons(w, id, name, m, others + [last]);
    RunSnoc(spooled, id, name, others, last);
    TryIsQuiet(p, m.net);
    FinishIsClean(next, name, 0);
    CleanIsQuiet(p, others + [last]);
  }

  lemma TryMoves(w: World, id: int, name: Naming, net: Net)
    ensures Moved(w, id, name, Try(net)) == Attempt(w, id, name, net)
  {
    hide Attempt;
  }

  lemma StepDecidesNothing(row: Proposal, step: Step)
    ensures DecidedBy(row, QueuedStep(step)) == row
  {
  }

  /** The verdict waits in the spool until everything else is drained and a served attempt has failed
      after part `i`. */
  lemma ServedLast(s: Store, p: Proposal, id: int, name: Naming, i: nat) returns (moves: seq<Move>, before: Store)
    requires Applicable(s, p) && p.kind != "retire" && !Blank(p) && Trim(p.dataset) != "" && i < |Parts(p)|
    ensures Quiet(p, moves)
    ensures Run(World(s, p, []), id, name, moves)
         == World(DoAll(before, name, Puts(Place(p), Parts(p)[..i + 1])), p.(status := Approved), [])
  {
    hide Applicable, Blank, Attempt, Parts, StepsFor, DoAll, Entries, Run, Heard, EndStep, Moved, Finish, DecidedBy, Trim, Puts;
    var (w, steps) := (World(s, p, []), StepsFor(p, s));
    PendingAtFirst(s, p);
    SpooledFirst(s, p, id, name);
    var (m, again, verdict) := (Try(Silent(|Parts(p)|, AWAY)), Try(ServedTo(i)), QueuedVerdict(id, Approved));
    var queued := Entries(steps) + [verdict];
    var spooled := World(s, p, queued);
    var others := DrainOthers(spooled, id, name, |steps|);
    assert Without(queued, |steps|) == Entries(steps);
    DecidedIs(p, Entries(steps));
    var next := Run(spooled, id, name, others);
    before := next.store;
    RunCons(w, id, name, m, others);
    KeysRise(s, p, id, name, [m] + others);
    StaysApplicable(s, before, p);
    ServedAttempt(next, p, id, name, i);
    var served := World(DoAll(before, name, Puts(Place(p), Parts(p)[..i + 1])), p, [verdict]);
    assert Moved(next, id, name, again) == served by { TryMoves(next, id, name, again.net); }
    Finished(served, id, name, 0);
    assert DecidedBy(p, verdict) == p.(status := Approved) by { VerdictDecides(p, id); }
    assert Without([verdict], 0) == [];
    DoOne(served.store, name, Put("", ""));
    var last := Finish(served, name, 0);
    moves := [m] + (others + [again] + [last]);
    RunCons(w, id, name, m, others + [again] + [last]);
    RunSnoc(spooled, id, name, others, again);
    RunSnoc(spooled, id, name, others + [again], last);
    TryIsQuiet(p, m.net);
    TryIsQuiet(p, again.net);
    FinishIsClean(served, name, 0);
    CleanIsQuiet(p, others);
    CleanIsQuiet(p, [last]);
  }

  lemma VerdictDecides(p: Proposal, id: int)
    requires p.status == Pending
    ensures DecidedBy(p, QueuedVerdict(id, Approved)) == p.(status := Approved)
  {
  }

  lemma KeysRise(s: Store, p: Proposal, id: int, name: Naming, moves: seq<Move>)
    requires Applicable(s, p)
    ensures s.Keys <= Run(World(s, p, []), id, name, moves).store.Keys
  {
    hide Run, Applicable, Parts, Named, AllIds, InRow;
    forall x | x in s ensures x in Run(World(s, p, []), id, name, moves).store {
      NothingLostMidway(s, p, id, name, moves, x);
    }
  }

  /** Spooled and drained twice over, the first time without the verdict. */
  lemma AwayTwice(s: Store, p: Proposal, id: int, name: Naming) returns (moves: seq<Move>)
    requires Applicable(s, p) && p.kind != "retire" && !Blank(p)
    ensures Quiet(p, moves)
    ensures Run(World(s, p, []), id, name, moves)
         == World(AfterDraining(AfterDraining(s, p, name), p, name), p.(status := Approved), [])
  {
    hide Applicable, Blank, AfterDraining, Run, Heard;
    var first := AwayRun(s, p, id, name, World(s, p, []), LOST);
    var next := Run(World(s, p, []), id, name, first);
    KeysRise(s, p, id, name, first);
    StaysApplicable(s, next.store, p);
    var second := AwayRun(next.store, p, id, name, next, AWAY);
    moves := first + second;
    RunConcat(World(s, p, []), id, name, first, second);
  }

  /** Everything is spooled, and one entry drained in part or in full. */
  lemma OneDrained(s: Store, p: Proposal, id: int, name: Naming, i: nat, k: nat) returns (moves: seq<Move>)
    requires Applicable(s, p) && p.kind != "retire" && Parts(p) != [] && i < |Parts(p)|
    ensures i < |StepsFor(p, s)|
    ensures var ws := DrainWrites(name, StepsFor(p, s)[i], {});
            Run(World(s, p, []), id, name, moves).store == DoAll(s, name, ws[..Min(k, |ws|)])
  {
    hide Applicable, Attempt, Parts, StepsFor, DoAll, Entries, EndStep, DrainWrites;
    var (w, steps) := (World(s, p, []), StepsFor(p, s));
    StepsStore(p, s);
    EntriesAre(steps);
    AwayAttempt(w, p, id, name, LOST);
    var (m, d) := (Try(Silent(|Parts(p)|, LOST)), Drains(i, Draining(k, true, {})));
    assert [] + Entries(steps) + [] == Entries(steps);
    RunTwo(w, id, name, m, d);
    moves := [m, d];
  }

  /** Some entry of the spool stores this part. */
  lemma DrainedBy(s: Store, p: Proposal, name: Naming, part: string) returns (i: nat)
    requires Applicable(s, p) && !Blank(p) && p.kind != "retire" && part in Drainable(p) && Parts(p) != []
    ensures i < |Parts(p)| == |StepsFor(p, s)| && Parts(p)[i] == part
    ensures DrainWrites(name, StepsFor(p, s)[i], {})
         == [Put(p.dataset, part)] + Withdrawals(SourcesOf(StepsFor(p, s)[i]), name(p.dataset, part))
  {
    hide Applicable, Blank, Parts, StepsFor, DrainWrites, EndStep, Trim, Withdrawals, Lossy;
    PartsAreTrimmed(p);
    PartsAreSome(p);
    NotBlank(p);
    StepsStore(p, s);
    i :| 0 <= i < |Drainable(p)| && Drainable(p)[i] == part;
    var step := StepsFor(p, s)[i];
    StepIs(p, s, i);
    assert Parts(p)[i] in Parts(p);
    FullDrain(name, step);
    if i == |Parts(p)| - 1 {
      EndHasSources(p, s);
    }
  }

  lemma EndHasSources(p: Proposal, s: Store)
    requires Applicable(s, p) && Parts(p) != [] && !Lossy(p)
    ensures var end := EndStep(p, Sources(p, x => x in s)); end.StoreAndRetire? ==> end.sources != []
  {
    hide Applicable, Parts, Sources, Named;
    NoSourcesNamed(p, s);
  }

  lemma {:induction false} WithdrawalsKeepText(s: Store, name: Naming, sources: seq<string>, reason: string, id: string)
    requires id in s
    ensures var now := DoAll(s, name, Withdrawals(sources, reason)); id in now && now[id].text == s[id].text
  {
    if sources == [] {
      DoOne(s, name, Put("", ""));
    } else {
      hide Withdrawals, DoAll;
      var (init, last) := (sources[..|sources| - 1], sources[|sources| - 1]);
      WithdrawalsKeepText(s, name, init, reason, id);
      WithdrawalsSnoc(init, last, reason);
      assert sources == init + [last];
      DoSnoc(s, name, Withdrawals(init, reason), Withdraw(last, reason));
    }
  }

  lemma WithdrawalsSnoc(init: seq<string>, last: string, reason: string)
    ensures Withdrawals(init + [last], reason) == Withdrawals(init, reason) + [Withdraw(last, reason)]
  {
  }

  /** What a step stores stands when the step is done. */
  lemma PutStands(s: Store, name: Naming, dataset: string, text: string, sources: seq<string>, reason: string)
    ensures var (id, now) := (name(dataset, text), DoAll(s, name, [Put(dataset, text)] + Withdrawals(sources, reason)));
            id in now && now[id].text == text
  {
    hide Withdrawals, DoAll;
    DoConcat(s, name, [Put(dataset, text)], Withdrawals(sources, reason));
    DoOne(s, name, Put(dataset, text));
    WithdrawalsKeepText(Remember(s, name, dataset, text), name, sources, reason, name(dataset, text));
  }

  lemma LastPutStands(s: Store, name: Naming, dataset: string, parts: seq<string>, i: nat)
    requires i < |parts|
    ensures var (id, now) := (name(dataset, parts[i]), DoAll(s, name, Puts(dataset, parts[..i + 1]))); id in now && now[id].text == parts[i]
  {
    hide Puts, DoAll;
    assert parts[..i + 1] == parts[..i] + [parts[i]];
    PutsSnoc(dataset, parts[..i], parts[i]);
    DoSnoc(s, name, Puts(dataset, parts[..i]), Put(dataset, parts[i]));
  }
}
