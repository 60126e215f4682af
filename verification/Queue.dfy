/** The review queue and its commands, over the daemon's handlers. */
module Queue {
  import opened Text
  import opened Lists
  import opened FactStore
  import opened Apply
  import opened Requests

  /** The fact table, the proposal table and the spool; a proposal's id is its position, from 1. */
  datatype Desk = Desk(facts: Store, rows: seq<Proposal>, spool: seq<Entry>)

  // ---- adding -----------------------------------------------------------------------------

  predicate Waiting(p: Proposal, kind: string, dataset: string, targets: string) {
    p.status == Pending && p.kind == kind && p.dataset == dataset && Or(p.targets) == targets
  }

  /** The first row waiting with this key. */
  function FirstWaiting(rows: seq<Proposal>, kind: string, dataset: string, targets: string): (r: Option<nat>)
    ensures r.Some? ==> r.value < |rows| && Waiting(rows[r.value], kind, dataset, targets)
    ensures r.None? ==> forall i :: 0 <= i < |rows| ==> !Waiting(rows[i], kind, dataset, targets)
  {
    if rows == [] then None
    else
      var (init, last) := (rows[..|rows| - 1], |rows| - 1);
      var r := FirstWaiting(init, kind, dataset, targets);
      if r.Some? then r else if Waiting(rows[last], kind, dataset, targets) then Some(last) else None
  }

  /** Queues a proposal unless one with the same kind, dataset and non-empty targets waits already. */
  function AddRow(rows: seq<Proposal>, kind: string, dataset: string, text: Option<string>, targets: Option<string>): (seq<Proposal>, nat) {
    var waiting := if Or(targets) == "" then None else FirstWaiting(rows, kind, dataset, Or(targets));
    match waiting
    case Some(i) => (rows, i + 1)
    case None => (rows + [Proposal(kind, dataset, text, targets, Pending)], |rows| + 1)
  }

  ghost predicate SameKey(p: Proposal, q: Proposal) {
    p.status == Pending && q.status == Pending && p.kind == q.kind && p.dataset == q.dataset && Or(p.targets) == Or(q.targets) != ""
  }

  /** No two waiting proposals ask for the same decision about the same facts. */
  ghost predicate OnePerKey(rows: seq<Proposal>) {
    forall i, j :: 0 <= i < j < |rows| ==> !SameKey(rows[i], rows[j])
  }

  /** The id returned names a waiting row with the key asked for, and only a row that was not there
      before is added. */
  lemma AddKeepsOnePerKey(rows: seq<Proposal>, kind: string, dataset: string, text: Option<string>, targets: Option<string>)
    requires OnePerKey(rows)
    ensures var (now, id) := AddRow(rows, kind, dataset, text, targets);
            && OnePerKey(now)
            && 1 <= id <= |now| && Waiting(now[id - 1], kind, dataset, Or(targets))
            && |rows| <= |now| && now[..|rows|] == rows
            && (now != rows <==> Or(targets) == "" || forall i :: 0 <= i < |rows| ==> !Waiting(rows[i], kind, dataset, Or(targets)))
  {
    var (now, _) := AddRow(rows, kind, dataset, text, targets);
    if now == rows {
      assert rows[..|rows|] == rows;
    } else {
      assert |now| == |rows| + 1;
    }
  }

  // ---- deciding ---------------------------------------------------------------------------

  predicate Known(rows: seq<Proposal>, id: int) {
    1 <= id <= |rows|
  }

  function SetStatus(rows: seq<Proposal>, id: int, status: Status, r: Reach): (now: seq<Proposal>)
    ensures |now| == |rows|
  {
    if Known(rows, id) then rows[id - 1 := Resolve(rows[id - 1], status, r)] else rows
  }

  /** The daemon answers that resolving a row that is not waiting is done. */
  predicate StatusAccepted(rows: seq<Proposal>, id: int, r: Reach) {
    r.answered && (Known(rows, id) && rows[id - 1].status == Pending ==> r.writes > 0)
  }

  /** Sends a verdict, or spools it when no reply comes. */
  function SendVerdict(d: Desk, id: int, status: Status, r: Reach): (Desk, bool) {
    (d.(rows := SetStatus(d.rows, id, status, r), spool := d.spool + VerdictOf(id, status, r)),
     StatusAccepted(d.rows, id, r) || (!r.answered && r.spooled))
  }

  /** One id of a command: the new state, and whether its exit code is 0. */
  function DecideOne(d: Desk, name: Naming, reject: bool, id: int, net: Net): (Desk, bool) {
    if reject then SendVerdict(d, id, Rejected, net(0))
    else if !Known(d.rows, id) then (d, false)
    else
      match PlanApply(d.rows[id - 1], fact => fact in d.facts)
      case Refused(why) => if RefusalRetires(why) then SendVerdict(d, id, Rejected, net(0)) else (d, false)
      case Steps(steps) =>
        var e := Execute(d.facts, name, steps, net, 0);
        var next := d.(facts := e.store, spool := d.spool + e.queued);
        if e.ok then SendVerdict(next, id, Approved, net(e.requests)) else (next, false)
  }

  /** A whole command; the requests for the i-th id fare as `nets(i)` says. */
  function DecideAll(d: Desk, name: Naming, reject: bool, ids: seq<int>, nets: nat -> Net): (Desk, bool) {
    if ids == [] then (d, true)
    else
      var last := |ids| - 1;
      var (before, ok) := DecideAll(d, name, reject, ids[..last], nets);
      var (after, okLast) := DecideOne(before, name, reject, ids[last], nets(last));
      (after, ok && okLast)
  }

  /** The daemon takes the `i`-th spool file. */
  function DrainDesk(d: Desk, name: Naming, i: nat, dr: Draining): Desk {
    if i >= |d.spool| then d
    else
      var e := d.spool[i];
      Desk(Drained(d.facts, name, e, dr),
           if e.QueuedVerdict? then SetStatus(d.rows, e.id, e.status, Reach(dr.writes, true, {}, false)) else d.rows,
           if Removes(name, e, dr) then Without(d.spool, i) else d.spool)
  }

  /** Approving one proposal is one attempt at it; the other rows are untouched. */
  lemma ApproveIsAttempt(d: Desk, name: Naming, id: int, net: Net)
    requires Known(d.rows, id)
    ensures var w := Attempt(World(d.facts, d.rows[id - 1], d.spool), id, name, net);
            DecideOne(d, name, false, id, net).0 == Desk(w.store, d.rows[id - 1 := w.row], w.spool)
  {
    hide PlanApply, Execute;
    assert d.rows[id - 1 := d.rows[id - 1]] == d.rows;
  }

  /** And a drain is the same move, whichever proposal's entry it takes. */
  lemma DrainIsMove(d: Desk, name: Naming, id: int, i: nat, dr: Draining)
    requires Known(d.rows, id) && (i < |d.spool| && d.spool[i].QueuedVerdict? ==> d.spool[i].id == id)
    ensures var w := Drain(World(d.facts, d.rows[id - 1], d.spool), name, i, dr);
            DrainDesk(d, name, i, dr) == Desk(w.store, d.rows[id - 1 := w.row], w.spool)
  {
    hide Drained, Removes;
    assert d.rows[id - 1 := d.rows[id - 1]] == d.rows;
  }

  /** A row that has been decided keeps its decision, and a waiting one changes in its status alone. */
  ghost predicate Decided(before: seq<Proposal>, after: seq<Proposal>) {
    && |before| <= |after|
    && forall i :: 0 <= i < |before| ==>
         if before[i].status == Pending then after[i] == before[i].(status := after[i].status) else after[i] == before[i]
  }

  lemma DecideOneDecides(d: Desk, name: Naming, reject: bool, id: int, net: Net)
    ensures Decided(d.rows, DecideOne(d, name, reject, id, net).0.rows)
    ensures |DecideOne(d, name, reject, id, net).0.rows| == |d.rows|
    ensures (reject || (Known(d.rows, id) ==> d.rows[id - 1].status != Pending)) ==> DecideOne(d, name, reject, id, net).0.facts == d.facts
  {
    hide Execute, Named, Pieces, Trim;
  }

  /** What a command puts in the spool stays there until a drain. */
  lemma {:induction false} DecideAllDecides(d: Desk, name: Naming, reject: bool, ids: seq<int>, nets: nat -> Net)
    ensures Decided(d.rows, DecideAll(d, name, reject, ids, nets).0.rows)
    ensures |DecideAll(d, name, reject, ids, nets).0.rows| == |d.rows|
    ensures (reject || (forall id :: id in ids && Known(d.rows, id) ==> d.rows[id - 1].status != Pending))
        ==> DecideAll(d, name, reject, ids, nets).0.facts == d.facts
  {
    hide DecideOne;
    if ids != [] {
      var last := |ids| - 1;
      var before := DecideAll(d, name, reject, ids[..last], nets).0;
      assert ids[last] in ids && forall id :: id in ids[..last] ==> id in ids;
      DecideAllDecides(d, name, reject, ids[..last], nets);
      DecideOneDecides(before, name, reject, ids[last], nets(last));
    }
  }

  lemma DecidedKeepsOnePerKey(before: seq<Proposal>, after: seq<Proposal>)
    requires OnePerKey(before) && Decided(before, after) && |after| == |before|
    ensures OnePerKey(after)
  {
    forall i, j | 0 <= i < j < |after| ensures !SameKey(after[i], after[j]) {
      assert !SameKey(before[i], before[j]);
    }
  }

  lemma DecideOneSpools(d: Desk, name: Naming, reject: bool, id: int, net: Net)
    ensures forall e :: e in d.spool ==> e in DecideOne(d, name, reject, id, net).0.spool
  {
    hide Execute, PlanApply;
  }

  /** Judged, or bound to be: the verdict waits in the spool. */
  ghost predicate Judged(d: Desk, id: int) {
    Known(d.rows, id) ==> d.rows[id - 1].status != Pending || exists status :: QueuedVerdict(id, status) in d.spool
  }

  lemma JudgedStays(d: Desk, after: Desk, id: int)
    requires Judged(d, id) && |after.rows| == |d.rows| && Decided(d.rows, after.rows) && forall e :: e in d.spool ==> e in after.spool
    ensures Judged(after, id)
  {
  }

  /** Exit code 0 from a command means that every proposal it listed is resolved, or its verdict is in
      the spool. */
  lemma {:induction false} ExitZeroMeansJudged(d: Desk, name: Naming, reject: bool, ids: seq<int>, nets: nat -> Net)
    requires DecideAll(d, name, reject, ids, nets).1
    ensures forall id :: id in ids ==> Judged(DecideAll(d, name, reject, ids, nets).0, id)
  {
    hide DecideOne, Judged, Decided;
    if ids != [] {
      var last := |ids| - 1;
      var before := DecideAll(d, name, reject, ids[..last], nets).0;
      var after := DecideOne(before, name, reject, ids[last], nets(last)).0;
      assert forall id :: id in ids ==> id in ids[..last] || id == ids[last];
      ExitZeroMeansJudged(d, name, reject, ids[..last], nets);
      DecideOneDecides(before, name, reject, ids[last], nets(last));
      DecideOneSpools(before, name, reject, ids[last], nets(last));
      OneExitZero(before, name, reject, ids[last], nets(last));
      forall id | id in ids ensures Judged(after, id) {
        if id in ids[..last] {
          JudgedStays(before, after, id);
        }
      }
    }
  }

  lemma OneExitZero(d: Desk, name: Naming, reject: bool, id: int, net: Net)
    requires DecideOne(d, name, reject, id, net).1
    ensures Judged(DecideOne(d, name, reject, id, net).0, id)
  {
    hide Execute, PlanApply, VerdictOf;
    var (after, _) := DecideOne(d, name, reject, id, net);
    if reject {
      SentIsJudged(d, id, Rejected, net(0));
    } else {
      ApprovedIsJudged(d, name, id, net);
    }
  }

  lemma SentIsJudged(d: Desk, id: int, status: Status, r: Reach)
    requires status != Pending && SendVerdict(d, id, status, r).1
    ensures Judged(SendVerdict(d, id, status, r).0, id)
  {
    var after := SendVerdict(d, id, status, r).0;
    if !r.answered && r.spooled {
      assert QueuedVerdict(id, status) in after.spool;
    }
  }

  lemma ApprovedIsJudged(d: Desk, name: Naming, id: int, net: Net)
    requires DecideOne(d, name, false, id, net).1
    ensures Judged(DecideOne(d, name, false, id, net).0, id)
  {
    hide Execute, PlanApply, SendVerdict, Judged;
    match PlanApply(d.rows[id - 1], fact => fact in d.facts)
    case Refused(why) => SentIsJudged(d, id, Rejected, net(0));
    case Steps(steps) =>
      var e := Execute(d.facts, name, steps, net, 0);
      SentIsJudged(d.(facts := e.store, spool := d.spool + e.queued), id, Approved, net(e.requests));
  }

  // ---- whole histories --------------------------------------------------------------------

  datatype Command =
    | Add(kind: string, dataset: string, text: Option<string>, targets: Option<string>)
    | Decide(reject: bool, ids: seq<int>, nets: nat -> Net)
    | Drains(i: nat, dr: Draining)

  function Perform(d: Desk, name: Naming, c: Command): Desk {
    match c
    case Add(kind, dataset, text, targets) => d.(rows := AddRow(d.rows, kind, dataset, text, targets).0)
    case Decide(reject, ids, nets) => DecideAll(d, name, reject, ids, nets).0
    case Drains(i, dr) => DrainDesk(d, name, i, dr)
  }

  function History(d: Desk, name: Naming, commands: seq<Command>): Desk {
    if commands == [] then d else Perform(History(d, name, commands[..|commands| - 1]), name, commands[|commands| - 1])
  }

  lemma DecidedOn(x: seq<Proposal>, y: seq<Proposal>, z: seq<Proposal>)
    requires Decided(x, y) && Decided(y, z)
    ensures Decided(x, z)
  {
  }

  lemma PerformDecides(d: Desk, name: Naming, c: Command)
    requires OnePerKey(d.rows)
    ensures OnePerKey(Perform(d, name, c).rows) && Decided(d.rows, Perform(d, name, c).rows)
  {
    hide AddRow, DecideAll, OnePerKey, SameKey, DrainDesk;
    match c
    case Add(kind, dataset, text, targets) =>
      AddKeepsOnePerKey(d.rows, kind, dataset, text, targets);
      var now := AddRow(d.rows, kind, dataset, text, targets).0;
      assert forall i :: 0 <= i < |d.rows| ==> now[i] == now[..|d.rows|][i];
    case Decide(reject, ids, nets) =>
      DecideAllDecides(d, name, reject, ids, nets);
      DecidedKeepsOnePerKey(d.rows, DecideAll(d, name, reject, ids, nets).0.rows);
    case Drains(i, dr) =>
      DrainDecides(d, name, i, dr);
      DecidedKeepsOnePerKey(d.rows, DrainDesk(d, name, i, dr).rows);
  }

  lemma DrainDecides(d: Desk, name: Naming, i: nat, dr: Draining)
    ensures Decided(d.rows, DrainDesk(d, name, i, dr).rows) && |DrainDesk(d, name, i, dr).rows| == |d.rows|
  {
    hide Drained, Removes;
  }

  /** Over any history no decision is asked twice at once, and a row once resolved is never changed
      again. */
  lemma {:induction false} HistoryDecides(d: Desk, name: Naming, commands: seq<Command>)
    requires OnePerKey(d.rows)
    ensures OnePerKey(History(d, name, commands).rows) && Decided(d.rows, History(d, name, commands).rows)
  {
    hide Perform, OnePerKey, Decided;
    if commands != [] {
      var before := History(d, name, commands[..|commands| - 1]);
      HistoryDecides(d, name, commands[..|commands| - 1]);
      PerformDecides(before, name, commands[|commands| - 1]);
      DecidedOn(d.rows, before.rows, History(d, name, commands).rows);
    } else {
      DecidedNone(d.rows);
    }
  }

  /** The row is what some `add` among the commands asked for, whatever has become of its status. */
  ghost predicate AskedFor(commands: seq<Command>, p: Proposal) {
    exists c :: && c in commands && c.Add? && p.kind == c.kind && p.dataset == c.dataset
                && p.text == c.text && p.targets == c.targets
  }

  lemma PerformAdds(d: Desk, name: Naming, c: Command)
    ensures var now := Perform(d, name, c).rows;
            && |d.rows| <= |now|
            && forall i :: |d.rows| <= i < |now| ==> AskedFor([c], now[i])
  {
    hide DecideAll, DrainDesk;
    match c
    case Add(_, _, _, _) =>
      assert c in [c];
    case Decide(reject, ids, nets) => DecideAllDecides(d, name, reject, ids, nets);
    case Drains(i, dr) => DrainDecides(d, name, i, dr);
  }

  /** Over any history every row that was not there at first is, status apart, one that was asked for. */
  lemma {:induction false} HistoryAsksFor(d: Desk, name: Naming, commands: seq<Command>)
    requires OnePerKey(d.rows)
    ensures |d.rows| <= |History(d, name, commands).rows|
    ensures forall i :: |d.rows| <= i < |History(d, name, commands).rows| ==> AskedFor(commands, History(d, name, commands).rows[i])
  {
    hide Perform, OnePerKey, AskedFor;
    if commands != [] {
      var (init, last) := (commands[..|commands| - 1], commands[|commands| - 1]);
      var (before, after) := (History(d, name, init), History(d, name, commands));
      HistoryAsksFor(d, name, init);
      HistoryDecides(d, name, init);
      PerformDecides(before, name, last);
      PerformAdds(before, name, last);
      forall i | |d.rows| <= i < |after.rows| ensures AskedFor(commands, after.rows[i]) {
        if i < |before.rows| {
          AskedMore(init, commands, before.rows[i], after.rows[i]);
        } else {
          AskedMore([last], commands, after.rows[i], after.rows[i]);
        }
      }
    }
  }

  lemma AskedMore(some: seq<Command>, all: seq<Command>, p: Proposal, q: Proposal)
    requires AskedFor(some, p) && q == p.(status := q.status) && forall c :: c in some ==> c in all
    ensures AskedFor(all, q)
  {
  }

  lemma DecidedNone(rows: seq<Proposal>)
    ensures Decided(rows, rows)
  {
  }

  // ---- the program ------------------------------------------------------------------------

  class Librarian {
    const name: Naming
    var facts: Store
    var rows: seq<Proposal>
    var spool: seq<Entry>

    constructor (name: Naming)
      ensures this.name == name && View() == Desk(map[], [], [])
    {
      this.name := name;
      facts, rows, spool := map[], [], [];
    }

    function View(): Desk
      reads this
    {
      Desk(facts, rows, spool)
    }

    method Add(kind: string, dataset: string, text: Option<string>, targets: Option<string>) returns (id: nat)
      modifies this`rows
      ensures (rows, id) == AddRow(old(rows), kind, dataset, text, targets)
      ensures rows == old(rows) || rows == old(rows) + [Proposal(kind, dataset, text, targets, Pending)]
      ensures 1 <= id <= |rows| && (id > |old(rows)| ==> rows != old(rows))
    {
      if Or(targets) != "" {
        var duplicate := FirstWaiting(rows, kind, dataset, Or(targets));
        if duplicate.Some? {
          return duplicate.value + 1;
        }
      }
      rows := rows + [Proposal(kind, dataset, text, targets, Pending)];
      id := |rows|;
    }

    /** Retires sources one row at a time until the request's writes run out. */
    method WithdrawAll(sources: seq<string>, reason: string, budget: nat) returns (all: bool)
      modifies this`facts
      ensures facts == DoAll(old(facts), name, Withdrawals(sources, reason)[..Min(budget, |sources|)])
      ensures all <==> budget >= |sources|
    {
      ghost var ws := Withdrawals(sources, reason);
      for i := 0 to |sources|
        invariant i <= budget && facts == DoAll(old(facts), name, ws[..i])
      {
        if i == budget {
          return false;
        }
        assert ws[..i + 1] == ws[..i] + [ws[i]];
        DoSnoc(old(facts), name, ws[..i], ws[i]);
        facts := Supersede(facts, sources[i], reason);
      }
      all := true;
    }

    /** Retires sources with nothing in their place, passing over those whose update errors. */
    method RetireEach(sources: seq<string>, failing: set<string>, budget: nat) returns (all: bool)
      modifies this`facts
      ensures var ws := Withdrawals(Filter(sources, id => id !in failing), "retired");
              facts == DoAll(old(facts), name, ws[..Min(budget, |ws|)]) && (all <==> budget >= |ws|)
    {
      hide DoAll, Filter;
      all := true;
      ghost var keep := (id: string) => id !in failing;
      ghost var done: seq<string> := [];
      var writes := 0;
      DoOne(facts, name, Put("", ""));
      NoneLeft(keep);
      for i := 0 to |sources|
        invariant done == Filter(sources[..i], keep) && writes == Min(budget, |done|)
        invariant facts == DoAll(old(facts), name, Withdrawals(done, "retired")[..writes])
        invariant all <==> budget >= |done|
      {
        assert sources[..i + 1] == sources[..i] + [sources[i]];
        FilterSnoc(sources[..i], sources[i], keep);
        if sources[i] !in failing {
          ghost var ws := Withdrawals(done + [sources[i]], "retired");
          assert Withdrawals(done, "retired") == ws[..|done|] && ws[..|done|][..writes] == ws[..writes];
          if writes < budget {
            assert ws[..writes + 1] == ws[..writes] + [Withdraw(sources[i], "retired")];
            DoSnoc(old(facts), name, ws[..writes], Withdraw(sources[i], "retired"));
            facts := Supersede(facts, sources[i], "retired");
            writes := writes + 1;
          } else {
            all := false;
          }
          done := done + [sources[i]];
        }
      }
      assert sources[..|sources|] == sources;
    }

    method Store(dataset: string, text: string, budget: nat) returns (stored: bool)
      modifies this`facts
      ensures facts == DoAll(old(facts), name, [Put(dataset, text)][..Min(budget, 1)])
      ensures stored <==> budget > 0
    {
      DoOne(facts, name, Put(dataset, text));
      assert [Put(dataset, text)][..1] == [Put(dataset, text)];
      stored := budget > 0;
      if stored {
        facts := Remember(facts, name, dataset, text);
      }
    }

    /** Store first: without the replacement there is nothing to retire the sources for. */
    method StoreThenRetire(dataset: string, text: string, sources: seq<string>, budget: nat) returns (all: bool)
      modifies this`facts
      ensures var ws := [Put(dataset, text)] + Withdrawals(sources, name(dataset, text));
              facts == DoAll(old(facts), name, ws[..Min(budget, |ws|)]) && (all <==> budget >= |ws|)
    {
      hide Withdrawals, DoAll, Remember;
      ghost var (before, ws) := (facts, Withdrawals(sources, name(dataset, text)));
      if budget == 0 {
        DoOne(facts, name, Put(dataset, text));
        return false;
      }
      facts := Remember(facts, name, dataset, text);
      all := WithdrawAll(sources, name(dataset, text), budget - 1);
      PutThen(before, name, dataset, text, ws, Min(budget - 1, |sources|));
    }

    /** The daemon's handler for one step. */
    method Request(step: Step, r: Reach) returns (ok: bool)
      modifies this`facts
      ensures facts == Handle(old(facts), name, step, r)
      ensures ok <==> Accepted(name, step, r)
    {
      hide Refuses, Trim, DoAll, Withdrawals;
      if Refuses(step) {
        DoOne(facts, name, Put("", ""));
        assert Sent(name, step, r)[..0] == [];
        return false;
      }
      match step {
        case StoreFact(dataset, text) =>
          ok := Store(Trim(dataset), Trim(text), r.writes);
        case StoreAndRetire(dataset, text, sources) =>
          ok := StoreThenRetire(Trim(dataset), Trim(text), sources, r.writes);
        case RetireFacts(sources) =>
          ok := RetireEach(sources, r.failing, r.writes);
      }
      ok := ok && r.answered;
    }

    /** The client's side of one step: without a reply it spools the request and goes on. */
    method Send(step: Step, r: Reach) returns (ok: bool)
      modifies this`facts, this`spool
      ensures facts == Handle(old(facts), name, step, r) && spool == old(spool) + QueuedOf(step, r)
      ensures ok <==> Good(name, step, r)
    {
      hide Handle, Accepted;
      ok := Request(step, r);
      if !r.answered && r.spooled && !step.RetireFacts? {
        spool := spool + [QueuedStep(step)];
        ok := true;
      }
    }

    /** The guarded update: a resolved row stays as it is, and the reply does not tell. */
    method Resolve(id: int, status: Status, r: Reach) returns (ok: bool)
      modifies this`rows
      ensures rows == SetStatus(old(rows), id, status, r)
      ensures ok <==> StatusAccepted(old(rows), id, r)
    {
      ok := r.answered;
      if Known(rows, id) && rows[id - 1].status == Pending {
        if r.writes > 0 {
          rows := rows[id - 1 := rows[id - 1].(status := status)];
        } else {
          ok := false;
        }
      }
    }

    method Judge(id: int, status: Status, r: Reach) returns (ok: bool)
      modifies this`rows, this`spool
      ensures (View(), ok) == SendVerdict(old(View()), id, status, r)
    {
      ok := Resolve(id, status, r);
      assert spool + [] == spool;
      if !r.answered && r.spooled {
        spool := spool + [QueuedVerdict(id, status)];
        ok := true;
      }
    }

    /** The daemon drains one spool file: it is removed once all of it was done, or set aside. */
    method DrainEntry(i: nat, dr: Draining)
      requires i < |spool|
      modifies this
      ensures View() == DrainDesk(old(View()), name, i, dr)
    {
      hide Trim;
      var all := dr.writes >= 1;
      match spool[i] {
        case QueuedVerdict(id, status) =>
          var _ := Resolve(id, status, Reach(dr.writes, true, {}, false));
        case QueuedStep(step) =>
          all := DrainStep(step, dr);
      }
      if all && dr.finished {
        spool := spool[..i] + spool[i + 1..];
      }
    }

    method DrainStep(step: Step, dr: Draining) returns (all: bool)
      modifies this`facts
      ensures facts == Drained(old(facts), name, QueuedStep(step), dr)
      ensures all <==> dr.writes >= |DrainWrites(name, step, dr.failing)|
    {
      hide Trim, DoAll, Filter, Withdrawals;
      if step.RetireFacts? || (step.StoreAndRetire? && step.sources == []) || Trim(step.text) == "" || step.dataset == "" {
        NoWritesOf(facts, name, step, dr);
        return true;
      }
      var sources := if step.StoreAndRetire? then Filter(step.sources, id => id !in dr.failing) else [];
      all := StoreThenRetire(step.dataset, Trim(step.text), sources, dr.writes);
    }

    /** `approve` of one id. */
    method Approve(id: int, net: Net) returns (ok: bool)
      modifies this
      ensures (View(), ok) == DecideOne(old(View()), name, false, id, net)
    {
      hide PlanApply, SendVerdict, Handle, Good, QueuedOf;
      if !Known(rows, id) {
        return false;
      }
      var before := facts;
      ghost var spooled := spool;
      var plan := PlanApply(rows[id - 1], fact => fact in before);
      match plan {
        case Refused(why) =>
          ok := false;
          if RefusalRetires(why) {
            ok := Judge(id, Rejected, net(0));
          }
        case Steps(steps) =>
          ok := true;
          var sent := 0;
          ghost var queued: seq<Entry> := [];
          while ok && sent < |steps|
            invariant rows == old(rows) && sent <= |steps| && spool == spooled + queued
            invariant ok ==>
                        var e := Execute(facts, name, steps[sent..], net, sent);
                        Execute(before, name, steps, net, 0) == e.(queued := queued + e.queued)
            invariant !ok ==> Execute(before, name, steps, net, 0) == Execution(facts, false, sent, queued)
            decreases |steps| - sent, ok
          {
            assert steps[sent..][1..] == steps[sent + 1..];
            ghost var now := facts;
            ok := Send(steps[sent], net(sent));
            ghost var more := QueuedOf(steps[sent], net(sent));
            ExecuteStep(now, name, steps[sent..], net, sent, queued);
            queued := queued + more;
            sent := sent + 1;
          }
          if ok {
            assert steps[sent..] == [];
            assert queued + [] == queued;
            ok := Judge(id, Approved, net(sent));
          }
      }
    }

    /** `approve` or `reject`, of the listed ids or of all that wait; exit 2 is a command without ids. */
    method Decide(reject: bool, all: bool, listed: seq<int>, nets: nat -> Net) returns (exit: int)
      modifies this
      ensures var ids := if all then WaitingIds(old(rows), |old(rows)|) else listed;
              var (now, ok) := DecideAll(old(View()), name, reject, ids, nets);
              View() == now && exit == if ids == [] then 2 else if ok then 0 else 1
    {
      hide DecideOne, SendVerdict;
      var ids := if all then WaitingIds(rows, |rows|) else listed;
      if ids == [] {
        return 2;
      }
      exit := 0;
      for i := 0 to |ids|
        invariant exit == 0 || exit == 1
        invariant (View(), exit == 0) == DecideAll(old(View()), name, reject, ids[..i], nets)
      {
        assert ids[..i + 1][..i] == ids[..i];
        var ok;
        if reject {
          RejectIs(View(), name, ids[i], nets(i));
          ok := Judge(ids[i], Rejected, nets(i)(0));
        } else {
          ok := Approve(ids[i], nets(i));
        }
        if !ok {
          exit := 1;
        }
      }
      assert ids[..|ids|] == ids;
    }
  }

  lemma RejectIs(d: Desk, name: Naming, id: int, net: Net)
    ensures DecideOne(d, name, true, id, net) == SendVerdict(d, id, Rejected, net(0))
  {
  }

  lemma NoWritesOf(s: Store, name: Naming, step: Step, dr: Draining)
    requires DrainWrites(name, step, dr.failing) == []
    ensures Drained(s, name, QueuedStep(step), dr) == s
  {
    hide DrainWrites;
    DoOne(s, name, Put("", ""));
  }

  lemma ExecuteStep(s: Store, name: Naming, steps: seq<Step>, net: Net, n: nat, queued: seq<Entry>)
    requires steps != []
    ensures var (r, e) := (net(n), Execute(s, name, steps, net, n));
            var next := Handle(s, name, steps[0], r);
            var e' := Execute(next, name, steps[1..], net, n + 1);
            var more := queued + QueuedOf(steps[0], r);
            e.(queued := queued + e.queued)
            == if Good(name, steps[0], r) then e'.(queued := more + e'.queued) else Execution(next, false, n + 1, more)
  {
    hide Handle, Good, QueuedOf;
    var (r, e) := (net(n), Execute(s, name, steps, net, n));
    var e' := Execute(Handle(s, name, steps[0], r), name, steps[1..], net, n + 1);
    assert queued + (QueuedOf(steps[0], r) + e'.queued) == queued + QueuedOf(steps[0], r) + e'.queued;
  }

  lemma NoneLeft(keep: string -> bool)
    ensures Filter([], keep) == []
  {
  }

  lemma PutThen(s: Store, name: Naming, dataset: string, text: string, ws: seq<Write>, k: nat)
    requires k <= |ws|
    ensures DoAll(s, name, ([Put(dataset, text)] + ws)[..1 + k]) == DoAll(Remember(s, name, dataset, text), name, ws[..k])
  {
    assert ([Put(dataset, text)] + ws)[..1 + k] == [Put(dataset, text)] + ws[..k];
    DoConcat(s, name, [Put(dataset, text)], ws[..k]);
    DoOne(s, name, Put(dataset, text));
  }

  /** `list_pending`: the waiting rows' ids, in order, among the first `n` rows. */
  function WaitingIds(rows: seq<Proposal>, n: nat): (ids: seq<int>)
    requires n <= |rows|
    ensures forall id :: id in ids <==> 1 <= id <= n && rows[id - 1].status == Pending
    ensures forall i, j :: 0 <= i < j < |ids| ==> ids[i] < ids[j]
  {
    if n == 0 then []
    else
      var init := WaitingIds(rows, n - 1);
      assert forall i :: 0 <= i < |init| ==> init[i] in init;
      init + if rows[n - 1].status == Pending then [n] else []
  }
}
