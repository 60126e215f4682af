/** Requests between the review command and the daemon.

    The daemon serves a request row by row.  When no reply comes, the client puts the same request into
    the spool, answers itself that all is well, and goes on; the daemon drains the spool later, in
    whatever order the directory lists it. */
module Requests {
  import opened Text
  import opened Lists
  import opened FactStore
  import opened Apply

  /** How one request fared: the row writes made before anything failed, whether a reply came, and, if
      none did, whether the client could write the spool file.  `failing` are the rows whose update
      errors: a plain retirement passes over these and goes on. */
  datatype Reach = Reach(writes: nat, answered: bool, failing: set<string>, spooled: bool)

  /** How the requests of one attempt fare, in order. */
  type Net = nat -> Reach

  /** A spool file. */
  datatype Entry = QueuedStep(step: Step) | QueuedVerdict(id: int, status: Status)

  // ---- one request ------------------------------------------------------------------------

  /** The daemon stores no empty fact, cannot place one in a blank dataset, and retires no empty list. */
  predicate Refuses(step: Step) {
    match step
    case StoreFact(dataset, text) => Trim(text) == "" || Trim(dataset) == ""
    case StoreAndRetire(dataset, text, _) => Trim(text) == "" || Trim(dataset) == ""
    case RetireFacts(sources) => sources == []
  }

  /** The row writes a request comes to. */
  function Sent(name: Naming, step: Step, r: Reach): seq<Write> {
    match step
    case RetireFacts(sources) => Withdrawals(Filter(sources, id => id !in r.failing), "retired")
    case _ => Writes(name, step)
  }

  function Done(name: Naming, step: Step, r: Reach): (k: nat)
    ensures k <= |Sent(name, step, r)|
  {
    if Refuses(step) then 0 else Min(r.writes, |Sent(name, step, r)|)
  }

  function Handle(s: Store, name: Naming, step: Step, r: Reach): Store {
    DoAll(s, name, Sent(name, step, r)[..Done(name, step, r)])
  }

  /** The daemon's reply is good only when every write was made. */
  predicate Accepted(name: Naming, step: Step, r: Reach) {
    !Refuses(step) && r.answered && Done(name, step, r) == |Sent(name, step, r)|
  }

  /** Without a reply the client spools the request; a plain retirement has no spooled form. */
  predicate Queues(step: Step, r: Reach) {
    !r.answered && r.spooled && !step.RetireFacts?
  }

  /** What the client takes for success. */
  predicate Good(name: Naming, step: Step, r: Reach) {
    Accepted(name, step, r) || Queues(step, r)
  }

  function QueuedOf(step: Step, r: Reach): seq<Entry> {
    if Queues(step, r) then [QueuedStep(step)] else []
  }

  // ---- one attempt ------------------------------------------------------------------------

  datatype Execution = Execution(store: Store, ok: bool, requests: nat, queued: seq<Entry>)

  /** Sends the steps in order and stops at the first that did not succeed. */
  function Execute(s: Store, name: Naming, steps: seq<Step>, net: Net, n: nat): Execution
    decreases |steps|
  {
    if steps == [] then Execution(s, true, n, [])
    else
      var (next, queued) := (Handle(s, name, steps[0], net(n)), QueuedOf(steps[0], net(n)));
      if Good(name, steps[0], net(n)) then
        var e := Execute(next, name, steps[1..], net, n + 1);
        e.(queued := queued + e.queued)
      else Execution(next, false, n + 1, queued)
  }

  /** `set_status`: only a pending row changes. */
  function Resolve(p: Proposal, status: Status, r: Reach): Proposal {
    if p.status == Pending && r.writes > 0 then p.(status := status) else p
  }

  function VerdictOf(id: int, status: Status, r: Reach): seq<Entry> {
    if !r.answered && r.spooled then [QueuedVerdict(id, status)] else []
  }

  /** What one proposal's runs change: the fact table, the proposal's row and the spool. */
  datatype World = World(store: Store, row: Proposal, spool: seq<Entry>)

  function Judge(w: World, id: int, status: Status, r: Reach): World {
    w.(row := Resolve(w.row, status, r), spool := w.spool + VerdictOf(id, status, r))
  }

  /** One `approve` of proposal `id`. */
  function Attempt(w: World, id: int, name: Naming, net: Net): World {
    match PlanApply(w.row, fact => fact in w.store)
    case Refused(why) => if RefusalRetires(why) then Judge(w, id, Rejected, net(0)) else w
    case Steps(steps) =>
      var e := Execute(w.store, name, steps, net, 0);
      var after := World(e.store, w.row, w.spool + e.queued);
      if e.ok then Judge(after, id, Approved, net(e.requests)) else after
  }

  // ---- draining ---------------------------------------------------------------------------

  /** How the drain of one entry fares: the row writes made, whether it got as far as removing the
      file, and the rows whose retirement errors, which it ignores. */
  datatype Draining = Draining(writes: nat, finished: bool, failing: set<string>)

  /** The row writes of a spooled request; none if the drain quarantines it.  The drain takes the
      dataset as it stands and refuses a replacement without sources. */
  function DrainWrites(name: Naming, step: Step, failing: set<string>): seq<Write> {
    if step.RetireFacts? || Trim(step.text) == "" || step.dataset == "" || (step.StoreAndRetire? && step.sources == []) then []
    else
      var sources := if step.StoreAndRetire? then Filter(step.sources, id => id !in failing) else [];
      [Put(step.dataset, Trim(step.text))] + Withdrawals(sources, name(step.dataset, Trim(step.text)))
  }

  function Drained(s: Store, name: Naming, e: Entry, d: Draining): Store {
    match e
    case QueuedStep(step) =>
      var ws := DrainWrites(name, step, d.failing);
      DoAll(s, name, ws[..Min(d.writes, |ws|)])
    case QueuedVerdict(_, _) => s
  }

  /** The file goes once everything in it was done, or is set aside if nothing can be. */
  predicate Removes(name: Naming, e: Entry, d: Draining) {
    d.finished && d.writes >= match e
                              case QueuedStep(step) => |DrainWrites(name, step, d.failing)|
                              case QueuedVerdict(_, _) => 1
  }

  function Without(spool: seq<Entry>, i: nat): seq<Entry>
    requires i < |spool|
  {
    spool[..i] + spool[i + 1..]
  }

  lemma InWithout(spool: seq<Entry>, i: nat)
    requires i < |spool|
    ensures forall e :: e in spool ==> e == spool[i] || e in Without(spool, i)
    ensures forall e :: e in Without(spool, i) ==> e in spool
  {
  }

  /** The drain takes the `i`-th entry; any order is possible. */
  function Drain(w: World, name: Naming, i: nat, d: Draining): World {
    if i >= |w.spool| then w
    else
      var e := w.spool[i];
      World(Drained(w.store, name, e, d),
            if e.QueuedVerdict? then Resolve(w.row, e.status, Reach(d.writes, true, {}, false)) else w.row,
            if Removes(name, e, d) then Without(w.spool, i) else w.spool)
  }

  // ---- runs -------------------------------------------------------------------------------

  datatype Move = Try(net: Net) | Drains(i: nat, d: Draining)

  function Moved(w: World, id: int, name: Naming, m: Move): World {
    match m
    case Try(net) => Attempt(w, id, name, net)
    case Drains(i, d) => Drain(w, name, i, d)
  }

  /** Any number of approvals and drains, in any order. */
  function Run(w: World, id: int, name: Naming, moves: seq<Move>): World {
    if moves == [] then w else Moved(Run(w, id, name, moves[..|moves| - 1]), id, name, moves[|moves| - 1])
  }

  lemma RunSnoc(w: World, id: int, name: Naming, moves: seq<Move>, m: Move)
    ensures Run(w, id, name, moves + [m]) == Moved(Run(w, id, name, moves), id, name, m)
  {
    assert (moves + [m])[..|moves|] == moves;
  }

  lemma RunOne(w: World, id: int, name: Naming, m: Move)
    ensures Run(w, id, name, [m]) == Moved(w, id, name, m)
  {
    RunSnoc(w, id, name, [], m);
    assert [] + [m] == [m];
  }

  lemma RunTwo(w: World, id: int, name: Naming, m: Move, m': Move)
    ensures Run(w, id, name, [m, m']) == Moved(Moved(w, id, name, m), id, name, m')
  {
    RunOne(w, id, name, m);
    RunSnoc(w, id, name, [m], m');
    assert [m] + [m'] == [m, m'];
  }
}
