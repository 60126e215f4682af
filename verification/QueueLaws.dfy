/** From the text a proposal was queued with to the facts its approval leaves. */
module QueueLaws {
  import opened Text
  import opened Lists
  import opened FactStore
  import opened Apply
  import opened Requests
  import opened Carrying
  import opened ApplyRuns
  import opened PlainRuns
  import opened SpoolMoves
  import opened Queue

  /** `add`, and then `approve` of the row it made. */
  ghost function QueueAndApprove(d: Desk, kind: string, dataset: string, text: Option<string>, targets: Option<string>, net: Net): seq<Command> {
    [Add(kind, dataset, text, targets), Decide(false, [|d.rows| + 1], n => net)]
  }

  /** A proposal with the same key waits already. */
  ghost predicate Duplicate(d: Desk, kind: string, dataset: string, targets: Option<string>) {
    Or(targets) != "" && exists p :: p in d.rows && Waiting(p, kind, dataset, Or(targets))
  }

  lemma TwoCommands(d: Desk, name: Naming, x: Command, y: Command)
    ensures History(d, name, [x, y]) == Perform(Perform(d, name, x), name, y)
  {
    hide Perform;
    assert [x][..0] == [];
    assert History(d, name, [x]) == Perform(d, name, x);
    assert [x, y][..1] == [x];
  }

  lemma ApproveAdded(d: Desk, name: Naming, kind: string, dataset: string, text: Option<string>, targets: Option<string>, net: Net)
    requires !Duplicate(d, kind, dataset, targets)
    ensures var p := Proposal(kind, dataset, text, targets, Pending);
            var w := Attempt(World(d.facts, p, d.spool), |d.rows| + 1, name, net);
            History(d, name, QueueAndApprove(d, kind, dataset, text, targets, net)) == Desk(w.store, d.rows + [w.row], w.spool)
  {
    hide PlanApply, Execute, DecideOne, DecideAll, Attempt, AddRow, History, Duplicate;
    var all := QueueAndApprove(d, kind, dataset, text, targets, net);
    var (p, id) := (Proposal(kind, dataset, text, targets, Pending), |d.rows| + 1);
    TwoCommands(d, name, all[0], all[1]);
    NotDuplicated(d, kind, dataset, text, targets);
    var queued := d.(rows := d.rows + [p]);
    assert Perform(d, name, all[0]) == queued;
    OneDecision(queued, name, id, all[1].nets);
    ApproveIsAttempt(queued, name, id, net);
    SetLast(d.rows, p, Attempt(World(d.facts, p, d.spool), id, name, net).row);
  }

  lemma SetLast(rows: seq<Proposal>, p: Proposal, q: Proposal)
    ensures (rows + [p])[|rows|] == p && (rows + [p])[|rows| := q] == rows + [q]
  {
  }

  lemma NotDuplicated(d: Desk, kind: string, dataset: string, text: Option<string>, targets: Option<string>)
    requires !Duplicate(d, kind, dataset, targets)
    ensures AddRow(d.rows, kind, dataset, text, targets).0 == d.rows + [Proposal(kind, dataset, text, targets, Pending)]
  {
  }

  lemma OneDecision(d: Desk, name: Naming, id: int, nets: nat -> Net)
    ensures DecideAll(d, name, false, [id], nets).0 == DecideOne(d, name, false, id, nets(0)).0
  {
    hide DecideOne;
    assert [id][..0] == [];
  }

  /** What the trimmed text's fact looks like afterwards: a fact that was there keeps its dataset and
      whether it is retired. */
  ghost predicate Filed(before: Store, after: Store, id: string, dataset: string, text: string, retired: bool) {
    && id in after && after[id].text == text
    && after[id].dataset == (if id in before then before[id].dataset else dataset)
    && (id in before && before[id].superseded.Some? ==> after[id].superseded == before[id].superseded)
    && ((id !in before || before[id].superseded == None) && !retired ==> after[id].superseded == None)
  }

  /** The proposal names this fact as one to retire. */
  ghost predicate Names(targets: Option<string>, x: string) {
    x in Pieces(Or(targets), ",")
  }

  /** An approval that went through carried its plan out in full, but for updates that errored in silence. */
  lemma ThroughIsOutcome(d: Desk, name: Naming, kind: string, dataset: string, text: Option<string>, targets: Option<string>, net: Net)
    requires !Duplicate(d, kind, dataset, targets)
    requires var now := History(d, name, QueueAndApprove(d, kind, dataset, text, targets, net));
             now.rows == d.rows + [Proposal(kind, dataset, text, targets, Approved)] && now.spool == d.spool
    ensures var p := Proposal(kind, dataset, text, targets, Pending);
            && (kind != "retire" ==> Trim(dataset) != "")
            && History(d, name, QueueAndApprove(d, kind, dataset, text, targets, net)).facts
               == Outcome(d.facts, name, Place(p), Parts(p), Alive(d.facts, p) - Missed(p, net), Reason(p, name, Place(p)))
  {
    hide PlanApply, Execute, Attempt, Pieces, Trim, History, QueueAndApprove, Outcome, Duplicate, Parts, Place, Alive, Missed, Reason;
    var p := Proposal(kind, dataset, text, targets, Pending);
    var (id, w) := (|d.rows| + 1, World(d.facts, p, d.spool));
    ApproveAdded(d, name, kind, dataset, text, targets, net);
    var after := Attempt(w, id, name, net);
    assert (d.rows + [after.row])[|d.rows|] == after.row;
    ApprovedIsApplicable(w, id, name, net);
    var k, gone := AttemptStops(w, p, id, name, net);
    assert Parts(p)[..|Parts(p)|] == Parts(p);
    if kind != "retire" {
      ServedDataset(w, p, id, name, net);
    }
  }

  /** Queued and approved with no request lost: a proposal of one text leaves that text, trimmed, as a
      fact of its dataset under its own id.  Unless the kind is capture or lesson, every live fact that it
      names is retired in favour of that id; no other fact changes. */
  lemma OneTextIsStored(d: Desk, name: Naming, kind: string, dataset: string, text: Option<string>, targets: Option<string>, net: Net)
    requires kind in {"capture", "lesson", "supersede", "tidy", "contradiction"} && !Duplicate(d, kind, dataset, targets)
    requires var now := History(d, name, QueueAndApprove(d, kind, dataset, text, targets, net));
             now.rows == d.rows + [Proposal(kind, dataset, text, targets, Approved)] && now.spool == d.spool
    ensures var now := History(d, name, QueueAndApprove(d, kind, dataset, text, targets, net)).facts;
            var id := name(Trim(dataset), Trim(Or(text)));
            var retires := kind != "capture" && kind != "lesson";
            && now.Keys == d.facts.Keys + {id}
            && Filed(d.facts, now, id, Trim(dataset), Trim(Or(text)), retires && Names(targets, id))
            && (forall x :: x in d.facts && x != id ==> now[x].text == d.facts[x].text && now[x].dataset == d.facts[x].dataset)
            && (forall x :: x in d.facts && Live(d.facts, x) ==>
                  now[x].superseded == if retires && Names(targets, x) then Some(id) else None)
            && (forall x :: x in d.facts && !Live(d.facts, x) ==> now[x].superseded == d.facts[x].superseded)
  {
    hide Pieces, Trim, History, QueueAndApprove, Outcome, Duplicate;
    var p := Proposal(kind, dataset, text, targets, Pending);
    ThroughIsOutcome(d, name, kind, dataset, text, targets, net);
    assert Alive(d.facts, p) - {} == Alive(d.facts, p);
    OneTextOutcome(d.facts, p, name, History(d, name, QueueAndApprove(d, kind, dataset, text, targets, net)).facts);
  }

  /** A dataset of blanks only is not approved without the spool. */
  lemma ServedDataset(w: World, p: Proposal, id: int, name: Naming, net: Net)
    requires w.row == p && Applicable(w.store, p) && p.kind != "retire"
    requires Attempt(w, id, name, net).spool == w.spool && Attempt(w, id, name, net).row != p
    ensures Trim(p.dataset) != ""
  {
    hide Attempt, Applicable, Trim;
    if Trim(p.dataset) == "" {
      BlanksAreRefused(w, p, id, name, net);
    }
  }

  lemma ApprovedIsApplicable(w: World, id: int, name: Naming, net: Net)
    requires w.row.status == Pending && Attempt(w, id, name, net).row.status == Approved
    ensures Applicable(w.store, w.row)
  {
    hide PlanApply, Execute;
  }

  lemma OneTextOutcome(s: Store, p: Proposal, name: Naming, now: Store)
    requires p.kind in {"capture", "lesson", "supersede", "tidy", "contradiction"} && Trim(p.dataset) != ""
    requires now == Outcome(s, name, Place(p), Parts(p), Alive(s, p), Reason(p, name, Place(p)))
    ensures var id := name(Trim(p.dataset), Trim(Or(p.text)));
            var retires := p.kind != "capture" && p.kind != "lesson";
            && now.Keys == s.Keys + {id}
            && Filed(s, now, id, Trim(p.dataset), Trim(Or(p.text)), retires && Names(p.targets, id))
            && (forall x :: x in s && x != id ==> now[x].text == s[x].text && now[x].dataset == s[x].dataset)
            && (forall x :: x in s && Live(s, x) ==> now[x].superseded == if retires && Names(p.targets, x) then Some(id) else None)
            && (forall x :: x in s && !Live(s, x) ==> now[x].superseded == s[x].superseded)
  {
    hide Trim, Pieces;
    var (ds, text) := (Trim(p.dataset), Trim(Or(p.text)));
    assert Parts(p) == [text];
    assert Ids(name, ds, [text]) == {name(ds, text)};
    OneLastText(name, ds, text);
  }

  lemma OneLastText(name: Naming, dataset: string, text: string)
    ensures forall id, before :: LastText(name, dataset, [text], id, before) == if id == name(dataset, text) then text else before
  {
    assert [text][..0] == [];
  }

  ghost predicate HasText(s: Store, id: string, text: string) {
    id in s && s[id].text == text
  }

  ghost predicate SameText(before: Store, after: Store, x: string)
    requires x in before
  {
    x in after && after[x].text == before[x].text && after[x].dataset == before[x].dataset
  }

  ghost predicate MarkedWith(after: Store, x: string, mark: Option<string>) {
    x in after && after[x].superseded == mark
  }

  lemma SplitOutcome(s: Store, p: Proposal, name: Naming, parts: seq<string>)
    requires p.kind == "split" && Parts(p) == parts && parts != [] && Trim(p.dataset) != ""
    ensures var now := Outcome(s, name, Trim(p.dataset), parts, Alive(s, p), name(Trim(p.dataset), parts[|parts| - 1]));
            SplitLeaves(s, now, name, Trim(p.dataset), parts, p.targets)
  {
    hide Trim, Pieces, Parts, LastText;
    var (ds, last) := (Trim(p.dataset), name(Trim(p.dataset), parts[|parts| - 1]));
    var now := Outcome(s, name, ds, parts, Alive(s, p), last);
    forall i | 0 <= i < |parts| && (forall j :: i < j < |parts| ==> name(ds, parts[j]) != name(ds, parts[i]))
      ensures HasText(now, name(ds, parts[i]), parts[i])
    {
      var id := name(ds, parts[i]);
      LastTextIs(name, ds, parts, i, if id in s then s[id].text else "");
      assert id in Ids(name, ds, parts);
    }
    forall x | x in s && x !in Ids(name, ds, parts) ensures SameText(s, now, x) {
      LastTextKeeps(name, ds, parts, x, s[x].text, s[x].text);
    }
    forall x | x in s && Live(s, x) ensures MarkedWith(now, x, if Names(p.targets, x) then Some(last) else None) {
    }
  }

  /** Each part stands under its id, unless a later part has the same one; other facts keep their text; and
      what was live is retired in favour of the last part exactly if it was named. */
  ghost predicate SplitLeaves(before: Store, after: Store, name: Naming, dataset: string, parts: seq<string>, targets: Option<string>)
    requires parts != []
  {
    && (forall i :: 0 <= i < |parts| && (forall j :: i < j < |parts| ==> name(dataset, parts[j]) != name(dataset, parts[i])) ==>
          HasText(after, name(dataset, parts[i]), parts[i]))
    && (forall x :: x in before && x !in Ids(name, dataset, parts) ==> SameText(before, after, x))
    && (forall x :: x in before && Live(before, x) ==>
          MarkedWith(after, x, if Names(targets, x) then Some(name(dataset, parts[|parts| - 1])) else None))
  }

  /** Queued and approved with no request lost: a split into parts that can be told apart in one row leaves
      each of them as a fact under its own id (or a later part that has the same id), retires every live
      fact that it names in favour of the last part, and leaves the other facts as they were. */
  lemma SplitIsStored(d: Desk, name: Naming, dataset: string, parts: seq<string>, targets: Option<string>, net: Net)
    requires |parts| >= 2 && (forall x :: x in parts ==> x != "" && Trim(x) == x) && Separable(parts, SPLIT_SEP)
    requires !Duplicate(d, "split", dataset, targets)
    requires var text := Some(Join(parts, SPLIT_SEP));
             var now := History(d, name, QueueAndApprove(d, "split", dataset, text, targets, net));
             now.rows == d.rows + [Proposal("split", dataset, text, targets, Approved)] && now.spool == d.spool
    ensures var now := History(d, name, QueueAndApprove(d, "split", dataset, Some(Join(parts, SPLIT_SEP)), targets, net)).facts;
            SplitLeaves(d.facts, now, name, Trim(dataset), parts, targets)
  {
    hide Pieces, Trim, History, QueueAndApprove, Outcome, Duplicate, Separable, Join, SplitLeaves, Alive;
    var p := Proposal("split", dataset, Some(Join(parts, SPLIT_SEP)), targets, Pending);
    SplitReadsBackIff(parts);
    ThroughIsOutcome(d, name, "split", dataset, Some(Join(parts, SPLIT_SEP)), targets, net);
    assert Alive(d.facts, p) - {} == Alive(d.facts, p);
    SplitOutcome(d.facts, p, name, parts);
  }

  /** Queued and approved with no request lost: a retirement marks every live fact that it names, but for
      those whose update errored, and touches nothing else. */
  lemma NamedAreRetired(d: Desk, name: Naming, dataset: string, text: Option<string>, targets: Option<string>, net: Net)
    requires !Duplicate(d, "retire", dataset, targets)
    requires var now := History(d, name, QueueAndApprove(d, "retire", dataset, text, targets, net));
             now.rows == d.rows + [Proposal("retire", dataset, text, targets, Approved)] && now.spool == d.spool
    ensures var now := History(d, name, QueueAndApprove(d, "retire", dataset, text, targets, net)).facts;
            && now.Keys == d.facts.Keys
            && forall x :: x in d.facts ==>
                 now[x] == if Live(d.facts, x) && Names(targets, x) && x !in net(0).failing
                           then d.facts[x].(superseded := Some("retired")) else d.facts[x]
  {
    hide Pieces, Trim, History, QueueAndApprove, Duplicate;
    var p := Proposal("retire", dataset, text, targets, Pending);
    ThroughIsOutcome(d, name, "retire", dataset, text, targets, net);
    assert Ids(name, Place(p), []) == {};
  }

  // ---- nothing goes wrong ----------------------------------------------------------------------

  /** Every request is answered and has room for `size` row writes, none of which errors. */
  ghost predicate Healthy(net: Net, size: nat) {
    forall n: nat :: net(n).answered && net(n).writes >= size && net(n).failing == {}
  }

  lemma {:induction false} HealthyExecution(s: Store, name: Naming, steps: seq<Step>, net: Net, n: nat, size: nat)
    requires Healthy(net, size) && forall step :: step in steps ==> !Refuses(step) && SentAtMost(name, step, net, size)
    ensures var e := Execute(s, name, steps, net, n); e.ok && e.queued == [] && e.requests == n + |steps|
    decreases |steps|
  {
    hide Handle, Refuses, Sent, SentAtMost;
    if steps != [] {
      assert steps[0] in steps && forall step :: step in steps[1..] ==> step in steps;
      HealthyRequest(name, steps[0], net, n, size);
      HealthyExecution(Handle(s, name, steps[0], net(n)), name, steps[1..], net, n + 1, size);
    }
  }

  ghost predicate SentAtMost(name: Naming, step: Step, net: Net, size: nat) {
    forall n: nat :: |Sent(name, step, net(n))| <= size
  }

  lemma HealthyRequest(name: Naming, step: Step, net: Net, n: nat, size: nat)
    requires Healthy(net, size) && !Refuses(step) && SentAtMost(name, step, net, size)
    ensures Accepted(name, step, net(n)) && QueuedOf(step, net(n)) == []
  {
    hide Sent, Refuses;
    assert |Sent(name, step, net(n))| <= size;
  }

  lemma SmallSteps(s: Store, p: Proposal, name: Naming, net: Net, step: Step)
    requires Applicable(s, p) && step in PlanApply(p, x => x in s).steps
    ensures SentAtMost(name, step, net, 1 + |Named(p)|)
    ensures p.kind == "retire" ==> !Refuses(step)
  {
    hide Named, Pieces, Trim, PlainStores;
    forall n: nat ensures |Sent(name, step, net(n))| <= 1 + |Named(p)| {
      hide Filter;
      SmallSent(name, step, net(n));
    }
  }

  lemma SmallSent(name: Naming, step: Step, r: Reach)
    ensures |Sent(name, step, r)| <= 1 + match step
                                        case StoreFact(_, _) => 0
                                        case StoreAndRetire(_, _, sources) => |sources|
                                        case RetireFacts(sources) => |sources|
  {
    hide Trim;
  }

  /** If nothing goes wrong, a proposal that can be applied and is neither blank nor for a dataset of blanks
      is approved in one attempt, and nothing is spooled. */
  lemma HealthyAttempt(w: World, p: Proposal, id: int, name: Naming, net: Net)
    requires w.row == p && Applicable(w.store, p) && Healthy(net, 1 + |Named(p)|)
    requires p.kind == "retire" || (Trim(p.dataset) != "" && !Blank(p))
    ensures var after := Attempt(w, id, name, net); after.row == p.(status := Approved) && after.spool == w.spool
  {
    hide Named, PlanApply, Execute, Refuses, Trim, Blank;
    PendingAtFirst(w.store, p);
    var steps := PlanApply(p, x => x in w.store).steps;
    if p.kind != "retire" {
      PlanIsSteps(p, w.store);
      StepsServed(p, w.store);
    }
    forall step | step in steps ensures !Refuses(step) && SentAtMost(name, step, net, 1 + |Named(p)|) {
      SmallSteps(w.store, p, name, net, step);
    }
    HealthyExecution(w.store, name, steps, net, 0, 1 + |Named(p)|);
    assert w.spool + [] == w.spool;
  }

  /** Queued and approved, such a proposal goes through. */
  lemma HealthyGoesThrough(d: Desk, name: Naming, kind: string, dataset: string, text: Option<string>, targets: Option<string>, net: Net)
    requires var p := Proposal(kind, dataset, text, targets, Pending);
             && !Duplicate(d, kind, dataset, targets) && Applicable(d.facts, p) && Healthy(net, 1 + |Named(p)|)
             && (kind == "retire" || (Trim(dataset) != "" && Trim(Or(text)) != ""))
    ensures var now := History(d, name, QueueAndApprove(d, kind, dataset, text, targets, net));
            now.rows == d.rows + [Proposal(kind, dataset, text, targets, Approved)] && now.spool == d.spool
  {
    hide Named, Attempt, Applicable, History, QueueAndApprove, Duplicate, Trim, Healthy;
    var p := Proposal(kind, dataset, text, targets, Pending);
    var w := World(d.facts, p, d.spool);
    ApproveAdded(d, name, kind, dataset, text, targets, net);
    assert Trim("") == "" by { TrimIsTrimmed(""); }
    HealthyAttempt(w, p, |d.rows| + 1, name, net);
  }

  /** And the command that approved it, or any other in one attempt, exits with 0. */
  lemma HealthyApprove(d: Desk, name: Naming, id: int, net: Net)
    requires Known(d.rows, id) && Applicable(d.facts, d.rows[id - 1]) && Healthy(net, 1 + |Named(d.rows[id - 1])|)
    requires var p := d.rows[id - 1]; p.kind == "retire" || (Trim(p.dataset) != "" && !Blank(p))
    ensures DecideOne(d, name, false, id, net).1
  {
    hide Named, PlanApply, Execute, Refuses, Trim, Blank;
    var p := d.rows[id - 1];
    var steps := PlanApply(p, x => x in d.facts).steps;
    if p.kind != "retire" {
      PlanIsSteps(p, d.facts);
      StepsServed(p, d.facts);
    }
    forall step | step in steps ensures !Refuses(step) && SentAtMost(name, step, net, 1 + |Named(p)|) {
      SmallSteps(d.facts, p, name, net, step);
    }
    HealthyExecution(d.facts, name, steps, net, 0, 1 + |Named(p)|);
  }

  /** So does one with the daemon away, for all but a plain retirement: everything is in the spool, and no
      fact and no row has changed. */
  lemma AwayApprove(d: Desk, name: Naming, id: int, net: Net)
    requires Known(d.rows, id) && Applicable(d.facts, d.rows[id - 1]) && d.rows[id - 1].kind != "retire"
    requires forall n: nat :: net(n) == AWAY
    ensures var p := d.rows[id - 1];
            Parts(p) != [] && DecideOne(d, name, false, id, net)
            == (d.(spool := d.spool + Entries(StepsFor(p, d.facts)) + [QueuedVerdict(id, Approved)]), true)
  {
    hide PlanApply, Execute, Applicable, Parts, StepsFor, Entries, EndStep;
    var p := d.rows[id - 1];
    PlanIsSteps(p, d.facts);
    StepsStore(p, d.facts);
    var steps := StepsFor(p, d.facts);
    AwayExecution(d.facts, name, steps, [], net, 0);
    NothingExecuted(d.facts, name, net, |steps|);
    assert steps + [] == steps && Entries(steps) + [] == Entries(steps);
    assert d.rows[id - 1 := p] == d.rows;
  }

  /** And `reject`, if every request is answered and written, or else spooled. */
  lemma {:induction false} HealthyReject(d: Desk, name: Naming, ids: seq<int>, nets: nat -> Net)
    requires forall i: nat :: var r := nets(i)(0); if r.answered then r.writes > 0 else r.spooled
    ensures DecideAll(d, name, true, ids, nets).1
  {
    if ids != [] {
      HealthyReject(d, name, ids[..|ids| - 1], nets);
    }
  }

  // ---- rejecting -------------------------------------------------------------------------------

  /** A rejection that is spooled, of one of these proposals. */
  ghost predicate Rejecting(ids: seq<int>, e: Entry) {
    e.QueuedVerdict? && e.id in ids && e.status == Rejected
  }

  /** `reject` stores nothing and retires nothing; the rows it changes are listed, and are rejected; and all
      it puts into the spool are rejections of listed proposals. */
  lemma {:induction false} RejectRejects(d: Desk, name: Naming, ids: seq<int>, nets: nat -> Net)
    ensures var now := DecideAll(d, name, true, ids, nets).0;
            && now.facts == d.facts && |now.rows| == |d.rows|
            && (forall i :: 0 <= i < |d.rows| && now.rows[i] != d.rows[i] ==>
                  i + 1 in ids && d.rows[i].status == Pending && now.rows[i] == d.rows[i].(status := Rejected))
            && |d.spool| <= |now.spool| && now.spool[..|d.spool|] == d.spool
            && (forall k :: |d.spool| <= k < |now.spool| ==> Rejecting(ids, now.spool[k]))
  {
    if ids != [] {
      var last := |ids| - 1;
      RejectRejects(d, name, ids[..last], nets);
      assert ids[last] in ids && forall id :: id in ids[..last] ==> id in ids;
    }
  }

  /** Exit code 0 from `reject`: every listed proposal that was waiting is rejected, or its rejection is in
      the spool. */
  lemma {:induction false} RejectedOrSpooled(d: Desk, name: Naming, ids: seq<int>, nets: nat -> Net)
    requires DecideAll(d, name, true, ids, nets).1
    ensures var now := DecideAll(d, name, true, ids, nets).0;
            forall id :: id in ids && Known(d.rows, id) && d.rows[id - 1].status == Pending ==>
              |now.rows| == |d.rows| && (now.rows[id - 1].status == Rejected || QueuedVerdict(id, Rejected) in now.spool)
  {
    if ids != [] {
      var last := |ids| - 1;
      RejectedOrSpooled(d, name, ids[..last], nets);
      RejectRejects(d, name, ids[..last], nets);
      assert forall id :: id in ids ==> id in ids[..last] || id == ids[last];
    }
  }

  /** `approve` changes no row that it does not list. */
  lemma {:induction false} OnlyListedChange(d: Desk, name: Naming, reject: bool, ids: seq<int>, nets: nat -> Net)
    ensures var now := DecideAll(d, name, reject, ids, nets).0;
            |now.rows| == |d.rows| && forall i :: 0 <= i < |d.rows| && i + 1 !in ids ==> now.rows[i] == d.rows[i]
  {
    hide DecideOne;
    if ids != [] {
      var last := |ids| - 1;
      OnlyListedChange(d, name, reject, ids[..last], nets);
      assert ids[last] in ids && forall id :: id in ids[..last] ==> id in ids;
      OneListedChanges(DecideAll(d, name, reject, ids[..last], nets).0, name, reject, ids[last], nets(last));
    }
  }

  lemma OneListedChanges(d: Desk, name: Naming, reject: bool, id: int, net: Net)
    ensures var now := DecideOne(d, name, reject, id, net).0;
            |now.rows| == |d.rows| && forall i :: 0 <= i < |d.rows| && i + 1 != id ==> now.rows[i] == d.rows[i]
  {
    hide PlanApply, Execute;
  }

  /** A verdict that is drained in full is the status its row gets, if that still waits; nothing else changes,
      and the entry is gone. */
  lemma DrainedVerdict(d: Desk, name: Naming, i: nat, dr: Draining)
    requires i < |d.spool| && d.spool[i].QueuedVerdict? && dr.finished && dr.writes > 0
    ensures var (now, id) := (DrainDesk(d, name, i, dr), d.spool[i].id);
            && now.facts == d.facts && now.spool == d.spool[..i] + d.spool[i + 1..] && |now.rows| == |d.rows|
            && forall k :: 0 <= k < |d.rows| ==>
                 now.rows[k] == if k + 1 == id && d.rows[k].status == Pending then d.rows[k].(status := d.spool[i].status) else d.rows[k]
  {
  }
}
