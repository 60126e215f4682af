/** Which proposals come out the same however their requests are spooled, reordered and retried: exact
    conditions, each with the run that breaks it. */
module SpoolRuns {
  import opened Text
  import opened Lists
  import opened FactStore
  import opened Apply
  import opened Requests
  import opened Carrying
  import opened Blanks
  import opened ApplyRuns
  import opened SpoolMoves

  // ---- before a source is retired ---------------------------------------------------------------

  /** The drain takes the verdict first. */
  ghost function VerdictFirst(p: Proposal): seq<Move> {
    [Try(Silent(|Parts(p)|, AWAY)), Drains(|Parts(p)|, Draining(1, true, {}))]
  }

  /** An approval can be recorded before any part is stored. */
  lemma ApprovalCanComeFirst(s: Store, p: Proposal, id: int, name: Naming)
    requires Applicable(s, p) && p.kind != "retire"
    ensures var w := Run(World(s, p, []), id, name, VerdictFirst(p)); w.row.status == Approved && w.store == s
  {
    hide Applicable, Parts, Attempt, Entries, StepsFor, EndStep;
    PendingAtFirst(s, p);
    AwayAttempt(World(s, p, []), p, id, name, AWAY);
    StepsStore(p, s);
    EntriesAre(StepsFor(p, s));
    var m := VerdictFirst(p);
    RunTwo(World(s, p, []), id, name, m[0], m[1]);
    assert [] + Entries(StepsFor(p, s)) == Entries(StepsFor(p, s));
  }

  /** A source is retired only once every part is in the table. */
  ghost predicate StoredFirst(s: Store, p: Proposal, name: Naming, now: Store) {
    (exists x :: Live(s, x) && !Live(now, x)) ==> forall part :: part in Parts(p) ==> InRow(now, p, name, part)
  }

  /** At any moment of any run it fails exactly when some live source was retired and some part waits in
      the spool without being in the table. */
  lemma PartsStoredFirstUnlessQueued(s: Store, p: Proposal, id: int, name: Naming, moves: seq<Move>)
    requires Applicable(s, p)
    ensures var w := Run(World(s, p, []), id, name, moves);
            !StoredFirst(s, p, name, w.store)
            <==> && (exists x :: Live(s, x) && !Live(w.store, x))
                 && exists part :: part in Parts(p) && PartQueued(p, w.spool, part) && !InRow(w.store, p, name, part)
  {
    hide Applicable, Parts, Run, Named, PartQueued, InRow, AllIds;
    var w := Run(World(s, p, []), id, name, moves);
    if x :| Live(s, x) && !Live(w.store, x) {
      NothingLostMidway(s, p, id, name, moves, x);
    }
  }

  ghost predicate IsRowOf(id: string, p: Proposal, name: Naming, part: string) {
    id == name(Place(p), part) || id == name(p.dataset, part)
  }

  /** The part is stored from the start, or by whatever stores the last one. */
  ghost predicate SafeAhead(s: Store, p: Proposal, name: Naming, part: string) {
    || InRow(s, p, name, part)
    || (IsRowOf(name(Place(p), Last(p)), p, name, part) && IsRowOf(name(p.dataset, Last(p)), p, name, part))
  }

  /** That holds in every run exactly if there is nothing live to retire, or every part but the last is
      in the table from the start (or shares the last one's row). */
  lemma PartsStoredFirstIff(s: Store, p: Proposal, id: int, name: Naming)
    requires Applicable(s, p)
    ensures (forall moves :: StoredFirst(s, p, name, Run(World(s, p, []), id, name, moves).store))
       <==> || Blank(p)
            || (forall x :: x in Alive(s, p) ==> !Live(s, x))
            || (forall part :: part in Parts(p) ==> SafeAhead(s, p, name, part))
  {
    hide Applicable, Blank, Parts, Run, StoredFirst, Alive, SafeAhead;
    if x, part :| !Blank(p) && x in Alive(s, p) && Live(s, x) && part in Parts(p) && !SafeAhead(s, p, name, part) {
      RetirementHasNoParts(p);
      var moves := LastFirst(s, p, id, name, x, part);
      assert !StoredFirst(s, p, name, Run(World(s, p, []), id, name, moves).store);
    } else {
      forall moves ensures StoredFirst(s, p, name, Run(World(s, p, []), id, name, moves).store) {
        StoredFirstHolds(s, p, id, name, moves);
      }
    }
  }

  lemma RetirementHasNoParts(p: Proposal)
    ensures p.kind == "retire" ==> Parts(p) == []
  {
  }

  /** The last part is stored, the one way or the other, before all others. */
  lemma LastFirst(s: Store, p: Proposal, id: int, name: Naming, x: string, part: string) returns (moves: seq<Move>)
    requires Applicable(s, p) && !Blank(p) && p.kind != "retire" && part in Parts(p)
    requires x in Alive(s, p) && Live(s, x) && !SafeAhead(s, p, name, part)
    ensures !StoredFirst(s, p, name, Run(World(s, p, []), id, name, moves).store)
  {
    hide Applicable, Blank, Parts, Run, StoredFirst, Alive, Outcome, Place, Reason, IsRowOf, InRow, Trim, LastOnly;
    PlaceIsTrimmed(p);
    var drained := !IsRowOf(name(p.dataset, Last(p)), p, name, part);
    if drained {
      moves := LastDrained(s, p, id, name, x);
      LastBreaks(s, p, name, x, part, p.dataset);
    } else {
      assert Trim(p.dataset) != "";
      moves := [LastOnly(s, p, name)];
      LastOnlyRun(s, p, id, name);
      LastBreaks(s, p, name, x, part, Place(p));
    }
  }

  /** The last entry alone is drained. */
  lemma LastDrained(s: Store, p: Proposal, id: int, name: Naming, x: string) returns (moves: seq<Move>)
    requires Applicable(s, p) && !Blank(p) && p.kind != "retire" && Parts(p) != [] && x in Alive(s, p)
    ensures Run(World(s, p, []), id, name, moves).store
         == Outcome(s, name, p.dataset, [Last(p)], Alive(s, p), Reason(p, name, p.dataset))
  {
    hide Applicable, Blank, Parts, Run, Outcome, Alive, StepsFor, DrainWrites, Named, DoAll, Puts, Withdrawals, Sources, Lossy, EndStep;
    NothingAlive(s, p);
    assert !Lossy(p) by { AliveIsNotLossy(s, p, x); }
    var (sources, reason) := (Sources(p, y => y in s), Reason(p, name, p.dataset));
    StepsStore(p, s);
    EndDrains(s, p, name);
    var ws := [Put(p.dataset, Last(p))] + Withdrawals(sources, reason);
    moves := OneDrained(s, p, id, name, |Parts(p)| - 1, |ws|);
    assert ws[..|ws|] == ws;
    OnePut(p.dataset, Last(p));
    BatchOutcome(s, name, p.dataset, [Last(p)], sources, reason);
    AliveAreSources(s, p);
  }

  lemma AliveIsNotLossy(s: Store, p: Proposal, x: string)
    requires x in Alive(s, p)
    ensures Retires(p) && !Lossy(p)
  {
    hide Named;
  }

  lemma LastBreaks(s: Store, p: Proposal, name: Naming, x: string, part: string, dataset: string)
    requires x in Alive(s, p) && Live(s, x) && part in Parts(p) && !InRow(s, p, name, part)
    requires !IsRowOf(name(dataset, Last(p)), p, name, part)
    ensures !StoredFirst(s, p, name, Outcome(s, name, dataset, [Last(p)], Alive(s, p), Reason(p, name, dataset)))
  {
    hide Parts, Alive, Reason, Last, LastText, Place;
    AliveIsStored(s, p);
    var now := Outcome(s, name, dataset, [Last(p)], Alive(s, p), Reason(p, name, dataset));
    assert Live(s, x) && !Live(now, x);
    assert Ids(name, dataset, [Last(p)]) == {name(dataset, Last(p))};
    assert !InRow(now, p, name, part);
  }

  lemma StoredFirstHolds(s: Store, p: Proposal, id: int, name: Naming, moves: seq<Move>)
    requires Applicable(s, p)
    requires || Blank(p)
             || (forall x :: x in Alive(s, p) ==> !Live(s, x))
             || (forall part :: part in Parts(p) ==> SafeAhead(s, p, name, part))
    ensures StoredFirst(s, p, name, Run(World(s, p, []), id, name, moves).store)
  {
    hide Applicable, Blank, Parts, Run, Named, PartsKept, Entered, Retires, Reason, Committed, OnlyEmpty, Drainable, AllIds, Lands, Place, SafeAhead, InRow;
    if Blank(p) {
      BlankWritesNothing(s, p, id, name, moves);
    } else {
      var now := Run(World(s, p, []), id, name, moves).store;
      var made, gone := RunKeeps(s, p, id, name, moves);
      if x :| Live(s, x) && !Live(now, x) {
        assert RowBetween(s, now, BatchOf(p, name), made, gone, x);
        assert x in Alive(s, p);
        forall part | part in Parts(p) ensures InRow(now, p, name, part) {
          AheadOfLast(s, p, name, now, made, part);
        }
      }
    }
  }

  lemma AheadOfLast(s: Store, p: Proposal, name: Naming, now: Store, made: set<string>, part: string)
    requires SafeAhead(s, p, name, part) && Has(BatchOf(p, name), made, Last(p)) && made <= now.Keys && s.Keys <= now.Keys
    ensures InRow(now, p, name, part)
  {
    hide Parts, Place, Reason, Last, Drainable;
  }

  // ---- retries -----------------------------------------------------------------------------------

  /** What a proposal needs for every retry to converge: no missing source is one of its parts, a drained
      part changes only what storing the parts overwrites, and a source is marked alike either way. */
  ghost predicate RetrySafe(s: Store, p: Proposal, name: Naming) {
    var b := BatchOf(p, name);
    || Blank(p)
    || (&& !(Retires(p) && exists x :: x in Named(p) && x !in s && x in AllIds(b))
        && (b.dataset == b.other || forall x :: x in b.drained ==> Overwritten(s, b, x))
        && (Reason(p, name, Place(p)) == Reason(p, name, p.dataset) || forall x :: x in Alive(s, p) ==> !Live(s, x)))
  }

  ghost predicate Overwritten(s: Store, b: Batch, part: string) {
    var id := b.name(b.other, part);
    id in s && (id in Ids(b.name, b.dataset, b.parts) || s[id].text == part)
  }

  /** Every retry after any run converges exactly for these. */
  lemma EveryRetryConvergesIff(s: Store, p: Proposal, id: int, name: Naming)
    requires Applicable(s, p)
    ensures (forall moves :: Complete(Run(World(s, p, []), id, name, moves).store, p, name) == Complete(s, p, name))
       <==> RetrySafe(s, p, name)
  {
    hide Run, Applicable, Complete, RetrySafe, AllIds;
    if RetrySafe(s, p, name) {
      forall moves ensures Complete(Run(World(s, p, []), id, name, moves).store, p, name) == Complete(s, p, name) {
        SafeConverges(s, p, id, name, moves);
      }
    } else {
      var moves := UnsafeRetry(s, p, id, name);
      assert Complete(Run(World(s, p, []), id, name, moves).store, p, name) != Complete(s, p, name);
    }
  }

  lemma SafeConverges(s: Store, p: Proposal, id: int, name: Naming, moves: seq<Move>)
    requires Applicable(s, p) && RetrySafe(s, p, name)
    ensures Complete(Run(World(s, p, []), id, name, moves).store, p, name) == Complete(s, p, name)
  {
    hide Run, Applicable, Complete, Blank, Named, Parts, Reason, Ids, RowBetween, PartsKept, Entered, Committed, Place, Drainable, OnlyEmpty,
         Unstrayed, Overwritten, AllIds, Retires;
    RetryConverges(s, p, id, name, moves);
    if Blank(p) {
      BlankWritesNothing(s, p, id, name, moves);
    } else {
      var (b, now) := (BatchOf(p, name), Run(World(s, p, []), id, name, moves).store);
      var made, gone := RunKeeps(s, p, id, name, moves);
      assert !SourceAppeared(s, p, now);
      assert forall x :: x in gone ==> x in Alive(s, p);
      if b.dataset != b.other {
        SafeStraysNot(s, now, b, made, gone, Reason(p, name, Place(p)));
      }
    }
  }

  lemma SafeStraysNot(s: Store, now: Store, b: Batch, made: set<string>, gone: set<string>, reason: string)
    requires Between(s, now, b, made, gone) && (forall x :: x in b.drained ==> Overwritten(s, b, x)) && gone <= s.Keys
    requires (forall r :: r in b.reasons ==> r == reason) || forall id :: id in gone ==> !Live(s, id)
    ensures Unstrayed(s, now, b, reason)
  {
    hide AllIds;
    forall id | id in now
      ensures id !in s ==> id in Ids(b.name, b.dataset, b.parts) && now[id].dataset == b.dataset
      ensures id in s && id !in Ids(b.name, b.dataset, b.parts) ==> now[id].text == s[id].text
      ensures now[id].superseded == (if id in s then s[id].superseded else None) || now[id].superseded == Some(reason)
    {
      assert RowBetween(s, now, b, made, gone, id);
    }
  }

  lemma RetirementIsSafe(s: Store, p: Proposal, name: Naming)
    ensures !Blank(p) && (p.kind == "retire" || Parts(p) == []) ==> RetrySafe(s, p, name) && SpoolSafe(s, p, name)
  {
    hide Named, Place, Blank, Pieces, Trim, NothingToDo;
    RetirementHasNoParts(p);
    if Parts(p) == [] {
      NoPartsNoWrites(p, name);
    }
  }

  lemma NoPartsNoWrites(p: Proposal, name: Naming)
    requires Parts(p) == []
    ensures Drainable(p) == [] && AllIds(BatchOf(p, name)) == {}
  {
    hide Parts, Place;
  }

  lemma UnsafeRetry(s: Store, p: Proposal, id: int, name: Naming) returns (moves: seq<Move>)
    requires Applicable(s, p) && !RetrySafe(s, p, name)
    ensures Complete(Run(World(s, p, []), id, name, moves).store, p, name) != Complete(s, p, name)
  {
    hide Run, Applicable, Complete, Blank, Named, Parts, Reason, Place, Drainable, Overwritten, Retires, Outcome, Unstrayed;
    RetirementIsSafe(s, p, name);
    var b := BatchOf(p, name);
    if Retires(p) && exists x :: x in Named(p) && x !in s && x in AllIds(b) {
      var x :| x in Named(p) && x !in s && x in AllIds(b);
      moves := MakeAppear(s, p, id, name, x);
      RetryConverges(s, p, id, name, moves);
    } else if x :| b.dataset != b.other && x in b.drained && !Overwritten(s, b, x) {
      moves := PartDrained(s, p, id, name, x);
      RetryConverges(s, p, id, name, moves);
      DrainStrays(s, b, x, Reason(p, name, Place(p)));
    } else {
      var x :| x in Alive(s, p) && Live(s, x);
      moves := LastDrained(s, p, id, name, x);
      RetryConverges(s, p, id, name, moves);
      MarkStrays(s, p, name, x);
    }
  }

  /** The part alone is drained, and its entry no further. */
  lemma PartDrained(s: Store, p: Proposal, id: int, name: Naming, part: string) returns (moves: seq<Move>)
    requires Applicable(s, p) && !Blank(p) && p.kind != "retire" && part in Drainable(p) && Parts(p) != []
    ensures Run(World(s, p, []), id, name, moves).store == Remember(s, name, p.dataset, part)
  {
    hide Applicable, Blank, Parts, Run, StepsFor, DrainWrites, DoAll, Withdrawals, Drainable;
    var i := DrainedBy(s, p, name, part);
    moves := OneDrained(s, p, id, name, i, 1);
    var ws := DrainWrites(name, StepsFor(p, s)[i], {});
    assert ws[..1] == [Put(p.dataset, part)];
    DoOne(s, name, Put(p.dataset, part));
  }

  lemma DrainStrays(s: Store, b: Batch, part: string, reason: string)
    requires b.dataset != b.other && !Overwritten(s, b, part)
    ensures !Unstrayed(s, Remember(s, b.name, b.other, part), b, reason)
  {
    hide Ids;
    assert b.name(b.other, part) in Remember(s, b.name, b.other, part);
  }

  lemma MarkStrays(s: Store, p: Proposal, name: Naming, x: string)
    requires x in Alive(s, p) && Live(s, x) && Reason(p, name, Place(p)) != Reason(p, name, p.dataset)
    ensures !Unstrayed(s, Outcome(s, name, p.dataset, [Last(p)], Alive(s, p), Reason(p, name, p.dataset)), BatchOf(p, name), Reason(p, name, Place(p)))
  {
    hide Reason, Place, Last, Alive, LastText, Ids;
    AliveIsStored(s, p);
    assert x in Outcome(s, name, p.dataset, [Last(p)], Alive(s, p), Reason(p, name, p.dataset));
  }

  /** A missing source that has the id of a part comes into being. */
  lemma MakeAppear(s: Store, p: Proposal, id: int, name: Naming, x: string) returns (moves: seq<Move>)
    requires Applicable(s, p) && !Blank(p) && p.kind != "retire" && Parts(p) != [] && Named(p) != [] && Retires(p)
    requires x in AllIds(BatchOf(p, name))
    ensures x in Run(World(s, p, []), id, name, moves).store
  {
    hide Applicable, Blank, Parts, Run, Named, Place, Trim, Puts, DoAll, Drainable, Reason, Lossy, Attempt;
    PlaceIsTrimmed(p);
    DrainableAreParts(p);
    assert !Lossy(p) by { NamedIsNotLossy(p); }
    if x in Ids(name, p.dataset, Parts(p)) {
      var part :| part in Parts(p) && name(p.dataset, part) == x;
      moves := PartDrained(s, p, id, name, part);
    } else {
      var part :| part in Parts(p) && name(Place(p), part) == x;
      var i :| 0 <= i < |Parts(p)| && Parts(p)[i] == part;
      assert Trim(p.dataset) != "";
      moves := [Try(ServedTo(i))];
      RunOne(World(s, p, []), id, name, Try(ServedTo(i)));
      TryMoves(World(s, p, []), id, name, ServedTo(i));
      ServedAttempt(World(s, p, []), p, id, name, i);
      LastPutStands(s, name, Place(p), Parts(p), i);
    }
  }

  lemma NamedIsNotLossy(p: Proposal)
    requires Named(p) != []
    ensures !Lossy(p)
  {
    hide Named;
  }

  // ---- emptied spools ------------------------------------------------------------------------------

  /** A run that ends with the proposal approved and the spool empty. */
  ghost predicate Emptied(w: World) {
    w.row.status == Approved && w.spool == []
  }

  /** Every emptied run leaves the store of one uninterrupted run, exactly for the proposals that are
      safe to spool. */
  lemma EveryEmptiedSpoolIff(s: Store, p: Proposal, id: int, name: Naming)
    requires Applicable(s, p)
    ensures (forall moves :: (forall m :: m in moves ==> Heard(p, m)) && Emptied(Run(World(s, p, []), id, name, moves))
                             ==> Run(World(s, p, []), id, name, moves).store == Complete(s, p, name))
       <==> SpoolSafe(s, p, name)
  {
    hide Run, Applicable, SpoolSafe, Complete, Heard, Emptied;
    if SpoolSafe(s, p, name) {
      forall moves | (forall m :: m in moves ==> Heard(p, m)) && Emptied(Run(World(s, p, []), id, name, moves))
        ensures Run(World(s, p, []), id, name, moves).store == Complete(s, p, name)
      {
        EmptiedIs(Run(World(s, p, []), id, name, moves));
        EmptiedSpoolIsComplete(s, p, id, name, moves);
      }
    } else {
      var moves := UnsafeRun(s, p, id, name);
      assert Emptied(Run(World(s, p, []), id, name, moves));
    }
  }

  lemma EmptiedIs(w: World)
    ensures Emptied(w) <==> w.row.status == Approved && w.spool == []
  {
  }

  /** A blank proposal approved with the daemon away ends up approved, with nothing stored and nothing
      left in the spool. */
  lemma BlankIsApproved(s: Store, p: Proposal, id: int, name: Naming) returns (moves: seq<Move>)
    requires Blank(p) && Applicable(s, p)
    ensures Quiet(p, moves) && Emptied(Run(World(s, p, []), id, name, moves)) && Run(World(s, p, []), id, name, moves).store == s
  {
    hide Applicable, Run, Heard, AfterDraining;
    moves := AwayRun(s, p, id, name, World(s, p, []), AWAY);
  }

  lemma UnsafeRun(s: Store, p: Proposal, id: int, name: Naming) returns (moves: seq<Move>)
    requires Applicable(s, p) && !SpoolSafe(s, p, name)
    ensures (forall m :: m in moves ==> Heard(p, m))
    ensures var w := Run(World(s, p, []), id, name, moves); Emptied(w) && w.store != Complete(s, p, name)
  {
    hide Run, Applicable, Complete, Blank, Heard, NothingToDo, AfterDraining, RetrySafe, Emptied;
    RetirementIsSafe(s, p, name);
    if Blank(p) {
      moves := BlankIsApproved(s, p, id, name);
      NothingToDoIff(s, p, name);
    } else if AfterDraining(s, p, name) != Complete(s, p, name) {
      moves := AwayRun(s, p, id, name, World(s, p, []), AWAY);
      EmptiedIs(Run(World(s, p, []), id, name, moves));
    } else {
      moves := UnsafeThough(s, p, id, name);
    }
  }

  /** Unsafe, although draining a whole approval in order comes to the same. */
  lemma UnsafeThough(s: Store, p: Proposal, id: int, name: Naming) returns (moves: seq<Move>)
    requires Applicable(s, p) && !Blank(p) && p.kind != "retire" && Parts(p) != [] && !SpoolSafe(s, p, name)
    requires AfterDraining(s, p, name) == Complete(s, p, name)
    ensures (forall m :: m in moves ==> Heard(p, m))
    ensures var w := Run(World(s, p, []), id, name, moves); Emptied(w) && w.store != Complete(s, p, name)
  {
    hide Run, Applicable, Complete, Blank, Named, Parts, Reason, Place, Drainable, Retires, Heard, NothingToDo, AfterDraining, Emptied, Lossy,
         Holds, OneTextPerRow, EitherWay, Alive, AllIds;
    var b := BatchOf(p, name);
    AlikeStoresLast(s, p, name);
    SamePlace(s, b);
    if Place(p) != p.dataset {
      AlikeElsewhere(s, p, name);
    }
    if Retires(p) && exists x :: x in Named(p) && x !in s && x in AllIds(b) {
      var x :| x in Named(p) && x !in s && x in AllIds(b);
      moves := AwayTwice(s, p, id, name);
      TwiceRetires(s, p, name, x);
      EmptiedIs(Run(World(s, p, []), id, name, moves));
    } else if !OneTextPerRow(b) {
      moves := ClashRun(s, p, id, name);
    } else {
      var x := OddPart(s, p, name);
      moves := LastOf(s, p, id, name, x);
    }
  }

  lemma SamePlace(s: Store, b: Batch)
    ensures b.dataset == b.other ==> EitherWay(s, b)
  {
  }

  /** A part that the spool stores last stands in the end. */
  lemma LastOf(s: Store, p: Proposal, id: int, name: Naming, part: string) returns (moves: seq<Move>)
    requires Applicable(s, p) && !Blank(p) && p.kind != "retire" && Parts(p) != [] && part in Drainable(p)
    requires var (key, done) := (name(p.dataset, part), Complete(s, p, name)); key in done ==> done[key].text != part
    ensures (forall m :: m in moves ==> Heard(p, m))
    ensures var w := Run(World(s, p, []), id, name, moves); Emptied(w) && w.store != Complete(s, p, name)
  {
    hide Run, Applicable, Complete, Blank, Parts, Drainable, Heard, StepsFor, DrainWrites, DoAll, Withdrawals;
    var i := DrainedBy(s, p, name, part);
    var before;
    moves, before := DrainedLast(s, p, id, name, i);
    PutStands(before, name, p.dataset, part, SourcesOf(StepsFor(p, s)[i]), name(p.dataset, part));
  }

  /** Of two texts with one id, the one that is not left standing is stored last. */
  lemma ClashRun(s: Store, p: Proposal, id: int, name: Naming) returns (moves: seq<Move>)
    requires Applicable(s, p) && !Blank(p) && p.kind != "retire" && Parts(p) != [] && !OneTextPerRow(BatchOf(p, name))
    ensures (forall m :: m in moves ==> Heard(p, m))
    ensures var w := Run(World(s, p, []), id, name, moves); Emptied(w) && w.store != Complete(s, p, name)
  {
    hide Run, Applicable, Complete, Blank, Parts, Drainable, Heard, Place, Trim, DoAll, Puts, Reason;
    var part, dataset := Loser(s, p, name);
    LoserIsDrained(s, p, name, part, dataset);
    if dataset == p.dataset && part in Drainable(p) {
      moves := LastOf(s, p, id, name, part);
    } else {
      PlaceIsTrimmed(p);
      var i :| 0 <= i < |Parts(p)| && Parts(p)[i] == part;
      var before;
      moves, before := ServedLast(s, p, id, name, i);
      LastPutStands(before, name, Place(p), Parts(p), i);
    }
  }

  lemma Loser(s: Store, p: Proposal, name: Naming) returns (part: string, dataset: string)
    requires !OneTextPerRow(BatchOf(p, name))
    ensures Goes(BatchOf(p, name), dataset, part)
    ensures var (key, done) := (name(dataset, part), Complete(s, p, name)); key in done ==> done[key].text != part
  {
    hide Complete, Parts, Drainable, Place, Reason;
    var b := BatchOf(p, name);
    var x, y, d, e :| Goes(b, d, x) && Goes(b, e, y) && name(d, x) == name(e, y) && x != y;
    var (key, done) := (name(d, x), Complete(s, p, name));
    if key in done && done[key].text == x {
      part, dataset := y, e;
    } else {
      part, dataset := x, d;
    }
  }

  /** The last part with an id is not the one overwritten. */
  lemma LoserIsDrained(s: Store, p: Proposal, name: Naming, part: string, dataset: string)
    requires Goes(BatchOf(p, name), dataset, part)
    requires var (key, done) := (name(dataset, part), Complete(s, p, name)); key in done ==> done[key].text != part
    ensures Place(p) == p.dataset ==> part in Drainable(p)
    ensures dataset == Place(p) || (dataset == p.dataset && part in Drainable(p))
    ensures part in Parts(p)
  {
    hide Parts, Place, Reason, Alive, LastText, Lossy;
    DrainableAreParts(p);
    if dataset == Place(p) && part in Parts(p) {
      var (i, parts) := (|Parts(p)| - 1, Parts(p));
      var key := name(dataset, parts[i]);
      LastTextIs(name, dataset, parts, i, if key in s then s[key].text else "");
      assert name(dataset, part) in Complete(s, p, name);
    }
  }

  /** If draining in order comes to the same, the drain lost nothing. */
  lemma AlikeStoresLast(s: Store, p: Proposal, name: Naming)
    requires AfterDraining(s, p, name) == Complete(s, p, name) && Parts(p) != []
    ensures Lossy(p) ==> Holds(s, name, Place(p), Last(p)) || Last(p) in Drainable(p)
  {
    hide Parts, Place, Reason, Alive, LastText, Named;
    var (parts, drained, key) := (Parts(p), Drainable(p), name(Place(p), Last(p)));
    var before := if key in s then s[key].text else "";
    LastTextIs(name, Place(p), parts, |parts| - 1, before);
    assert key in Complete(s, p, name) && Complete(s, p, name)[key].text == Last(p);
    LastTextIsPart(name, p.dataset, drained, key, before);
    LastTextKeeps(name, p.dataset, drained, key, before, before);
  }

  /** And if it files the parts elsewhere, every row was there before. */
  lemma AlikeElsewhere(s: Store, p: Proposal, name: Naming)
    requires AfterDraining(s, p, name) == Complete(s, p, name) && Place(p) != p.dataset
    ensures AllIds(BatchOf(p, name)) <= s.Keys
    ensures Reason(p, name, Place(p)) == Reason(p, name, p.dataset) || forall x :: x in Alive(s, p) ==> !Live(s, x)
  {
    hide Parts, Place, Reason, Alive, LastText, Named, Drainable, Ids;
    AliveIsStored(s, p);
    var (x, y) := (AfterDraining(s, p, name), Complete(s, p, name));
    forall id | id in AllIds(BatchOf(p, name)) ensures id in s {
      assert id in x || id in y;
    }
    forall id | id in Alive(s, p) && Live(s, id) ensures Reason(p, name, Place(p)) == Reason(p, name, p.dataset) {
      assert x[id].superseded == y[id].superseded;
    }
  }

  lemma TwiceRetires(s: Store, p: Proposal, name: Naming, x: string)
    requires AfterDraining(s, p, name) == Complete(s, p, name) && Place(p) == p.dataset && Retires(p)
    requires x in Named(p) && x !in s && x in AllIds(BatchOf(p, name))
    ensures AfterDraining(AfterDraining(s, p, name), p, name) != Complete(s, p, name)
  {
    hide Parts, Place, Reason, LastText, Named;
    DrainableAreParts(p);
    var done := Complete(s, p, name);
    assert x in Ids(name, Place(p), Parts(p));
    LiveAfterwards(s, p, name, x);
    assert AfterDraining(done, p, name) == Complete(done, p, name);
    LiveAfterwards(done, p, name, x);
  }

  /** A part for which the way it is stored does make a difference. */
  lemma OddPart(s: Store, p: Proposal, name: Naming) returns (part: string)
    requires var b := BatchOf(p, name); OneTextPerRow(b) && !EitherWay(s, b) && AllIds(b) <= s.Keys
    requires AfterDraining(s, p, name) == Complete(s, p, name)
    ensures part in Drainable(p)
    ensures var (key, done) := (name(p.dataset, part), Complete(s, p, name)); key in done ==> done[key].text != part
  {
    hide Parts, Place, Reason, Alive, Complete, AfterDraining, Drainable, AllIds, OneTextPerRow;
    var b := BatchOf(p, name);
    part :| part in b.drained && !((name(b.dataset, part) == name(b.other, part) && name(b.dataset, part) in s)
                                   || (Holds(s, name, b.dataset, part) && Holds(s, name, b.other, part)));
    var (key, done) := (name(p.dataset, part), Complete(s, p, name));
    if key in done && done[key].text == part {
      NotOdd(s, p, name, part);
    }
  }

  lemma NotOdd(s: Store, p: Proposal, name: Naming, part: string)
    requires var b := BatchOf(p, name); OneTextPerRow(b) && AllIds(b) <= s.Keys
    requires AfterDraining(s, p, name) == Complete(s, p, name) && part in Drainable(p)
    requires var (key, done) := (name(p.dataset, part), Complete(s, p, name)); key in done && done[key].text == part
    ensures name(Place(p), part) in s
    ensures name(Place(p), part) == name(p.dataset, part) || (Holds(s, name, Place(p), part) && Holds(s, name, p.dataset, part))
  {
    hide Parts, Place, Reason, Alive, LastText, Lossy, Drainable;
    DrainableAreParts(p);
    var (b, near, far) := (BatchOf(p, name), name(Place(p), part), name(p.dataset, part));
    assert Goes(b, b.dataset, part) && Goes(b, b.other, part);
    assert near in AllIds(b) && far in AllIds(b);
    if near != far {
      var (x, y) := (AfterDraining(s, p, name), Complete(s, p, name));
      assert x[near] == y[near];
      LastTextIsPart(name, b.dataset, b.parts, far, s[far].text);
      LastTextKeeps(name, b.dataset, b.parts, far, s[far].text, "");
      LastTextIsPart(name, b.dataset, b.parts, near, s[near].text);
      LastTextIsPart(name, b.other, b.drained, near, s[near].text);
      LastTextKeeps(name, b.other, b.drained, near, s[near].text, "");
      assert near in Ids(name, b.dataset, b.parts);
      var t := LastText(name, b.dataset, b.parts, near, s[near].text);
      assert Goes(b, b.dataset, t);
      var u := LastText(name, b.other, b.drained, near, s[near].text);
      assert near in Ids(name, b.other, b.drained) ==> Goes(b, b.other, u);
    }
  }
}
