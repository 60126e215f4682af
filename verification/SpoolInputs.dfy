/** Proposals at which an approval goes wrong: spooled, retried, or carried out as it should be. */
module SpoolInputs {
  import opened Text
  import opened Lists
  import opened FactStore
  import opened Apply
  import opened Requests
  import opened Carrying
  import opened ApplyRuns
  import opened PlainRuns
  import opened SpoolMoves
  import opened SpoolRuns

  /** A naming that tells texts apart: the text itself. */
  function ByText(): Naming {
    (dataset: string, text: string) => text
  }

  ghost predicate Tidy(parts: seq<string>) {
    forall x :: x in parts ==> x != "" && Trimmed(x)
  }

  lemma JoinedPieces(parts: seq<string>, sep: string)
    requires parts != [] && sep != [] && Tidy(parts) && forall x :: x in parts ==> sep[0] !in x
    ensures Pieces(Join(parts, sep), sep) == parts
    ensures Trim(Join(parts, sep)) == Join(parts, sep)
  {
    hide Find, NonEmpty, TrimAll, Split, Join, Trim;
    forall x | x in parts ensures Trim(x) == x && Find(x, sep) == None && Text.Clean(x, sep) {
      TrimIsTrimmed(x);
      CleanWithoutFirst(x, sep);
    }
    SplitJoin(parts, sep);
    TidyKeeps(parts);
    JoinIsTrimmed(parts, sep);
  }

  /** A split of a live fact into "one" and "two". */
  function OneTwo(targets: Option<string>): Proposal {
    Proposal("split", "ds", Some(Join(["one", "two"], SPLIT_SEP)), targets, Pending)
  }

  lemma OneTwoParts(targets: Option<string>)
    ensures var p := OneTwo(targets);
            Parts(p) == ["one", "two"] && !Blank(p) && Place(p) == "ds" && Trim("ds") == "ds" && Retires(p) && p.kind != "retire"
  {
    hide Pieces, Join, Trim;
    TrimIsTrimmed("ds");
    TrimIsTrimmed("one" + SPLIT_SEP + "two");
    JoinedPieces(["one", "two"], SPLIT_SEP);
    OneTwoText();
  }

  lemma OneTwoText()
    ensures Join(["one", "two"], SPLIT_SEP) == "one" + SPLIT_SEP + "two"
  {
    JoinCons("one", ["two"], SPLIT_SEP);
    JoinOne("two", SPLIT_SEP);
    assert ["one"] + ["two"] == ["one", "two"];
  }

  lemma NamesOne(p: Proposal, name: string)
    requires p.targets == Some(name) && name != "" && Trimmed(name) && ',' !in name
    ensures Named(p) == [name]
  {
    hide Pieces;
    JoinOne(name, ",");
    JoinedPieces([name], ",");
  }

  lemma IdsByText(dataset: string, parts: seq<string>)
    ensures Ids(ByText(), dataset, parts) == set x | x in parts
  {
    forall x | x in parts ensures ByText()(dataset, x) == x {
    }
    forall x | x in parts ensures x in Ids(ByText(), dataset, parts) {
      assert ByText()(dataset, x) in Ids(ByText(), dataset, parts);
    }
  }

  lemma SplitApplies(s: Store, p: Proposal)
    requires p.kind == "split" && p.status == Pending && |Parts(p)| >= 2 && (Named(p) != [] ==> exists x :: x in Named(p) && x in s)
    ensures Applicable(s, p)
  {
    hide Named, Pieces, Trim;
    RefusedIff(p, x => x in s);
  }

  const ORIG: Store := map["orig" := Fact("ds", "one and two", None)]

  lemma SplitOfOrig()
    ensures var p := OneTwo(Some("orig")); Applicable(ORIG, p) && Named(p) == ["orig"] && Alive(ORIG, p) == {"orig"}
  {
    hide Parts, Named, Blank, Place, Retires, Join;
    var p := OneTwo(Some("orig"));
    OneTwoParts(Some("orig"));
    NamesOne(p, "orig");
    assert "orig" in Named(p) && "orig" in ORIG;
    SplitApplies(ORIG, p);
  }

  lemma RetiredForTwo()
    ensures var now := Outcome(ORIG, ByText(), "ds", ["two"], {"orig"}, "two");
            Live(ORIG, "orig") && "orig" in now && !Live(now, "orig") && "two" in now && "one" !in now
  {
    hide LastText;
    IdsByText("ds", ["two"]);
  }

  /** The store of the client's first request is dropped and spooled, the second is served: the original
      is retired while "one" is in no row. */
  lemma SourceRetiredBeforeItsPart()
    ensures var p := OneTwo(Some("orig"));
            && Applicable(ORIG, p) && Parts(p) != []
            && var now := Run(World(ORIG, p, []), 1, ByText(), [LastOnly(ORIG, p, ByText())]).store;
               Live(ORIG, "orig") && "orig" in now && !Live(now, "orig") && "two" in now && "one" !in now
  {
    hide Parts, Named, Blank, Place, Retires, Run, LastOnly, Outcome, Applicable, Alive, ORIG, Join, Live, Trim;
    var p := OneTwo(Some("orig"));
    OneTwoParts(Some("orig"));
    SplitOfOrig();
    LastOnlyRun(ORIG, p, 1, ByText());
    RetiredForTwo();
    assert Reason(p, ByText(), "ds") == "two";
  }

  lemma OnlyOneStored(reason: string)
    ensures var now := Outcome(map[], ByText(), "ds", ["one"], {}, reason); "one" in now && "two" !in now
  {
    hide LastText;
    IdsByText("ds", ["one"]);
  }

  /** A split that names no source: its last part is spooled, the drain sets it aside, and the proposal
      is approved without it. */
  lemma LastPartLost() returns (moves: seq<Move>)
    ensures var p := OneTwo(None);
            && Applicable(map[], p)
            && var w := Run(World(map[], p, []), 1, ByText(), moves);
               Emptied(w) && "one" in w.store && "two" !in w.store
  {
    hide Parts, Named, Blank, Place, Retires, Run, Outcome, Applicable, Join, Trim, Alive, Reason;
    var p := OneTwo(None);
    OneTwoParts(None);
    NothingNamed(p);
    SplitApplies(map[], p);
    moves := AwayRun(map[], p, 1, ByText(), World(map[], p, []), AWAY);
    NothingAlive(map[], p);
    assert Drainable(p) == ["one"];
    OnlyOneStored(Reason(p, ByText(), p.dataset));
  }

  lemma NothingNamed(p: Proposal)
    requires p.targets == None
    ensures Named(p) == []
  {
    assert Find("", ",") == None;
    assert Split("", ",") == [""];
    assert TrimAll([""]) == [""];
    assert [""][..0] == [];
  }

  /** A merge into "new" that names "old" and, before it exists, "new": the daemon stores the merge and
      fails before it retires anything, and approving again retires the merge itself. */
  lemma RetryRetiresItsOwnPart()
    ensures var (s, p) := (map["old" := Fact("ds", "old", None)], Proposal("tidy", "ds", Some("new"), Some("old,new"), Pending));
            && Applicable(s, p)
            && var now := Run(World(s, p, []), 1, ByText(), [Try(ServedTo(0))]).store;
               Live(now, "new") && Live(Complete(s, p, ByText()), "new") && !Live(Complete(now, p, ByText()), "new")
  {
    hide Named, Run, Trim, Complete, Parts, Retires, Blank, Place, Ids, Attempt, ServedTo, DoAll;
    var (s, p) := (map["old" := Fact("ds", "old", None)], Proposal("tidy", "ds", Some("new"), Some("old,new"), Pending));
    var name := ByText();
    assert "old" + "," + "new" == "old,new";
    MergeShape(p, "old", "new");
    assert "old" in Named(p) && "new" in Named(p);
    assert Applicable(s, p) by { RefusedIff(p, x => x in s); }
    RunOne(World(s, p, []), 1, name, Try(ServedTo(0)));
    TryMoves(World(s, p, []), 1, name, ServedTo(0));
    ServedAttempt(World(s, p, []), p, 1, name, 0);
    assert Parts(p)[..1] == ["new"];
    OnePut("ds", "new");
    DoOne(s, name, Put("ds", "new"));
    var now := Remember(s, name, "ds", "new");
    IdsByText("ds", ["new"]);
    assert "new" in Ids(name, "ds", ["new"]);
    LiveAfterwards(s, p, name, "new");
    LiveAfterwards(now, p, name, "new");
  }

  lemma MergeShape(p: Proposal, first: string, second: string)
    requires p == Proposal("tidy", "ds", Some("new"), Some(first + "," + second), Pending) && Tidy([first, second])
    requires ',' !in first && ',' !in second
    ensures Named(p) == [first, second] && Parts(p) == ["new"] && !Blank(p) && Place(p) == "ds" && Trim("ds") == "ds"
    ensures Retires(p) && Trim("new") == "new"
  {
    hide Pieces, Trim, Join;
    TrimIsTrimmed("ds");
    TrimIsTrimmed("new");
    JoinedPieces([first, second], ",");
    JoinCons(first, [second], ",");
    JoinOne(second, ",");
    assert [first] + [second] == [first, second] && first + "," + second == first + ("," + second);
  }

  /** A merge whose text has the id of one of its own live sources: carried out from beginning to end, it
      retires itself, and the approved text leaves recall. */
  lemma MergeRetiresItself()
    ensures var s: Store := map["new" := Fact("ds", "new", None), "old" := Fact("ds", "old", None)];
            var p := Proposal("tidy", "ds", Some("new"), Some("new,old"), Pending);
            Applicable(s, p) && Parts(p) == ["new"] && Live(s, "new") && !Live(Complete(s, p, ByText()), "new")
  {
    hide Named, Trim, Complete, Parts, Retires, Blank, Place;
    var s: Store := map["new" := Fact("ds", "new", None), "old" := Fact("ds", "old", None)];
    var p := Proposal("tidy", "ds", Some("new"), Some("new,old"), Pending);
    assert "new" + "," + "old" == "new,old";
    MergeShape(p, "new", "old");
    assert "old" in Named(p) && "new" in Named(p);
    assert Applicable(s, p) by { RefusedIff(p, x => x in s); }
    LiveAfterwards(s, p, ByText(), "new");
  }

  // ---- datasets with blanks around them --------------------------------------------------------

  /** A request that the daemon serves comes to the same writes in the spool exactly if its dataset has no
      blanks around it and it is not a replacement without sources. */
  lemma DrainedAsServedIff(name: Naming, step: Step)
    requires !step.RetireFacts? && !Refuses(step)
    ensures DrainWrites(name, step, {}) == Writes(name, step)
       <==> step.dataset == Trim(step.dataset) && (step.StoreAndRetire? ==> step.sources != [])
  {
    hide Trim;
    NoneFails(SourcesOf(step), {});
    TrimIsTrimmed(Trim(step.text));
    assert Trim("") == "" by { TrimIsTrimmed(""); }
    var (drained, served) := (DrainWrites(name, step, {}), Writes(name, step));
    assert drained == served ==> drained[0] == served[0];
    if step.StoreFact? {
      assert Withdrawals([], name(step.dataset, Trim(step.text))) == [];
    }
  }

  /** A request that the daemon refuses is written by the drain exactly if it has a text, and a dataset of
      blanks only, and is not a replacement without sources. */
  lemma DrainedThoughRefusedIff(name: Naming, step: Step)
    requires !step.RetireFacts? && Refuses(step)
    ensures DrainWrites(name, step, {}) != []
       <==> Trim(step.text) != "" && step.dataset != "" && Trim(step.dataset) == "" && (step.StoreAndRetire? ==> step.sources != [])
  {
    hide Trim;
  }

  function Capture(dataset: string): Proposal {
    Proposal("capture", dataset, Some("x"), None, Pending)
  }

  /** A dataset with a blank before it, approved with the daemon away: the fact ends up in " ds", where one
      uninterrupted run files it in "ds". */
  lemma UntrimmedDatasetStrays() returns (moves: seq<Move>)
    ensures var p := Capture(" ds");
            && Applicable(map[], p) && "x" in Complete(map[], p, ByText()) && Complete(map[], p, ByText())["x"].dataset == "ds"
            && var w := Run(World(map[], p, []), 1, ByText(), moves);
               Emptied(w) && "x" in w.store && w.store["x"].dataset == " ds"
  {
    hide Run, Complete, Applicable, AfterDraining, Trim;
    var p := Capture(" ds");
    CaptureOf(map[], " ds");
    assert Trim(" ds") == "ds" by { TrimOne(); }
    moves := AwayRun(map[], p, 1, ByText(), World(map[], p, []), AWAY);
    CapturedIn(" ds");
  }

  /** A dataset of one blank: no attempt that spools nothing changes anything, and with the daemon away the
      fact is stored and approved. */
  lemma BlankDatasetIsFiled() returns (moves: seq<Move>)
    ensures var p := Capture(" ");
            && Applicable(map[], p)
            && (forall net :: Unspooled(Try(net)) ==> Attempt(World(map[], p, []), 1, ByText(), net) == World(map[], p, []))
            && var w := Run(World(map[], p, []), 1, ByText(), moves);
               Emptied(w) && "x" in w.store && w.store["x"].dataset == " "
  {
    hide Run, Complete, Applicable, AfterDraining, Trim, Attempt, Unspooled;
    var p := Capture(" ");
    CaptureOf(map[], " ");
    assert Trim(" ") == "" by { TrimBlank(); }
    forall net | Unspooled(Try(net)) ensures Attempt(World(map[], p, []), 1, ByText(), net) == World(map[], p, []) {
      TryQueuesNothing(World(map[], p, []), 1, ByText(), net);
      BlanksAreRefused(World(map[], p, []), p, 1, ByText(), net);
    }
    moves := AwayRun(map[], p, 1, ByText(), World(map[], p, []), AWAY);
    CapturedIn(" ");
  }

  lemma CaptureOf(s: Store, dataset: string)
    requires dataset != ""
    ensures var p := Capture(dataset); Applicable(s, p) && !Blank(p) && Parts(p) == ["x"] && !Retires(p) && p.kind != "retire"
  {
    hide Trim, Named;
    TrimIsTrimmed("x");
    NothingNamed(Capture(dataset));
    RefusedIff(Capture(dataset), x => x in s);
  }

  lemma CapturedIn(dataset: string)
    requires dataset != ""
    ensures var (p, name) := (Capture(dataset), ByText());
            && "x" in AfterDraining(map[], p, name) && AfterDraining(map[], p, name)["x"].dataset == dataset
            && "x" in Complete(map[], p, name) && Complete(map[], p, name)["x"].dataset == Place(p)
  {
    hide Trim, LastText, Parts, Alive, Reason, Place, Lossy;
    CaptureOf(map[], dataset);
    assert Drainable(Capture(dataset)) == ["x"] by { CaptureDrains(dataset); }
    IdsByText(dataset, ["x"]);
    IdsByText(Place(Capture(dataset)), ["x"]);
  }

  lemma CaptureDrains(dataset: string)
    ensures !Lossy(Capture(dataset))
  {
    hide Named;
  }

  lemma TrimOne()
    ensures Trim(" ds") == "ds"
  {
    assert " ds"[1..] == "ds";
    assert TrimStart("ds") == "ds";
    assert TrimEnd("ds") == "ds";
  }

  lemma TrimBlank()
    ensures Trim(" ") == ""
  {
    assert " "[1..] == "";
  }
}
