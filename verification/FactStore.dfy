/** The fact table as a map, its row updates, and what a batch of them comes to. */
module FactStore {
  import opened Text

  datatype Fact = Fact(dataset: string, text: string, superseded: Option<string>)

  type Store = map<string, Fact>

  /** The content-addressed id of a text in a dataset. */
  type Naming = (string, string) -> string

  predicate Live(s: Store, id: string) {
    id in s && s[id].superseded == None
  }

  /** `remember`: a known fact keeps its dataset and stays retired if it was; only its text changes. */
  function Remember(s: Store, name: Naming, dataset: string, text: string): Store {
    var id := name(dataset, text);
    s[id := if id in s then s[id].(text := text) else Fact(dataset, text, None)]
  }

  /** `supersede`: only a live fact is retired, so the first reason given stays. */
  function Supersede(s: Store, source: string, reason: string): Store {
    if Live(s, source) then s[source := s[source].(superseded := Some(reason))] else s
  }

  // ---- batches ----------------------------------------------------------------------------

  datatype Write = Put(dataset: string, text: string) | Withdraw(source: string, reason: string)

  function Do(s: Store, name: Naming, w: Write): Store {
    match w
    case Put(dataset, text) => Remember(s, name, dataset, text)
    case Withdraw(source, reason) => Supersede(s, source, reason)
  }

  function DoAll(s: Store, name: Naming, ws: seq<Write>): Store {
    if ws == [] then s else Do(DoAll(s, name, ws[..|ws| - 1]), name, ws[|ws| - 1])
  }

  lemma DoSnoc(s: Store, name: Naming, ws: seq<Write>, w: Write)
    ensures DoAll(s, name, ws + [w]) == Do(DoAll(s, name, ws), name, w)
  {
    assert (ws + [w])[..|ws|] == ws;
  }

  lemma {:induction false} DoConcat(s: Store, name: Naming, x: seq<Write>, y: seq<Write>)
    ensures DoAll(s, name, x + y) == DoAll(DoAll(s, name, x), name, y)
  {
    hide Do;
    if y == [] {
      assert x + y == x;
    } else {
      var (init, last) := (y[..|y| - 1], y[|y| - 1]);
      DoConcat(s, name, x, init);
      assert x + y == (x + init) + [last];
      DoSnoc(s, name, x + init, last);
    }
  }

  function Puts(dataset: string, parts: seq<string>): (ws: seq<Write>)
    ensures |ws| == |parts| && forall i :: 0 <= i < |parts| ==> ws[i] == Put(dataset, parts[i])
  {
    seq(|parts|, i requires 0 <= i < |parts| => Put(dataset, parts[i]))
  }

  function Withdrawals(olds: seq<string>, reason: string): (ws: seq<Write>)
    ensures |ws| == |olds| && forall i :: 0 <= i < |olds| ==> ws[i] == Withdraw(olds[i], reason)
  {
    seq(|olds|, i requires 0 <= i < |olds| => Withdraw(olds[i], reason))
  }

  // ---- what a batch comes to --------------------------------------------------------------

  ghost function Ids(name: Naming, dataset: string, parts: seq<string>): set<string> {
    set p | p in parts :: name(dataset, p)
  }

  /** The text the last part with this id leaves. */
  ghost function LastText(name: Naming, dataset: string, parts: seq<string>, id: string, before: string): string {
    if parts == [] then before
    else if name(dataset, parts[|parts| - 1]) == id then parts[|parts| - 1]
    else LastText(name, dataset, parts[..|parts| - 1], id, before)
  }

  ghost function Mark(was: Option<string>, gone: bool, reason: string): Option<string> {
    if was == None && gone then Some(reason) else was
  }

  /** The store with `parts` stored and then the live facts of `gone` retired in favour of `reason`. */
  ghost function Outcome(s: Store, name: Naming, dataset: string, parts: seq<string>, gone: set<string>, reason: string): Store {
    map id | id in s.Keys + Ids(name, dataset, parts) ::
      Fact(if id in s then s[id].dataset else dataset,
           LastText(name, dataset, parts, id, if id in s then s[id].text else ""),
           Mark(if id in s then s[id].superseded else None, id in gone, reason))
  }

  lemma IdsSnoc(name: Naming, dataset: string, parts: seq<string>, p: string)
    ensures Ids(name, dataset, parts + [p]) == Ids(name, dataset, parts) + {name(dataset, p)}
  {
  }

  lemma LastTextSnoc(name: Naming, dataset: string, parts: seq<string>, p: string, id: string, before: string)
    ensures LastText(name, dataset, parts + [p], id, before)
         == if name(dataset, p) == id then p else LastText(name, dataset, parts, id, before)
  {
    assert (parts + [p])[..|parts|] == parts;
  }

  lemma {:induction false} LastTextKeeps(name: Naming, dataset: string, parts: seq<string>, id: string, x: string, y: string)
    ensures id in Ids(name, dataset, parts) ==> LastText(name, dataset, parts, id, x) == LastText(name, dataset, parts, id, y)
    ensures id !in Ids(name, dataset, parts) ==> LastText(name, dataset, parts, id, x) == x
  {
    if parts != [] {
      var (init, last) := (parts[..|parts| - 1], parts[|parts| - 1]);
      assert parts == init + [last];
      IdsSnoc(name, dataset, init, last);
      LastTextKeeps(name, dataset, init, id, x, y);
    }
  }

  lemma {:induction false} LastTextIs(name: Naming, dataset: string, parts: seq<string>, i: nat, before: string)
    requires i < |parts| && forall j :: i < j < |parts| ==> name(dataset, parts[j]) != name(dataset, parts[i])
    ensures LastText(name, dataset, parts, name(dataset, parts[i]), before) == parts[i]
  {
    if i < |parts| - 1 {
      LastTextIs(name, dataset, parts[..|parts| - 1], i, before);
    }
  }

  lemma PutOutcome(s: Store, name: Naming, dataset: string, parts: seq<string>, p: string, reason: string)
    ensures Remember(Outcome(s, name, dataset, parts, {}, reason), name, dataset, p) == Outcome(s, name, dataset, parts + [p], {}, reason)
  {
    hide Ids, LastText;
    IdsSnoc(name, dataset, parts, p);
    var (x, y) := (Remember(Outcome(s, name, dataset, parts, {}, reason), name, dataset, p), Outcome(s, name, dataset, parts + [p], {}, reason));
    assert x.Keys == y.Keys;
    forall id | id in x.Keys ensures x[id] == y[id] {
      LastTextSnoc(name, dataset, parts, p, id, if id in s then s[id].text else "");
    }
  }

  lemma {:induction false} PutsOutcome(s: Store, name: Naming, dataset: string, parts: seq<string>, reason: string)
    ensures DoAll(s, name, Puts(dataset, parts)) == Outcome(s, name, dataset, parts, {}, reason)
  {
    hide Outcome, Remember;
    if parts == [] {
      NothingDone(s, name, dataset, reason);
    } else {
      var (init, last) := (parts[..|parts| - 1], parts[|parts| - 1]);
      PutsOutcome(s, name, dataset, init, reason);
      PutOutcome(s, name, dataset, init, last, reason);
      assert parts == init + [last];
      assert Puts(dataset, parts) == Puts(dataset, init) + [Put(dataset, last)];
      DoSnoc(s, name, Puts(dataset, init), Put(dataset, last));
    }
  }

  lemma NothingDone(s: Store, name: Naming, dataset: string, reason: string)
    ensures Outcome(s, name, dataset, [], {}, reason) == s
  {
    assert Ids(name, dataset, []) == {};
  }

  lemma WithdrawOutcome(s: Store, name: Naming, dataset: string, parts: seq<string>, gone: set<string>, reason: string, source: string)
    ensures Supersede(Outcome(s, name, dataset, parts, gone, reason), source, reason) == Outcome(s, name, dataset, parts, gone + {source}, reason)
  {
    hide Ids, LastText;
  }

  ghost function Set(olds: seq<string>): set<string> {
    set o | o in olds
  }

  lemma SetSnoc(olds: seq<string>, o: string)
    ensures Set(olds + [o]) == Set(olds) + {o}
  {
  }

  /** A batch that stores parts and then retires sources, in closed form. */
  lemma {:induction false} BatchOutcome(s: Store, name: Naming, dataset: string, parts: seq<string>, olds: seq<string>, reason: string)
    ensures DoAll(s, name, Puts(dataset, parts) + Withdrawals(olds, reason)) == Outcome(s, name, dataset, parts, Set(olds), reason)
  {
    hide Outcome, Supersede;
    if olds == [] {
      assert Set(olds) == {};
      assert Puts(dataset, parts) + Withdrawals(olds, reason) == Puts(dataset, parts);
      PutsOutcome(s, name, dataset, parts, reason);
    } else {
      var (init, last) := (olds[..|olds| - 1], olds[|olds| - 1]);
      BatchOutcome(s, name, dataset, parts, init, reason);
      assert olds == init + [last];
      SetSnoc(init, last);
      var before := Puts(dataset, parts) + Withdrawals(init, reason);
      assert Puts(dataset, parts) + Withdrawals(olds, reason) == before + [Withdraw(last, reason)];
      DoSnoc(s, name, before, Withdraw(last, reason));
      WithdrawOutcome(s, name, dataset, parts, Set(init), reason, last);
    }
  }

  // ---- a batch stopped part-way -----------------------------------------------------------

  function Min(x: nat, y: nat): nat {
    if x < y then x else y
  }

  lemma CutBatch(dataset: string, parts: seq<string>, olds: seq<string>, reason: string, k: nat)
    requires k <= |parts| + |olds|
    ensures var (a, r) := (Min(k, |parts|), k - Min(k, |parts|));
            (Puts(dataset, parts) + Withdrawals(olds, reason))[..k] == Puts(dataset, parts[..a]) + Withdrawals(olds[..r], reason)
  {
  }

  /** Stopped after any number of row writes: some parts stored, in order, and nothing retired before
      the last of them is. */
  lemma StoppedBatch(s: Store, name: Naming, dataset: string, parts: seq<string>, olds: seq<string>, reason: string, k: nat)
    requires k <= |parts| + |olds|
    ensures var (a, r) := (Min(k, |parts|), k - Min(k, |parts|));
            && DoAll(s, name, (Puts(dataset, parts) + Withdrawals(olds, reason))[..k])
               == Outcome(s, name, dataset, parts[..a], Set(olds[..r]), reason)
            && (r > 0 ==> a == |parts|)
  {
    CutBatch(dataset, parts, olds, reason, k);
    BatchOutcome(s, name, dataset, parts[..Min(k, |parts|)], olds[..k - Min(k, |parts|)], reason);
  }

  // ---- stopped, repeated and out of order ---------------------------------------------------

  /** What a proposal would write.  A served part goes to `dataset`, a drained one to `other`; `drained`
      are the parts that a drain can store, and `reasons` what a source can be retired for. */
  datatype Batch = Batch(name: Naming, dataset: string, other: string, parts: seq<string>, drained: seq<string>, reasons: set<string>)

  /** One of the batch's writes can leave this text under this id. */
  ghost predicate Lands(b: Batch, id: string, text: string) {
    (text in b.parts && b.name(b.dataset, text) == id) || (text in b.drained && b.name(b.other, text) == id)
  }

  /** One of the batch's writes can make a row of this id in this dataset. */
  ghost predicate Files(b: Batch, dataset: string, id: string) {
    (dataset == b.dataset && id in Ids(b.name, b.dataset, b.parts)) || (dataset == b.other && id in Ids(b.name, b.other, b.drained))
  }

  ghost function AllIds(b: Batch): set<string> {
    Ids(b.name, b.dataset, b.parts) + Ids(b.name, b.other, b.drained)
  }

  ghost predicate RowBetween(s: Store, now: Store, b: Batch, made: set<string>, gone: set<string>, id: string)
    requires id in now
  {
    && (id in s || id in made)
    && (if id in s then now[id].dataset == s[id].dataset else Files(b, now[id].dataset, id))
    && (if id in made then Lands(b, id, now[id].text) else now[id].text == s[id].text)
    && (if id in gone && (id in s ==> s[id].superseded == None)
        then now[id].superseded.Some? && now[id].superseded.value in b.reasons
        else now[id].superseded == if id in s then s[id].superseded else None)
  }

  /** `now` is `s` after any of the batch's writes, in any order and any number of times: `made` are the
      ids under which parts were stored, `gone` the sources retired. */
  ghost predicate Between(s: Store, now: Store, b: Batch, made: set<string>, gone: set<string>) {
    && now.Keys == s.Keys + made
    && made <= AllIds(b)
    && gone <= now.Keys
    && forall id :: id in now ==> RowBetween(s, now, b, made, gone, id)
  }

  lemma BetweenStarts(s: Store, b: Batch)
    ensures Between(s, s, b, {}, {})
  {
  }

  /** The part can be stored in this dataset. */
  ghost predicate Goes(b: Batch, dataset: string, text: string) {
    (dataset == b.dataset && text in b.parts) || (dataset == b.other && text in b.drained)
  }

  lemma GoesLands(b: Batch, dataset: string, text: string)
    requires Goes(b, dataset, text)
    ensures Lands(b, b.name(dataset, text), text) && b.name(dataset, text) in AllIds(b) && Files(b, dataset, b.name(dataset, text))
  {
  }

  lemma PutBetween(s: Store, now: Store, b: Batch, made: set<string>, gone: set<string>, dataset: string, text: string)
    requires Between(s, now, b, made, gone) && Goes(b, dataset, text)
    ensures Between(s, Remember(now, b.name, dataset, text), b, made + {b.name(dataset, text)}, gone)
  {
    hide Lands, AllIds;
    GoesLands(b, dataset, text);
    var id := b.name(dataset, text);
    assert id !in now ==> id !in s && id !in gone;
    var next := Remember(now, b.name, dataset, text);
    forall x | x in next ensures RowBetween(s, next, b, made + {id}, gone, x) {
      assert x in now ==> RowBetween(s, now, b, made, gone, x);
    }
  }

  lemma WithdrawBetween(s: Store, now: Store, b: Batch, made: set<string>, gone: set<string>, source: string, reason: string)
    requires Between(s, now, b, made, gone) && source in now && reason in b.reasons
    ensures Between(s, Supersede(now, source, reason), b, made, gone + {source})
  {
    hide Lands, AllIds;
    var next := Supersede(now, source, reason);
    forall x | x in next ensures RowBetween(s, next, b, made, gone + {source}, x) {
      assert RowBetween(s, now, b, made, gone, x);
    }
  }

  lemma {:induction false} WithdrawalsBetween(s: Store, now: Store, b: Batch, made: set<string>, gone: set<string>, sources: seq<string>, reason: string)
    requires Between(s, now, b, made, gone) && reason in b.reasons && forall x :: x in sources ==> x in now
    ensures Between(s, DoAll(now, b.name, Withdrawals(sources, reason)), b, made, gone + Set(sources))
    ensures DoAll(now, b.name, Withdrawals(sources, reason)).Keys == now.Keys
  {
    hide Between, Supersede;
    if sources == [] {
      assert gone + Set(sources) == gone;
    } else {
      var (init, last) := (sources[..|sources| - 1], sources[|sources| - 1]);
      assert sources == init + [last] && last in sources && forall x :: x in init ==> x in sources;
      WithdrawalsBetween(s, now, b, made, gone, init, reason);
      var ws := Withdrawals(init, reason);
      assert Withdrawals(sources, reason) == ws + [Withdraw(last, reason)];
      DoSnoc(now, b.name, ws, Withdraw(last, reason));
      WithdrawBetween(s, DoAll(now, b.name, ws), b, made, gone + Set(init), last, reason);
      SupersedeKeys(DoAll(now, b.name, ws), last, reason);
      SetSnoc(init, last);
      assert gone + Set(init) + {last} == gone + Set(sources);
    }
  }

  lemma SupersedeKeys(s: Store, source: string, reason: string)
    ensures Supersede(s, source, reason).Keys == s.Keys
  {
  }

  function StoreThenRetire(name: Naming, dataset: string, text: string, sources: seq<string>): seq<Write> {
    [Put(dataset, text)] + Withdrawals(sources, name(dataset, text))
  }

  /** One request or one spool entry, stopped after `k` row writes. */
  lemma StoppedBetween(s: Store, now: Store, b: Batch, made: set<string>, gone: set<string>, dataset: string, text: string, sources: seq<string>, k: nat)
    requires Between(s, now, b, made, gone) && Goes(b, dataset, text) && (forall x :: x in sources ==> x in now)
    requires 0 < k <= 1 + |sources| && (sources != [] ==> b.name(dataset, text) in b.reasons)
    ensures Between(s, DoAll(now, b.name, StoreThenRetire(b.name, dataset, text, sources)[..k]), b,
                    made + {b.name(dataset, text)}, gone + Set(sources[..k - 1]))
  {
    hide Between, Withdrawals, DoAll, Goes;
    var (first, reason) := (Put(dataset, text), b.name(dataset, text));
    var rest := Withdrawals(sources[..k - 1], reason);
    PutBetween(s, now, b, made, gone, dataset, text);
    var next := Remember(now, b.name, dataset, text);
    WithdrawalsCut(sources, reason, k - 1);
    assert StoreThenRetire(b.name, dataset, text, sources)[..k] == [first] + rest;
    DoConcat(now, b.name, [first], rest);
    DoOne(now, b.name, first);
    assert forall x :: x in sources[..k - 1] ==> x in sources;
    if sources == [] {
      assert rest == [] && gone + Set(sources[..k - 1]) == gone;
      DoOne(next, b.name, first);
    } else {
      WithdrawalsBetween(s, next, b, made + {reason}, gone, sources[..k - 1], reason);
    }
  }

  lemma WithdrawalsCut(sources: seq<string>, reason: string, k: nat)
    requires k <= |sources|
    ensures |Withdrawals(sources, reason)| == |sources| && Withdrawals(sources, reason)[..k] == Withdrawals(sources[..k], reason)
  {
  }

  lemma DoOne(s: Store, name: Naming, w: Write)
    ensures DoAll(s, name, [w]) == Do(s, name, w)
    ensures DoAll(s, name, []) == s
  {
    DoSnoc(s, name, [], w);
    assert [] + [w] == [w];
  }

  // ---- when the traces vanish -----------------------------------------------------------------

  /** The part is in the store already, word for word. */
  ghost predicate Holds(s: Store, name: Naming, dataset: string, text: string) {
    name(dataset, text) in s && s[name(dataset, text)].text == text
  }

  /** What was done so far shows nowhere but where a whole batch writes anyway. */
  ghost predicate Unstrayed(s: Store, now: Store, b: Batch, reason: string) {
    forall id :: id in now ==>
      && (id !in s ==> id in Ids(b.name, b.dataset, b.parts) && now[id].dataset == b.dataset)
      && (id in s && id !in Ids(b.name, b.dataset, b.parts) ==> now[id].text == s[id].text)
      && (now[id].superseded == (if id in s then s[id].superseded else None) || now[id].superseded == Some(reason))
  }

  /** A whole batch after the fact against one from the start: they end alike exactly if nothing has
      strayed, and they retire the same rows that were not retired before. */
  lemma RetryIff(s: Store, now: Store, b: Batch, made: set<string>, gone: set<string>, reason: string, more: set<string>, first: set<string>)
    requires Between(s, now, b, made, gone) && gone <= more <= now.Keys && first <= more
    ensures Outcome(now, b.name, b.dataset, b.parts, more, reason) == Outcome(s, b.name, b.dataset, b.parts, first, reason)
       <==> && Unstrayed(s, now, b, reason)
            && forall id :: id in more && (id in s ==> s[id].superseded == None) ==> id in first
  {
    hide LastText, Ids, Lands, AllIds, Mark;
    var (x, y) := (Outcome(now, b.name, b.dataset, b.parts, more, reason), Outcome(s, b.name, b.dataset, b.parts, first, reason));
    if x == y {
      forall id | id in now
        ensures id !in s ==> id in Ids(b.name, b.dataset, b.parts) && now[id].dataset == b.dataset
        ensures id in s && id !in Ids(b.name, b.dataset, b.parts) ==> now[id].text == s[id].text
        ensures now[id].superseded == (if id in s then s[id].superseded else None) || now[id].superseded == Some(reason)
        ensures id in more && (id in s ==> s[id].superseded == None) ==> id in first
      {
        SameRow(s, now, b, made, gone, reason, more, first, id);
      }
    }
    if Unstrayed(s, now, b, reason) && forall id :: id in more && (id in s ==> s[id].superseded == None) ==> id in first {
      assert x.Keys == y.Keys;
      forall id | id in x.Keys ensures x[id] == y[id] {
        UnstrayedRow(s, now, b, made, gone, reason, more, first, id);
      }
    }
  }

  lemma SameRow(s: Store, now: Store, b: Batch, made: set<string>, gone: set<string>, reason: string, more: set<string>, first: set<string>, id: string)
    requires Between(s, now, b, made, gone) && gone <= more <= now.Keys && first <= more && id in now
    requires Outcome(now, b.name, b.dataset, b.parts, more, reason) == Outcome(s, b.name, b.dataset, b.parts, first, reason)
    ensures id !in s ==> id in Ids(b.name, b.dataset, b.parts) && now[id].dataset == b.dataset
    ensures id in s && id !in Ids(b.name, b.dataset, b.parts) ==> now[id].text == s[id].text
    ensures now[id].superseded == (if id in s then s[id].superseded else None) || now[id].superseded == Some(reason)
    ensures id in more && (id in s ==> s[id].superseded == None) ==> id in first
  {
    hide LastText, Ids, Lands, AllIds;
    var (x, y) := (Outcome(now, b.name, b.dataset, b.parts, more, reason), Outcome(s, b.name, b.dataset, b.parts, first, reason));
    assert RowBetween(s, now, b, made, gone, id);
    assert id in x && id in y && x[id] == y[id];
    LastTextKeeps(b.name, b.dataset, b.parts, id, now[id].text, "");
    LastTextKeeps(b.name, b.dataset, b.parts, id, if id in s then s[id].text else "", "");
  }

  lemma UnstrayedRow(s: Store, now: Store, b: Batch, made: set<string>, gone: set<string>, reason: string, more: set<string>, first: set<string>, id: string)
    requires Between(s, now, b, made, gone) && gone <= more <= now.Keys && first <= more && Unstrayed(s, now, b, reason)
    requires forall x :: x in more && (x in s ==> s[x].superseded == None) ==> x in first
    requires id in now || id in Ids(b.name, b.dataset, b.parts)
    ensures var (x, y) := (Outcome(now, b.name, b.dataset, b.parts, more, reason), Outcome(s, b.name, b.dataset, b.parts, first, reason));
            id in x && id in y && x[id] == y[id]
  {
    hide LastText, Ids, Lands, AllIds;
    assert id in now ==> RowBetween(s, now, b, made, gone, id);
    LastTextKeeps(b.name, b.dataset, b.parts, id, if id in now then now[id].text else "", if id in s then s[id].text else "");
  }

  /** Nothing strays if a drained part goes where a served one does. */
  lemma NothingStrays(s: Store, now: Store, b: Batch, made: set<string>, gone: set<string>, reason: string)
    requires Between(s, now, b, made, gone) && b.dataset == b.other && b.reasons == {reason} && forall x :: x in b.drained ==> x in b.parts
    ensures Unstrayed(s, now, b, reason)
  {
    hide RowBetween, Lands;
    forall id | id in now ensures RowBetween(s, now, b, made, gone, id) {
    }
    assert AllIds(b) == Ids(b.name, b.dataset, b.parts);
    forall id | id in now
      ensures id !in s ==> id in Ids(b.name, b.dataset, b.parts) && now[id].dataset == b.dataset
      ensures id in s && id !in Ids(b.name, b.dataset, b.parts) ==> now[id].text == s[id].text
      ensures now[id].superseded == (if id in s then s[id].superseded else None) || now[id].superseded == Some(reason)
    {
      StraysNot(s, now, b, made, gone, reason, id);
    }
  }

  lemma StraysNot(s: Store, now: Store, b: Batch, made: set<string>, gone: set<string>, reason: string, id: string)
    requires id in now && RowBetween(s, now, b, made, gone, id) && made <= AllIds(b) && b.dataset == b.other && b.reasons == {reason}
    requires AllIds(b) == Ids(b.name, b.dataset, b.parts)
    ensures id !in s ==> id in Ids(b.name, b.dataset, b.parts) && now[id].dataset == b.dataset
    ensures id in s && id !in Ids(b.name, b.dataset, b.parts) ==> now[id].text == s[id].text
    ensures now[id].superseded == (if id in s then s[id].superseded else None) || now[id].superseded == Some(reason)
  {
    hide Lands, AllIds, Ids;
  }

  /** No two of the batch's writes leave different texts under one id. */
  ghost predicate OneTextPerRow(b: Batch) {
    forall x, y, d, e :: Goes(b, d, x) && Goes(b, e, y) && b.name(d, x) == b.name(e, y) ==> x == y
  }

  /** It makes no difference in which of the two datasets a part is stored. */
  ghost predicate EitherWay(s: Store, b: Batch) {
    b.dataset == b.other
    || forall x :: x in b.drained ==>
         || (b.name(b.dataset, x) == b.name(b.other, x) && b.name(b.dataset, x) in s)
         || (Holds(s, b.name, b.dataset, x) && Holds(s, b.name, b.other, x))
  }

  lemma {:induction false} LastTextIsPart(name: Naming, dataset: string, parts: seq<string>, id: string, before: string)
    ensures id in Ids(name, dataset, parts) ==>
              var t := LastText(name, dataset, parts, id, before); t in parts && name(dataset, t) == id
  {
    if parts != [] {
      var (init, last) := (parts[..|parts| - 1], parts[|parts| - 1]);
      assert parts == init + [last];
      IdsSnoc(name, dataset, init, last);
      LastTextIsPart(name, dataset, init, id, before);
    }
  }

  /** Every part is stored, and a part that no drain can store was there before. */
  ghost predicate AllStored(s: Store, b: Batch, made: set<string>) {
    forall x :: x in b.parts ==>
      && (x in b.drained || Holds(s, b.name, b.dataset, x))
      && (b.name(b.dataset, x) in made || (x in b.drained && b.name(b.other, x) in made) || Holds(s, b.name, b.dataset, x))
  }

  lemma StoredKeys(s: Store, now: Store, b: Batch, made: set<string>, gone: set<string>)
    requires Between(s, now, b, made, gone) && EitherWay(s, b) && AllStored(s, b, made) && forall x :: x in b.drained ==> x in b.parts
    ensures now.Keys == s.Keys + Ids(b.name, b.dataset, b.parts)
    ensures forall id :: id in made && id !in s ==> b.dataset == b.other
  {
    hide RowBetween;
    forall id | id in made ensures id in s || id in Ids(b.name, b.dataset, b.parts) {
    }
    forall id | id in made && id !in s ensures b.dataset == b.other {
      if b.dataset != b.other {
        if x :| x in b.parts && b.name(b.dataset, x) == id {
          assert false;
        }
      }
    }
  }

  lemma StoredText(s: Store, now: Store, b: Batch, made: set<string>, gone: set<string>, id: string)
    requires Between(s, now, b, made, gone) && OneTextPerRow(b) && EitherWay(s, b) && AllStored(s, b, made)
    requires id in now && forall x :: x in b.drained ==> x in b.parts
    ensures now[id].text == LastText(b.name, b.dataset, b.parts, id, if id in s then s[id].text else "")
  {
    hide LastText;
    var before := if id in s then s[id].text else "";
    assert RowBetween(s, now, b, made, gone, id);
    LastTextKeeps(b.name, b.dataset, b.parts, id, before, before);
    LastTextIsPart(b.name, b.dataset, b.parts, id, before);
    var y := now[id].text;
    if id in made && id in Ids(b.name, b.dataset, b.parts) {
      var t := LastText(b.name, b.dataset, b.parts, id, before);
      assert Goes(b, b.dataset, t) && (Goes(b, b.dataset, y) || Goes(b, b.other, y));
    }
  }

  /** Once every part is stored, the order of the writes, their repetition and the way each took have
      left no trace. */
  lemma BetweenIsOutcome(s: Store, now: Store, b: Batch, made: set<string>, gone: set<string>, reason: string)
    requires Between(s, now, b, made, gone) && OneTextPerRow(b) && EitherWay(s, b) && AllStored(s, b, made)
    requires (forall r :: r in b.reasons ==> r == reason) || forall id :: id in gone ==> id in s && s[id].superseded.Some?
    requires forall x :: x in b.drained ==> x in b.parts
    ensures now == Outcome(s, b.name, b.dataset, b.parts, gone, reason)
  {
    hide LastText, Lands, AllIds, OneTextPerRow, EitherWay, AllStored, Ids;
    var y := Outcome(s, b.name, b.dataset, b.parts, gone, reason);
    StoredKeys(s, now, b, made, gone);
    forall id | id in now.Keys ensures now[id] == y[id] {
      assert RowBetween(s, now, b, made, gone, id);
      StoredText(s, now, b, made, gone, id);
    }
  }

  /** What a whole batch retires shows in its outcome exactly on rows that were not retired before. */
  lemma OutcomesDiffer(s: Store, name: Naming, dataset: string, parts: seq<string>, gone: set<string>, gone': set<string>, reason: string)
    ensures Outcome(s, name, dataset, parts, gone, reason) == Outcome(s, name, dataset, parts, gone', reason)
       <==> forall id :: id in s.Keys + Ids(name, dataset, parts) && (id in s ==> s[id].superseded == None) ==> (id in gone <==> id in gone')
  {
    hide LastText, Ids;
    var (x, y) := (Outcome(s, name, dataset, parts, gone, reason), Outcome(s, name, dataset, parts, gone', reason));
    var keys := s.Keys + Ids(name, dataset, parts);
    if x == y {
      forall id | id in keys && (id in s ==> s[id].superseded == None) ensures id in gone <==> id in gone' {
        assert x[id] == y[id];
      }
    } else {
      assert x.Keys == y.Keys;
      var id :| id in keys && x[id] != y[id];
    }
  }
}
