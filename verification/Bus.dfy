/** Who a bus message is for, what wakes a listener, and what one delivery hands over. */
module Bus {
  import opened Text
  import opened Sorting
  import opened Lists

  const OPERATOR: string := "operator"
  const ALL: string := "@all"
  const BACKLOG_MAX_DELIVER := 25

  datatype Message = Message(id: nat, room: string, seqNo: int, sender: string, target: string, text: string,
                             urgent: bool, ambient: bool)

  // ---- addressing -------------------------------------------------------------------------

  function TrimAt(s: string): string {
    if s != [] && s[0] == '@' then TrimAt(s[1..]) else s
  }

  predicate IsBroadcast(target: string) {
    Trim(target) == [] || Trim(target) == ALL
  }

  predicate AddressedTo(target: string, name: string) {
    IsBroadcast(target) || exists part :: part in Split(TrimAt(Trim(target)), "__") && Trim(part) == name
  }

  predicate Handle(name: string) {
    name != [] && Trimmed(name) && name[0] != '@'
  }

  lemma JoinEnds(names: seq<string>)
    requires names != [] && forall n :: n in names ==> Handle(n)
    ensures names[0] != []
    ensures var t := Join(names, "__"); t != [] && t[0] == names[0][0] && !IsSpace(t[|t| - 1])
  {
    assert names[0] in names;
    if |names| > 1 {
      forall n | n in names[1..] ensures Handle(n) {
        assert n in names;
      }
      JoinEnds(names[1..]);
    }
  }

  /** A target written `@a__b` addresses exactly the handles joined in it.  The handles must be
      separable, and the lone handle `all` spells the broadcast. */
  lemma JoinedTargetAddresses(names: seq<string>, name: string)
    requires (forall n :: n in names ==> Handle(n)) && Separable(names, "__") && names != ["all"]
    ensures AddressedTo("@" + Join(names, "__"), name) <==> name in names
  {
    hide Separable, Join, Trim, Split;
    var joined := Join(names, "__");
    var target := "@" + joined;
    SeparableIsSome(names);
    JoinEnds(names);
    assert names[0] in names;
    assert Trimmed(target) by { assert target[0] == '@' && target[|target| - 1] == joined[|joined| - 1]; }
    TrimIsTrimmed(target);
    assert target[1..] == joined;
    assert TrimAt(joined) == joined;
    SplitJoinIff(names, "__");
    if target == ALL {
      assert joined == ALL[1..] == "all";
      LoneAll(names);
    }
    forall n | n in names ensures Trim(n) == n {
      TrimIsTrimmed(n);
    }
  }

  lemma SeparableIsSome(names: seq<string>)
    requires Separable(names, "__")
    ensures names != []
  {
  }

  lemma LoneAll(names: seq<string>)
    requires Separable(names, "__") && Join(names, "__") == "all"
    ensures names == ["all"]
  {
    hide Find;
    SplitJoinIff(names, "__");
    NoSeparatorInAll();
  }

  lemma NoSeparatorInAll()
    ensures Split("all", "__") == ["all"]
  {
    assert "all"[..2] == "al" && "all"[1..] == "ll" && "ll"[..2] == "ll" && "ll"[1..] == "l";
    assert Find("l", "__") == None;
    assert Find("ll", "__") == None;
  }

  lemma SplitTripleUnderscore()
    ensures Split("a___b", "__") == ["a", "_b"]
  {
    hide Split, Find;
    FindHere("__", "__");
    FindLater("a__", "__", "__", 0);
    FindLater("b__", "__", "__", 0);
    FindLater("_b__", "b__", "__", 1);
    assert "a" + "__" == "a__" && "_b" + "__" == "_b__";
    assert Join(["a", "_b"], "__") == "a___b";
    SplitJoin(["a", "_b"], "__");
  }

  lemma FindHere(s: string, sep: string)
    requires sep <= s
    ensures Find(s, sep) == Some(0)
  {
  }

  lemma FindLater(s: string, rest: string, sep: string, k: nat)
    requires k < |sep| < |s| && s[k] != sep[k] && rest == s[1..] && Find(rest, sep).Some?
    ensures Find(s, sep) == Some(Find(rest, sep).value + 1)
  {
    assert s[..|sep|][k] == s[k];
  }

  lemma TwoUnderscores(s: string, i: nat)
    requires i + 2 <= |s|
    ensures s[i..i + 2] == "__" <==> s[i] == '_' && s[i + 1] == '_'
  {
    var t := s[i..i + 2];
    assert t[0] == s[i] && t[1] == s[i + 1];
    assert t == [t[0], t[1]];
  }

  lemma UnderscoreIsUnclean(p: string)
    requires p != [] && p[|p| - 1] == '_'
    ensures !Clean(p, "__")
  {
    hide Find;
    var s := p + "__";
    TwoUnderscores(s, |p| - 1);
    FindFirst(s, "__", |p| - 1);
  }

  lemma NoneEarlier(p: string, r: nat)
    requires Find(p, "__") == None && p != [] && p[|p| - 1] != '_' && r < |p| && p[r] == '_'
    ensures (p + "__")[r + 1] != '_'
  {
    hide Find;
    if r + 2 <= |p| && p[r + 1] == '_' {
      TwoUnderscores(p, r);
      FindFirst(p, "__", r);
    }
  }

  lemma FirstIsAtEnd(p: string, s: string, r: nat)
    requires s == p + "__" && r <= |p| && s[r..r + 2] == "__"
    requires Find(p, "__") == None && (p == [] || p[|p| - 1] != '_')
    ensures r == |p|
  {
    hide Find;
    TwoUnderscores(s, r);
    if r < |p| {
      assert s[r] == p[r];
      NoneEarlier(p, r);
    }
  }

  lemma CleanWithoutUnderscore(p: string)
    requires Find(p, "__") == None && (p == [] || p[|p| - 1] != '_')
    ensures Clean(p, "__")
  {
    hide Find, Clean;
    FindByEnd(p, "__");
    FirstIsAtEnd(p, p + "__", Find(p + "__", "__").value);
    CleanIs(p);
  }

  lemma CleanIs(p: string)
    ensures Clean(p, "__") <==> Find(p + "__", "__") == Some(|p|)
  {
    hide Find;
  }

  lemma CleanOfUnderscores(p: string)
    ensures Clean(p, "__") <==> Find(p, "__") == None && (p == [] || p[|p| - 1] != '_')
  {
    hide Find, Clean;
    if Clean(p, "__") {
      CleanHasNone(p, "__");
      if p != [] && p[|p| - 1] == '_' {
        UnderscoreIsUnclean(p);
      }
    } else if Find(p, "__") == None && (p == [] || p[|p| - 1] != '_') {
      CleanWithoutUnderscore(p);
    }
  }

  /** The pieces of a cut: none holds the separator, and only the last can end in an underscore. */
  lemma PiecesEnd(t: string)
    ensures var pieces := Split(t, "__");
            && (forall p :: p in pieces ==> Find(p, "__") == None)
            && (forall i :: 0 <= i < |pieces| - 1 ==> pieces[i] == [] || pieces[i][|pieces[i]| - 1] != '_')
  {
    hide Find, Split, Join, Clean;
    var pieces := Split(t, "__");
    JoinSplit(t, "__");
    SplitJoinIff(pieces, "__");
    forall i | 0 <= i < |pieces| - 1
      ensures Find(pieces[i], "__") == None && (pieces[i] == [] || pieces[i][|pieces[i]| - 1] != '_')
    {
      CleanOfUnderscores(pieces[i]);
    }
  }

  lemma {:induction false} HandlesAreSome(names: seq<string>)
    requires forall n :: n in names ==> Handle(n)
    ensures Sum(names) >= |names|
  {
    if names != [] {
      var (init, last) := (names[..|names| - 1], names[|names| - 1]);
      assert last in names && forall n :: n in init ==> n in names;
      HandlesAreSome(init);
    }
  }

  /** Whom a joined target addresses, short of the broadcast. */
  lemma TargetAddresses(names: seq<string>, name: string)
    requires names != [] && names != ["all"] && forall n :: n in names ==> Handle(n)
    ensures AddressedTo("@" + Join(names, "__"), name) <==> name in TrimAll(Split(Join(names, "__"), "__"))
  {
    hide Join, Trim, Split, Sum;
    var joined := Join(names, "__");
    var target := "@" + joined;
    JoinEnds(names);
    assert names[0] in names;
    assert Trimmed(target) by { assert target[0] == '@' && target[|target| - 1] == joined[|joined| - 1]; }
    TrimIsTrimmed(target);
    assert target[1..] == joined && TrimAt(joined) == joined;
    JoinLength(names, "__");
    HandlesAreSome(names);
    JoinOne(names[0], "__");
    assert |names| == 1 ==> names == [names[0]];
    assert "@all"[1..] == "all";
    assert target == ALL ==> joined == "all";
    var (pieces, all) := (Split(joined, "__"), TrimAll(Split(joined, "__")));
    if name in all {
      var i :| 0 <= i < |all| && all[i] == name;
      assert pieces[i] in pieces;
    }
    if part :| part in pieces && Trim(part) == name {
      var i :| 0 <= i < |pieces| && pieces[i] == part;
      assert all[i] == name;
    }
  }

  /** If every handle is addressed, the pieces are the handles, in some order. */
  lemma AllAddressed(names: seq<string>)
    requires names != [] && names != ["all"] && Distinct(names) && forall n :: n in names ==> Handle(n)
    requires forall n :: n in names ==> AddressedTo("@" + Join(names, "__"), n)
    ensures var pieces := Split(Join(names, "__"), "__");
            (forall n :: n in names ==> n in pieces) && (forall p :: p in pieces ==> p in names)
  {
    hide Join, Split, Sum, AddressedTo, Handle, TrimAll, Distinct;
    var joined := Join(names, "__");
    var pieces := Split(joined, "__");
    forall n | n in names ensures n in TrimAll(pieces) {
      TargetAddresses(names, n);
    }
    FoundAmong(names, TrimAll(pieces));
    TrimAllLoses(pieces);
    JoinSplit(joined, "__");
    JoinLength(names, "__");
    JoinLength(pieces, "__");
    TrimAllLength(pieces);
  }

  lemma TrimAllLength(parts: seq<string>)
    ensures |TrimAll(parts)| == |parts|
  {
  }

  /** A target joining distinct handles addresses each of them exactly when the handles are separable:
      none holds the separator, and none but the last ends in an underscore. */
  lemma EachIsAddressedIff(names: seq<string>)
    requires names != [] && names != ["all"] && Distinct(names) && forall n :: n in names ==> Handle(n)
    ensures (forall n :: n in names ==> AddressedTo("@" + Join(names, "__"), n)) <==> Separable(names, "__")
  {
    hide Join, Split, AddressedTo, Clean, Find, Handle;
    if Separable(names, "__") {
      forall n | n in names ensures AddressedTo("@" + Join(names, "__"), n) {
        JoinedTargetAddresses(names, n);
      }
    } else if forall n :: n in names ==> AddressedTo("@" + Join(names, "__"), n) {
      AllAddressed(names);
      PiecesAreSeparable(names);
      assert false;
    }
  }

  lemma PiecesAreSeparable(names: seq<string>)
    requires names != [] && Distinct(names) && forall n :: n in names ==> Handle(n)
    requires var pieces := Split(Join(names, "__"), "__");
             (forall n :: n in names ==> n in pieces) && (forall p :: p in pieces ==> p in names)
    ensures Separable(names, "__")
  {
    hide Join, Split, Clean, Find, Trimmed;
    var pieces := Split(Join(names, "__"), "__");
    PiecesEnd(Join(names, "__"));
    var last := names[|names| - 1];
    assert last in names;
    forall i | 0 <= i < |names| - 1 ensures Clean(names[i], "__") {
      var n := names[i];
      assert n in names;
      CleanOfUnderscores(n);
      if n[|n| - 1] == '_' {
        OnlyLastPiece(pieces, n);
        JoinSplit(Join(names, "__"), "__");
        JoinEndsWith(pieces, "__");
        JoinEndsWith(names, "__");
        OnlyLastPiece(pieces, last);
        assert false;
      }
    }
  }

  lemma OnlyLastPiece(pieces: seq<string>, p: string)
    requires p in pieces && p != []
    requires forall i :: 0 <= i < |pieces| - 1 ==> pieces[i] == [] || pieces[i][|pieces[i]| - 1] != '_'
    ensures p[|p| - 1] == '_' ==> p == pieces[|pieces| - 1]
  {
    var i :| 0 <= i < |pieces| && pieces[i] == p;
  }

  /** A handle that ends in an underscore and is followed by another costs some handle its message. */
  lemma TrailingUnderscoreIsLost(names: seq<string>, i: nat)
    requires names != [] && Distinct(names) && forall n :: n in names ==> Handle(n)
    requires i < |names| - 1 && names[i] != [] && names[i][|names[i]| - 1] == '_'
    ensures exists n :: n in names && !AddressedTo("@" + Join(names, "__"), n)
  {
    hide Join, Split, AddressedTo, Clean, Find;
    EachIsAddressedIff(names);
    CleanOfUnderscores(names[i]);
  }

  /** For instance this one. */
  lemma AUnderscoreB()
    ensures !AddressedTo("@" + Join(["a_", "b"], "__"), "a_")
  {
    hide Split, Find, Trim;
    assert Join(["a_", "b"], "__") == "a___b" && "@" + "a___b" == "@a___b";
    TrimIsTrimmed("@a___b");
    assert "@a___b"[1..] == "a___b" && TrimAt("a___b") == "a___b";
    SplitTripleUnderscore();
    TrimIsTrimmed("a");
    TrimIsTrimmed("_b");
  }

  // ---- waking -----------------------------------------------------------------------------

  /** Does `m` cost `name` a turn now, or wait for their next one? */
  predicate WakesListener(m: Message, name: string, broadcastWakes: bool) {
    if broadcastWakes then true
    else if m.urgent then true
    else if !IsBroadcast(m.target) then AddressedTo(m.target, name)
    else if m.ambient then false
    else m.sender == OPERATOR
  }

  /** Someone not addressed is woken by urgency alone; someone addressed sleeps only through a
      broadcast of a peer or of machinery. */
  lemma WhoSleeps(m: Message, name: string)
    ensures !AddressedTo(m.target, name) ==> (WakesListener(m, name, false) <==> m.urgent)
    ensures AddressedTo(m.target, name) ==>
              (WakesListener(m, name, false) <==> m.urgent || !IsBroadcast(m.target) || (m.sender == OPERATOR && !m.ambient))
  {
    if !AddressedTo(m.target, name) {
      assert !IsBroadcast(m.target);
    }
  }

  /** Nobody sleeps where a broadcast costs a turn. */
  lemma BroadcastsMayWake(m: Message, name: string)
    ensures WakesListener(m, name, true)
  {
  }

  /** The length of the longest of them. */
  function LongestOf(parts: seq<string>): (n: nat)
    ensures forall p :: p in parts ==> |p| <= n
  {
    if parts == [] then 0
    else
      var rest := LongestOf(parts[1..]);
      assert parts == [parts[0]] + parts[1..];
      if |parts[0]| > rest then |parts[0]| else rest
  }

  /** Everyone is addressed by exactly two kinds of targets, the blank ones and `@all`. */
  lemma EveryoneIsAddressedIff(target: string)
    ensures (forall name :: AddressedTo(target, name)) <==> Trim(target) == "" || Trim(target) == "@all"
    ensures IsBroadcast(target) <==> Trim(target) == "" || Trim(target) == "@all"
  {
    hide Split, Trim;
    if !IsBroadcast(target) {
      var parts := Split(TrimAt(Trim(target)), "__");
      var name := seq(LongestOf(parts) + 1, _ => 'x');
      forall part | part in parts ensures Trim(part) != name {
        TrimShortens(part);
      }
      assert !AddressedTo(target, name);
    }
  }

  /** The messages that neither DND nor the backlog cap may hold back. */
  predicate Exempt(m: Message) {
    m.urgent || m.sender == OPERATOR
  }

  predicate Unread(m: Message, cursor: int, name: string, urgentOnly: bool) {
    m.seqNo > cursor && m.sender != name && (!urgentOnly || Exempt(m)) && AddressedTo(m.target, name)
  }

  function UnreadFor(msgs: seq<Message>, cursor: int, name: string, urgentOnly: bool): seq<Message> {
    Filter(msgs, (m: Message) => Unread(m, cursor, name, urgentOnly))
  }

  predicate AnyWakes(msgs: seq<Message>, name: string, broadcastWakes: bool) {
    exists m :: m in msgs && WakesListener(m, name, broadcastWakes)
  }

  // ---- the backlog cap --------------------------------------------------------------------

  function BySeq(): Message -> real {
    (m: Message) => m.seqNo as real
  }

  function SeqOf(): Message -> int {
    (m: Message) => m.seqNo
  }

  function IsExempt(): Message -> bool {
    (m: Message) => Exempt(m)
  }

  function IsOrdinary(): Message -> bool {
    (m: Message) => !Exempt(m)
  }

  function FromCutoff(cutoff: int): Message -> bool {
    (m: Message) => Exempt(m) || m.seqNo >= cutoff
  }

  ghost function Capped(msgs: seq<Message>, limit: nat): seq<Message> {
    if limit == 0 || |msgs| <= limit then msgs
    else
      Sort(Filter(msgs, IsExempt()) + Newest(Filter(msgs, IsOrdinary()), RoomLeft(msgs, limit)), BySeq())
  }

  ghost function Newest(rest: seq<Message>, take: nat): seq<Message> {
    rest[if |rest| > take then |rest| - take else 0..]
  }

  method CapBacklog(msgs: seq<Message>, limit: nat) returns (keep: seq<Message>, skipped: int)
    ensures keep == Capped(msgs, limit) && skipped == |msgs| - |keep|
  {
    if limit == 0 || |msgs| <= limit {
      return msgs, 0;
    }
    var must := Filter(msgs, IsExempt());
    var rest := Filter(msgs, IsOrdinary());
    keep := must;
    if limit > |keep| {
      var take := limit - |keep|;
      var start := if |rest| > take then |rest| - take else 0;
      keep := keep + rest[start..];
    } else {
      assert must + Newest(rest, RoomLeft(msgs, limit)) == must;
    }
    keep := Sort(keep, BySeq());
    skipped := |msgs| - |keep|;
  }

  /** How many ordinary messages the cap leaves room for. */
  ghost function RoomLeft(msgs: seq<Message>, limit: nat): nat {
    var must := Filter(msgs, IsExempt());
    if limit > |must| then limit - |must| else 0
  }

  ghost function RestCutoff(rest: seq<Message>, take: nat, first: int, last: int): int {
    if |rest| <= take then first else if take == 0 then last + 1 else rest[|rest| - take].seqNo
  }

  /** The seq from which ordinary messages survive the cap. */
  ghost function Cutoff(msgs: seq<Message>, limit: nat): int {
    if msgs == [] then 0
    else if limit == 0 || |msgs| <= limit then msgs[0].seqNo
    else RestCutoff(Filter(msgs, IsOrdinary()), RoomLeft(msgs, limit), msgs[0].seqNo, msgs[|msgs| - 1].seqNo)
  }

  /** In increasing seq, the cap is an order-preserving filter: every urgent or operator message,
      and everything from one cutoff on. */
  lemma CapIsCutoff(msgs: seq<Message>, limit: nat)
    requires Rising(msgs, SeqOf())
    ensures Capped(msgs, limit) == Filter(msgs, FromCutoff(Cutoff(msgs, limit)))
    ensures forall m :: m in msgs && (m.urgent || m.sender == OPERATOR) ==> m in Capped(msgs, limit)
    ensures forall m, m' :: m in msgs && m' in Capped(msgs, limit) && !m'.urgent && m'.sender != OPERATOR && m.seqNo >= m'.seqNo
              ==> m in Capped(msgs, limit)
  {
    hide Sort, Cutoff;
    var cutoff := Cutoff(msgs, limit);
    var kept := Filter(msgs, FromCutoff(cutoff));
    if limit == 0 || |msgs| <= limit {
      KeepsAll(msgs, limit);
    } else {
      var picked := Filter(msgs, IsExempt()) + Newest(Filter(msgs, IsOrdinary()), RoomLeft(msgs, limit));
      KeptParts(msgs, cutoff);
      CutoffPicksNewest(msgs, limit);
      SortKeeps(picked, BySeq());
      SortAscends(picked, BySeq());
      FilterRises(msgs, FromCutoff(cutoff), SeqOf());
      forall i, j | 0 <= i < j < |kept| ensures BySeq()(kept[i]) < BySeq()(kept[j]) {
        assert SeqOf()(kept[i]) < SeqOf()(kept[j]);
      }
      SortedIsUnique(kept, Sort(picked, BySeq()), BySeq());
    }
  }

  lemma {:induction false} FilterAll(msgs: seq<Message>, keep: Message -> bool)
    requires forall m :: m in msgs ==> keep(m)
    ensures Filter(msgs, keep) == msgs
  {
    if msgs != [] {
      assert msgs == msgs[..|msgs| - 1] + [msgs[|msgs| - 1]];
      FilterAll(msgs[..|msgs| - 1], keep);
    }
  }

  lemma KeepsAll(msgs: seq<Message>, limit: nat)
    requires Rising(msgs, SeqOf()) && (limit == 0 || |msgs| <= limit)
    ensures Filter(msgs, FromCutoff(Cutoff(msgs, limit))) == msgs
  {
    forall m | m in msgs ensures FromCutoff(Cutoff(msgs, limit))(m) {
      var i :| 0 <= i < |msgs| && msgs[i] == m;
      assert i > 0 ==> SeqOf()(msgs[0]) < SeqOf()(msgs[i]);
    }
    FilterAll(msgs, FromCutoff(Cutoff(msgs, limit)));
  }

  /** The messages from a cutoff on are the exempt ones and the ordinary ones from the cutoff. */
  lemma {:induction false} KeptParts(msgs: seq<Message>, cutoff: int)
    ensures multiset(Filter(msgs, FromCutoff(cutoff)))
         == multiset(Filter(msgs, IsExempt())) + multiset(Filter(Filter(msgs, IsOrdinary()), FromCutoff(cutoff)))
  {
    if msgs != [] {
      var (init, last) := (msgs[..|msgs| - 1], msgs[|msgs| - 1]);
      KeptParts(init, cutoff);
      if !Exempt(last) {
        FilterSnoc(Filter(init, IsOrdinary()), last, FromCutoff(cutoff));
      }
    }
  }

  lemma {:induction false} FilterNone(msgs: seq<Message>, keep: Message -> bool)
    requires forall m :: m in msgs ==> !keep(m)
    ensures Filter(msgs, keep) == []
  {
    if msgs != [] {
      assert msgs == msgs[..|msgs| - 1] + [msgs[|msgs| - 1]];
      FilterNone(msgs[..|msgs| - 1], keep);
    }
  }

  /** Ordinary messages split at the cutoff: none before it is kept, all after it are. */
  lemma FilterSuffix(older: seq<Message>, newer: seq<Message>, cutoff: int)
    requires forall m :: m in older ==> !Exempt(m) && m.seqNo < cutoff
    requires forall m :: m in newer ==> m.seqNo >= cutoff
    ensures Filter(older + newer, FromCutoff(cutoff)) == newer
  {
    hide Filter, Exempt;
    FilterConcat(older, newer, FromCutoff(cutoff));
    FilterNone(older, FromCutoff(cutoff));
    FilterAll(newer, FromCutoff(cutoff));
  }

  lemma SeqBounds(msgs: seq<Message>)
    requires Rising(msgs, SeqOf()) && msgs != []
    ensures forall m :: m in msgs ==> msgs[0].seqNo <= m.seqNo <= msgs[|msgs| - 1].seqNo
  {
    forall m | m in msgs ensures msgs[0].seqNo <= m.seqNo <= msgs[|msgs| - 1].seqNo {
      var p :| 0 <= p < |msgs| && msgs[p] == m;
      assert p > 0 ==> SeqOf()(msgs[0]) < SeqOf()(msgs[p]);
      assert p < |msgs| - 1 ==> SeqOf()(msgs[p]) < SeqOf()(msgs[|msgs| - 1]);
    }
  }

  lemma RisingSplit(rest: seq<Message>, start: nat)
    requires Rising(rest, SeqOf()) && start < |rest|
    ensures forall m :: m in rest[..start] ==> m.seqNo < rest[start].seqNo
    ensures forall m :: m in rest[start..] ==> m.seqNo >= rest[start].seqNo
  {
    forall i | 0 <= i < |rest| && i != start
      ensures if i < start then rest[i].seqNo < rest[start].seqNo else rest[i].seqNo > rest[start].seqNo
    {
      assert if i < start then SeqOf()(rest[i]) < SeqOf()(rest[start]) else SeqOf()(rest[start]) < SeqOf()(rest[i]);
    }
  }

  lemma NewestFromCutoff(rest: seq<Message>, take: nat, first: int, last: int)
    requires Rising(rest, SeqOf()) && forall m :: m in rest ==> !Exempt(m) && first <= m.seqNo <= last
    ensures Filter(rest, FromCutoff(RestCutoff(rest, take, first, last))) == Newest(rest, take)
  {
    hide Filter, Exempt, Rising;
    if |rest| <= take {
      FilterAll(rest, FromCutoff(first));
    } else if take == 0 {
      FilterNone(rest, FromCutoff(last + 1));
    } else {
      var start := |rest| - take;
      RisingSplit(rest, start);
      assert rest == rest[..start] + rest[start..];
      FilterSuffix(rest[..start], rest[start..], rest[start].seqNo);
    }
  }

  lemma CutoffPicksNewest(msgs: seq<Message>, limit: nat)
    requires Rising(msgs, SeqOf()) && 0 < limit < |msgs|
    ensures Filter(Filter(msgs, IsOrdinary()), FromCutoff(Cutoff(msgs, limit)))
         == Newest(Filter(msgs, IsOrdinary()), RoomLeft(msgs, limit))
  {
    hide Filter, Rising, RoomLeft, Newest;
    var rest := Filter(msgs, IsOrdinary());
    FilterRises(msgs, IsOrdinary(), SeqOf());
    SeqBounds(msgs);
    assert forall m :: m in rest ==> m in msgs && IsOrdinary()(m);
    NewestFromCutoff(rest, RoomLeft(msgs, limit), msgs[0].seqNo, msgs[|msgs| - 1].seqNo);
  }

  /** Over a nonzero limit the cap keeps exactly max(limit, exempt count). */
  lemma CapCounts(msgs: seq<Message>, limit: nat)
    ensures |Capped(msgs, limit)| <= |msgs|
    ensures 0 < limit < |msgs| ==>
              var exempt := |Filter(msgs, (m: Message) => m.urgent || m.sender == OPERATOR)|;
              |Capped(msgs, limit)| == if limit > exempt then limit else exempt
  {
    hide Sort, Filter;
    FilterAgrees(msgs, IsExempt(), (m: Message) => m.urgent || m.sender == OPERATOR);
    FilterSplits(msgs, IsExempt(), IsOrdinary());
  }
}
