/** What any run of the delivery protocol guarantees, and the member's imperative side. */
module DeliveryRuns {
  import opened Text
  import opened Lists
  import opened Bus
  import opened Delivery

  // ---- one hand-over ----------------------------------------------------------------------

  lemma HandedFacts(msgs: seq<Message>, me: string, h: Handed)
    requires Contiguous(msgs) && Accounted(msgs, me, h)
    ensures Rising(h.given, SeqOf())
    ensures forall m :: m in h.given ==> m in Hits(msgs, me, h)
    ensures forall m :: m in Hits(msgs, me, h) && Exempt(m) ==> m in h.given
    ensures h.skipped >= 0
  {
    hide Filter, Capped, Cutoff, Unread, Exempt;
    var hits := Hits(msgs, me, h);
    ContiguousRises(msgs);
    FilterRises(msgs, HitOf(me, h.start, h.top, h.urgentOnly), SeqOf());
    CapIsCutoff(hits, BACKLOG_MAX_DELIVER);
    FilterRises(hits, FromCutoff(Cutoff(hits, BACKLOG_MAX_DELIVER)), SeqOf());
    CapCounts(hits, BACKLOG_MAX_DELIVER);
  }

  lemma {:induction false} FilterFull(xs: seq<Message>, keep: Message -> bool, m: Message)
    requires m in xs && !keep(m)
    ensures |Filter(xs, keep)| < |xs|
  {
    var (init, last) := (xs[..|xs| - 1], xs[|xs| - 1]);
    assert xs == init + [last];
    if m in init {
      FilterFull(init, keep, m);
    }
  }

  /** A hit that was not given is ordinary, and the hand-over reported skipping. */
  lemma NotGivenIsSkipped(msgs: seq<Message>, me: string, h: Handed, m: Message)
    requires Contiguous(msgs) && Accounted(msgs, me, h) && m in Hits(msgs, me, h) && m !in h.given
    ensures !Exempt(m) && h.skipped > 0
  {
    hide Filter, Capped, Cutoff, Unread, Exempt;
    var hits := Hits(msgs, me, h);
    HandedFacts(msgs, me, h);
    ContiguousRises(msgs);
    FilterRises(msgs, HitOf(me, h.start, h.top, h.urgentOnly), SeqOf());
    CapIsCutoff(hits, BACKLOG_MAX_DELIVER);
    FilterFull(hits, FromCutoff(Cutoff(hits, BACKLOG_MAX_DELIVER)), m);
  }

  // ---- at most once -----------------------------------------------------------------------

  /** Everything a room's hand-overs gave, in the order given. */
  ghost function Given(handed: seq<Handed>, room: string): seq<Message> {
    if handed == [] then []
    else
      var (init, last) := (handed[..|handed| - 1], handed[|handed| - 1]);
      Given(init, room) + if last.room == room then last.given else []
  }

  lemma {:induction false} GivenRises(handed: seq<Handed>, log: seq<Message>, me: string, room: string)
    requires Chained(handed) && (forall h :: h in handed ==> Accounted(RoomLog(log, h.room), me, h))
    requires Contiguous(RoomLog(log, room))
    ensures Rising(Given(handed, room), SeqOf())
    ensures forall m :: m in Given(handed, room) ==> m.seqNo <= Reached(handed, room)
  {
    hide RoomLog, Contiguous, Accounted, Rising, Reached;
    if handed == [] {
      NothingRises();
    } else {
      var (init, last) := (handed[..|handed| - 1], handed[|handed| - 1]);
      assert handed == init + [last];
      ChainInit(handed);
      ReachedLast(handed, room);
      GivenRises(init, log, me, room);
      if last.room == room {
        GivenInside(RoomLog(log, room), me, last);
        HandedFacts(RoomLog(log, room), me, last);
        ConcatRises(Given(init, room), last.given, last.start);
      } else {
        assert Given(handed, room) == Given(init, room);
      }
    }
  }

  lemma NothingRises()
    ensures Rising([], SeqOf())
  {
  }

  lemma ReachedLast(handed: seq<Handed>, room: string)
    requires Chained(handed) && handed != []
    ensures var (init, last) := (handed[..|handed| - 1], handed[|handed| - 1]);
            && Reached(handed, room) == (if last.room == room then last.top else Reached(init, room))
            && last.start >= Reached(init, last.room) && last.top >= Reached(init, last.room)
            && (Tight(handed) ==> last.start == Reached(init, last.room))
  {
  }

  lemma ChainInit(handed: seq<Handed>)
    requires Chained(handed) && handed != []
    ensures Chained(handed[..|handed| - 1]) && (Tight(handed) ==> Tight(handed[..|handed| - 1]))
  {
    hide Reached;
    var init := handed[..|handed| - 1];
    assert forall i :: 0 <= i < |init| ==> init[..i] == handed[..i] && init[i] == handed[i];
  }

  lemma GivenInside(msgs: seq<Message>, me: string, h: Handed)
    requires Contiguous(msgs) && Accounted(msgs, me, h)
    ensures forall m :: m in h.given ==> h.start < m.seqNo <= h.top
  {
    hide Filter, Capped, AddressedTo;
    HandedFacts(msgs, me, h);
  }

  lemma ConcatRises(xs: seq<Message>, ys: seq<Message>, middle: int)
    requires Rising(xs, SeqOf()) && Rising(ys, SeqOf())
    requires (forall m :: m in xs ==> m.seqNo <= middle) && (forall m :: m in ys ==> middle < m.seqNo)
    ensures Rising(xs + ys, SeqOf())
  {
  }

  /** In every run the member is handed each message of a room at most once, and in order. */
  lemma EachAtMostOnce(c: Config, steps: seq<Step>, room: string)
    ensures Rising(Given(Run(c, steps).handed, room), SeqOf())
  {
    hide Run, RoomLog, Accounted, Chained;
    RunKeepsInv(c, steps);
    GivenRises(Run(c, steps).handed, Run(c, steps).log, c.me, room);
  }

  // ---- nothing is passed over silently ----------------------------------------------------

  ghost predicate ForMe(m: Message, me: string) {
    m.sender != me && AddressedTo(m.target, me)
  }

  lemma {:induction false} PassedBy(handed: seq<Handed>, room: string, n: int) returns (h: Handed)
    requires Chained(handed) && Tight(handed) && 0 < n <= Reached(handed, room)
    ensures h in handed && h.room == room && h.start < n <= h.top
  {
    var (init, last) := (handed[..|handed| - 1], handed[|handed| - 1]);
    if last.room == room && last.start < n {
      h := last;
    } else {
      ReachedLast(handed, room);
      ChainInit(handed);
      h := PassedBy(init, room, n);
      assert h in init;
    }
  }

  /** `h` passed `m` over: it either reported skipping and `m` was among the unread it dropped, or it
      was a poll under DND and `m` ordinary traffic. */
  ghost predicate PassedOver(msgs: seq<Message>, me: string, h: Handed, m: Message) {
    && h.start < m.seqNo <= h.top && m !in h.given && !m.urgent && m.sender != OPERATOR
    && (h.urgentOnly || (m in Hits(msgs, me, h) && h.skipped > 0))
  }

  /** The message was delivered, or some hand-over passed it over with cause; an urgent or operator
      message was delivered. */
  ghost predicate Cared(c: Config, s: State, room: string, m: Message) {
    && (m in Given(s.handed, room) || exists h :: h in s.handed && h.room == room && PassedOver(RoomLog(s.log, room), c.me, h, m))
    && (m.urgent || m.sender == OPERATOR ==> m in Given(s.handed, room))
  }

  /** In every run whose rooms have files of their own, each addressed message at or below the effective
      cursor is cared for. */
  lemma NothingLost(c: Config, steps: seq<Step>, room: string, m: Message)
    requires Apart(c, Run(c, steps).log)
    requires m in RoomLog(Run(c, steps).log, room) && ForMe(m, c.me)
    requires m.seqNo <= Effective(Run(c, steps), c, room)
    ensures Cared(c, Run(c, steps), room, m)
    ensures m.urgent || m.sender == "operator" ==> m in Given(Run(c, steps).handed, room)
  {
    hide Run, Filter, Accounted, Chained, Capped, AddressedTo, RoomLog, Tight, Effective, Apart;
    var s := Run(c, steps);
    var msgs := RoomLog(s.log, room);
    RunKeepsInv(c, steps);
    ApartIsReached(s, c, room);
    assert m.seqNo >= 1;
    var h := PassedBy(s.handed, room, m.seqNo);
    if m in h.given {
      GivenCollects(s.handed, room, h);
    } else if !(h.urgentOnly && !Exempt(m)) {
      assert m in Hits(msgs, c.me, h);
      NotGivenIsSkipped(msgs, c.me, h, m);
      assert PassedOver(msgs, c.me, h, m);
    } else {
      assert PassedOver(msgs, c.me, h, m);
    }
  }

  lemma {:induction false} GivenCollects(handed: seq<Handed>, room: string, h: Handed)
    requires h in handed && h.room == room
    ensures forall m :: m in h.given ==> m in Given(handed, room)
  {
    var (init, last) := (handed[..|handed| - 1], handed[|handed| - 1]);
    assert handed == init + [last];
    if h in init {
      GivenCollects(init, room, h);
    }
  }

  // ---- the books balance ------------------------------------------------------------------

  function ForMeUpTo(me: string, cursor: int): Message -> bool {
    (m: Message) => m.sender != me && AddressedTo(m.target, me) && m.seqNo <= cursor
  }

  function ForMeWithin(me: string, start: int, top: int): Message -> bool {
    (m: Message) => m.sender != me && AddressedTo(m.target, me) && start < m.seqNo <= top
  }

  function SilencedOf(me: string, h: Handed): Message -> bool {
    (m: Message) => h.urgentOnly && !m.urgent && m.sender != OPERATOR && m.sender != me && AddressedTo(m.target, me) && h.start < m.seqNo <= h.top
  }

  /** Ordinary traffic a hand-over left behind because of DND. */
  ghost function Silenced(msgs: seq<Message>, me: string, h: Handed): nat {
    |Filter(msgs, SilencedOf(me, h))|
  }

  /** Messages a room's hand-overs gave, counted as skipped, or filtered. */
  ghost function Tally(handed: seq<Handed>, msgs: seq<Message>, me: string, room: string): int {
    if handed == [] then 0
    else
      var (init, last) := (handed[..|handed| - 1], handed[|handed| - 1]);
      Tally(init, msgs, me, room)
      + if last.room == room then |last.given| + last.skipped + Silenced(msgs, me, last) else 0
  }

  lemma {:induction false} CountSplits(msgs: seq<Message>, all: Message -> bool, p: Message -> bool, q: Message -> bool)
    requires forall m :: m in msgs ==> (all(m) <==> p(m) || q(m)) && !(p(m) && q(m))
    ensures |Filter(msgs, all)| == |Filter(msgs, p)| + |Filter(msgs, q)|
  {
    if msgs != [] {
      var (init, last) := (msgs[..|msgs| - 1], msgs[|msgs| - 1]);
      assert forall m :: m in init ==> m in msgs;
      CountSplits(init, all, p, q);
    }
  }

  lemma IntervalBalances(msgs: seq<Message>, me: string, h: Handed)
    requires Accounted(msgs, me, h)
    ensures |h.given| + h.skipped + Silenced(msgs, me, h) == |Filter(msgs, ForMeWithin(me, h.start, h.top))|
  {
    hide Filter, Capped, AddressedTo;
    CountSplits(msgs, ForMeWithin(me, h.start, h.top), HitOf(me, h.start, h.top, h.urgentOnly), SilencedOf(me, h));
  }

  lemma {:induction false} TallyBalances(handed: seq<Handed>, log: seq<Message>, me: string, room: string)
    requires Chained(handed) && Tight(handed) && (forall h :: h in handed ==> Accounted(RoomLog(log, h.room), me, h))
    requires Contiguous(RoomLog(log, room))
    ensures Tally(handed, RoomLog(log, room), me, room)
         == |Filter(RoomLog(log, room), ForMeUpTo(me, Reached(handed, room)))|
  {
    hide RoomLog, Filter, Accounted, AddressedTo, Silenced;
    var msgs := RoomLog(log, room);
    if handed == [] {
      NoneUpToZero(msgs, me);
    } else {
      var (init, last) := (handed[..|handed| - 1], handed[|handed| - 1]);
      assert handed == init + [last];
      ChainInit(handed);
      TallyBalances(init, log, me, room);
      if last.room == room {
        ReachedLast(handed, room);
        GivenInside(msgs, me, last);
        IntervalBalances(msgs, me, last);
        CountSplits(msgs, ForMeUpTo(me, last.top), ForMeUpTo(me, last.start), ForMeWithin(me, last.start, last.top));
      }
    }
  }

  lemma NoneUpToZero(msgs: seq<Message>, me: string)
    requires Contiguous(msgs)
    ensures |Filter(msgs, ForMeUpTo(me, 0))| == 0
  {
    hide AddressedTo;
    FilterNone(msgs, ForMeUpTo(me, 0));
  }

  /** In every run whose rooms have files of their own the books balance: delivered, counted as skipped and filtered by DND add up to
      exactly the addressed messages at or below the effective cursor. */
  lemma BooksBalance(c: Config, steps: seq<Step>, room: string)
    requires Apart(c, Run(c, steps).log) && RoomLog(Run(c, steps).log, room) != []
    ensures var s := Run(c, steps);
            Tally(s.handed, RoomLog(s.log, room), c.me, room)
            == |Filter(RoomLog(s.log, room), ForMeUpTo(c.me, Effective(s, c, room)))|
  {
    hide Run, RoomLog, Filter, Accounted, Chained, AddressedTo, Tight, Effective, Apart;
    var s := Run(c, steps);
    RunKeepsInv(c, steps);
    ApartIsReached(s, c, room);
    TallyBalances(s.handed, s.log, c.me, room);
  }

  // ---- skipping unchanged rooms -----------------------------------------------------------

  /** Skipping a room whose maximum has not changed never suppresses a wake that re-reading the room
      would have produced, unless the last read of it in this window errored. */
  lemma SkipNeverSuppresses(c: Config, steps: seq<Step>, room: string)
    ensures var s := Run(c, steps); s.reading.None? && Skips(s, room) && PollWakes(s, c, room) ==> room in s.failed
  {
    hide Run, PollWakes, Receipts, RoomLog;
    RunKeepsInv(c, steps);
  }

  /** And an errored read does suppress it: the maximum was already noted, so the next poll of the
      window skips the room although a full read would wake the member. */
  lemma ErroredReadSuppresses(s: State, c: Config, room: string)
    requires s.reading.None? && !Skips(s, room) && PollWakes(s, c, room)
    ensures var t := Apply(Apply(s, c, Query(room)), c, ReadFails);
            && t.reading.None? && Skips(t, room) && PollWakes(t, c, room) && Apply(t, c, Query(room)) == t
  {
    hide RoomLog, MaxId;
    var t := Apply(Apply(s, c, Query(room)), c, ReadFails);
    SameEffective(s, t, c, room);
    SamePoll(s, t, c, room);
  }

  /** A read that succeeds leaves nothing that would wake the member. */
  lemma ReadSettles(c: Config, steps: seq<Step>)
    requires Run(c, steps).reading.Some?
    ensures var s := Run(c, steps); !PollWakes(Apply(s, c, Read), c, s.reading.value)
  {
    hide Run, PollWakes, Receipts, RoomLog, Contiguous, HandOver, Watching;
    var s := Run(c, steps);
    var room := s.reading.value;
    var t := s.(reading := None, failed := s.failed - {room});
    RunKeepsInv(c, steps);
    SameReceipts(s, t, c);
    HandOverFrame(t, c, room, s.urgentOnly);
    SameEffective(s, t, c, room);
    if PollWakes(s, c, room) {
      SilentIfEmpty(s, c, room);
      HandOverKeepsReceipts(t, c, room, s.urgentOnly);
      NoWakeAtTop(Apply(s, c, Read), c, room);
    } else {
      SamePoll(s, t, c, room);
    }
  }
}
