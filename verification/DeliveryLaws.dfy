/** What single steps of the delivery protocol come to after any run, in terms of the messages alone. */
module DeliveryLaws {
  import opened Text
  import opened Lists
  import opened Sorting
  import opened Bus
  import opened Delivery
  import opened DeliveryRuns

  // ---- what is in the store -----------------------------------------------------------------

  /** A post stores the message as it was sent, numbered next in the store and in its room; nothing else
      changes what is stored. */
  lemma PostsAreKept(c: Config, steps: seq<Step>, step: Step)
    ensures var (log, now) := (Run(c, steps).log, Run(c, steps + [step]).log);
            if step.Post? then
              && |now| == |log| + 1 && now[..|log|] == log
              && var m := now[|log|];
                 && m.id == |log| + 1 && m.seqNo == |RoomLog(log, step.room)| + 1
                 && m.room == step.room && m.sender == step.sender && m.target == step.target && m.text == step.text
                 && m.urgent == step.urgent && m.ambient == step.ambient
            else now == log
  {
    hide Run, RoomLog, Contiguous, HandOver, PollWakes, MaxId, MaxSeq, Recorded, At;
    var s := Run(c, steps);
    RunSnoc(c, steps, step);
    RunKeepsInv(c, steps);
    if step.Post? {
      MaxSeqIsLength(RoomLog(s.log, step.room));
    } else {
      OnlyPostsStore(s, c, step);
    }
  }

  lemma OnlyPostsStore(s: State, c: Config, step: Step)
    requires !step.Post?
    ensures Apply(s, c, step).log == s.log
  {
    hide RoomLog, PollWakes, MaxId, MaxSeq, Recorded, At, Unseen, Effective;
  }

  // ---- what a hand-over holds ------------------------------------------------------------------

  /** Any hand-over of any run: what it gave are messages of its room for the member, out of its stretch
      and, under DND, urgent or from the operator; of those it left none out but ordinary ones in excess
      of 25, and beyond 25 it gave no ordinary ones.  What DND silenced is exactly the other traffic for
      the member. */
  lemma HandOverIs(c: Config, steps: seq<Step>, h: Handed)
    requires h in Run(c, steps).handed
    ensures var msgs := RoomLog(Run(c, steps).log, h.room);
            && (forall m :: m in h.given ==>
                  && m in msgs && h.start < m.seqNo <= h.top && ForMe(m, c.me)
                  && (h.urgentOnly || |h.given| > 25 ==> m.urgent || m.sender == "operator"))
            && (forall m :: m in msgs && h.start < m.seqNo <= h.top && ForMe(m, c.me) && m !in h.given ==>
                  && !m.urgent && m.sender != "operator"
                  && (h.urgentOnly || (h.skipped > 0 && |h.given| >= 25)))
            && (forall m :: m in Filter(msgs, SilencedOf(c.me, h)) <==>
                  && h.urgentOnly && m in msgs && h.start < m.seqNo <= h.top && ForMe(m, c.me)
                  && !m.urgent && m.sender != OPERATOR)
  {
    hide Run, RoomLog, Accounted, Chained, Contiguous, AddressedTo;
    RunKeepsInv(c, steps);
    var msgs := RoomLog(Run(c, steps).log, h.room);
    HandedIs(msgs, c.me, h);
  }

  lemma HandedIs(msgs: seq<Message>, me: string, h: Handed)
    requires Contiguous(msgs) && Accounted(msgs, me, h)
    ensures forall m :: m in h.given ==>
              && m in msgs && h.start < m.seqNo <= h.top && ForMe(m, me)
              && (h.urgentOnly || |h.given| > 25 ==> m.urgent || m.sender == OPERATOR)
    ensures forall m :: m in msgs && h.start < m.seqNo <= h.top && ForMe(m, me) && m !in h.given ==>
              && !m.urgent && m.sender != OPERATOR
              && (h.urgentOnly || (h.skipped > 0 && |h.given| >= 25))
  {
    hide Filter, Capped, AddressedTo, Contiguous, Accounted;
    HandedFacts(msgs, me, h);
    LargeIsExempt(msgs, me, h);
    forall m | m in msgs && h.start < m.seqNo <= h.top && ForMe(m, me) && m !in h.given
      ensures !m.urgent && m.sender != OPERATOR && (h.urgentOnly || (h.skipped > 0 && |h.given| >= 25))
    {
      if m in Hits(msgs, me, h) {
        NotGivenIsSkipped(msgs, me, h, m);
        SkippedIsFull(msgs, me, h);
      }
    }
  }

  lemma LargeIsExempt(msgs: seq<Message>, me: string, h: Handed)
    requires Accounted(msgs, me, h)
    ensures |h.given| > 25 ==> forall m :: m in h.given ==> m.urgent || m.sender == OPERATOR
  {
    hide Filter, Unread;
    var hits := Hits(msgs, me, h);
    CapCounts(hits, BACKLOG_MAX_DELIVER);
    var must := Filter(hits, IsExempt());
    FilterAgrees(hits, IsExempt(), (m: Message) => m.urgent || m.sender == OPERATOR);
    if |h.given| > 25 {
      assert Newest(Filter(hits, IsOrdinary()), RoomLeft(hits, BACKLOG_MAX_DELIVER)) == [];
      SortKeeps(must + [], BySeq());
      InMultiset(Sort(must + [], BySeq()), must + []);
    }
  }

  lemma SkippedIsFull(msgs: seq<Message>, me: string, h: Handed)
    requires Accounted(msgs, me, h) && h.skipped > 0
    ensures |h.given| >= 25
  {
    hide Filter;
    CapCounts(Hits(msgs, me, h), BACKLOG_MAX_DELIVER);
  }

  // ---- a poll in a fresh window ------------------------------------------------------------------

  /** There is a message of the room above the cursor, for the member, that may wake them: under DND only
      an urgent one or the operator's. */
  ghost predicate Calls(c: Config, s: State, room: string, quiet: bool) {
    exists m :: && m in RoomLog(s.log, room) && m.seqNo > Effective(s, c, room) && ForMe(m, c.me)
                && (quiet ==> m.urgent || m.sender == OPERATOR) && WakesListener(m, c.me, c.broadcastWakes)
  }

  ghost function FreshPoll(room: string, on: bool): seq<Step> {
    [SetDnd(on), NewWindow, Query(room), Read]
  }

  /** After any run, DND switched, a new window and a poll of a room: exactly if there is such a message
      the member is handed what came after the cursor, filtered if DND is on or the override is set. */
  lemma FreshPollDelivers(c: Config, steps: seq<Step>, room: string, on: bool)
    ensures var (s, t, quiet) := (Run(c, steps), Run(c, steps + FreshPoll(room, on)), c.urgentOnlyOverride || on);
            && t.log == s.log && t.reading == None
            && if Calls(c, s, room, quiet) then
                 && |t.handed| == |s.handed| + 1 && t.handed[..|s.handed|] == s.handed
                 && var h := t.handed[|s.handed|];
                    && h.room == room && h.urgentOnly == quiet
                    && h.start == Effective(s, c, room) && h.top == |RoomLog(s.log, room)| <= Effective(t, c, room)
                    && t.spool == s.spool + {(room, h.top)} && OnlyFile(c, s, t, room)
               else t.handed == s.handed && t.spool == s.spool && t.db == s.db && t.overlay == s.overlay
  {
    hide Run, RoomLog, Contiguous, PollWakes, Receipts, Watching, MaxId, MaxSeq, Calls, WakesListener, HandOver;
    var (s, quiet, all) := (Run(c, steps), c.urgentOnlyOverride || on, FreshPoll(room, on));
    RunFour(c, steps, all[0], all[1], all[2], all[3]);
    RunKeepsInv(c, steps);
    MaxSeqIsLength(RoomLog(s.log, room));
    var w := s.(dnd := on, urgentOnly := quiet, lastMax := map[], reading := None, failed := {});
    var q := w.(lastMax := map[room := MaxId(RoomLog(s.log, room))], reading := Some(room));
    assert Apply(Apply(Apply(s, c, all[0]), c, all[1]), c, all[2]) == q by { FreshQuery(s, c, room, on); }
    CallsIsWakes(c, s, q, room);
    var t := q.(reading := None, failed := q.failed - {room});
    assert Run(c, steps + all) == if PollWakes(q, c, room) then HandOver(t, c, room, quiet) else t;
    HandOverAdds(s, t, c, room, quiet);
  }

  lemma FreshQuery(s: State, c: Config, room: string, on: bool)
    ensures var w := s.(dnd := on, urgentOnly := c.urgentOnlyOverride || on, lastMax := map[], reading := None, failed := {});
            Apply(Apply(Apply(s, c, SetDnd(on)), c, NewWindow), c, Query(room))
            == w.(lastMax := map[room := MaxId(RoomLog(s.log, room))], reading := Some(room))
  {
    hide RoomLog, MaxId;
  }

  lemma RunFour(c: Config, steps: seq<Step>, w: Step, x: Step, y: Step, z: Step)
    ensures Run(c, steps + [w, x, y, z]) == Apply(Apply(Apply(Apply(Run(c, steps), c, w), c, x), c, y), c, z)
  {
    hide Run, Apply;
    RunSnoc(c, steps, w);
    RunSnoc(c, steps + [w], x);
    RunSnoc(c, steps + [w] + [x], y);
    RunSnoc(c, steps + [w] + [x] + [y], z);
    assert steps + [w] + [x] + [y] + [z] == steps + [w, x, y, z];
  }

  lemma CallsIsWakes(c: Config, s: State, q: State, room: string)
    requires q.log == s.log && q.db == s.db && q.overlay == s.overlay
    ensures PollWakes(q, c, room) <==> Calls(c, s, room, q.urgentOnly)
  {
    hide RoomLog, WakesListener, AddressedTo;
  }

  /** The receipt is recorded in the room's file and nowhere else, and the stored cursors wait for a drain. */
  ghost predicate OnlyFile(c: Config, s: State, t: State, room: string) {
    t.db == s.db && forall r :: c.file(r) != c.file(room) ==> Effective(t, c, r) == Effective(s, c, r)
  }

  lemma HandOverAdds(s: State, t: State, c: Config, room: string, urgentOnly: bool)
    requires t.log == s.log && t.db == s.db && t.overlay == s.overlay && t.handed == s.handed
    ensures Effective(t, c, room) == Effective(s, c, room)
    ensures var u := HandOver(t, c, room, urgentOnly);
            && u.log == s.log && u.reading == t.reading
            && |u.handed| == |s.handed| + 1 && u.handed[..|s.handed|] == s.handed
            && Effective(u, c, room) >= MaxSeq(RoomLog(s.log, room)) && OnlyFile(c, t, u, room)
            && u.spool == t.spool + {(room, MaxSeq(RoomLog(s.log, room)))}
            && var h := u.handed[|s.handed|];
               h.room == room && h.urgentOnly == urgentOnly && h.start == Effective(s, c, room) && h.top == MaxSeq(RoomLog(s.log, room))
  {
    hide RoomLog, MaxSeq, Capped, Unseen;
  }

  // ---- the other steps ----------------------------------------------------------------------------

  /** `recv` of a room that has messages hands over what is above the cursor, whatever DND says, and leaves
      nothing above it; of an empty room it does nothing. */
  lemma RecvDelivers(c: Config, steps: seq<Step>, room: string)
    ensures var (s, t) := (Run(c, steps), Run(c, steps + [Recv(room)]));
            && t.log == s.log
            && if RoomLog(s.log, room) == [] then t == s
               else
                 && |t.handed| == |s.handed| + 1 && t.handed[..|s.handed|] == s.handed
                 && var h := t.handed[|s.handed|];
                    && h.room == room && !h.urgentOnly
                    && h.start == Effective(s, c, room) && h.top == |RoomLog(s.log, room)| <= Effective(t, c, room)
                    && t.spool == s.spool + {(room, h.top)} && OnlyFile(c, s, t, room)
  {
    hide Run, RoomLog, Contiguous, Receipts, Watching, MaxSeq, HandOver;
    var s := Run(c, steps);
    RunSnoc(c, steps, Recv(room));
    RunKeepsInv(c, steps);
    MaxSeqIsLength(RoomLog(s.log, room));
    HandOverAdds(s, s, c, room, false);
  }

  /** The daemon's drain of a receipt cannot be seen by a reader: it raises the stored cursor of its room
      to the receipt, if that is further on, and no effective cursor changes. */
  lemma DrainIsInvisible(c: Config, steps: seq<Step>, room: string, cursor: int)
    requires (room, cursor) in Run(c, steps).spool
    ensures var (s, t) := (Run(c, steps), Run(c, steps + [Drain(room, cursor)]));
            && t.log == s.log && t.handed == s.handed && t.overlay == s.overlay
            && At(t.db, room) == (if At(s.db, room) < cursor then cursor else At(s.db, room))
            && (forall r :: r != room ==> At(t.db, r) == At(s.db, r))
            && (forall r :: Effective(t, c, r) == Effective(s, c, r) == At(s.overlay, c.file(r)))
  {
    hide Run, RoomLog, Contiguous, HandOvers, Watching, Vouched, Reached;
    var s := Run(c, steps);
    RunSnoc(c, steps, Drain(room, cursor));
    RunKeepsInv(c, steps);
    forall r ensures At(s.db, r) <= At(s.overlay, c.file(r)) && forall v :: (r, v) in s.spool ==> v <= At(s.overlay, c.file(r)) {
      assert CursorOf(s, c, r);
    }
  }
}
