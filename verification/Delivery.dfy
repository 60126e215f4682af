/** The delivery protocol of one member: posts, polls, `recv`s, DND toggles and daemon drains, in any
    order.

    A read receipt is written twice.  It is spooled for the daemon, which raises the database cursor
    some time later, and it is recorded in a local overlay; a reader uses the larger of the two. */
module Delivery {
  import opened Text
  import opened Lists
  import opened Bus

  /** `file` is where a room's overlay is kept, and need not tell rooms apart; `alone` says that no other
      member's handle is kept under the same name. */
  datatype Config = Config(me: string, broadcastWakes: bool, urgentOnlyOverride: bool, file: string -> string, alone: bool)

  /** One hand-over: messages of `room` after `start` and up to `top`. */
  datatype Handed = Handed(room: string, start: int, top: int, urgentOnly: bool, given: seq<Message>, skipped: int)

  /** `failed` remembers the rooms whose last read in this window errored after their maximum was
      noted; the program keeps no such record. */
  datatype State = State(
    log: seq<Message>,
    db: map<string, int>,
    overlay: map<string, int>,
    spool: set<(string, int)>,
    dnd: bool,
    urgentOnly: bool,
    lastMax: map<string, int>,
    reading: Option<string>,
    failed: set<string>,
    handed: seq<Handed>)

  datatype Step =
    | Post(room: string, sender: string, target: string, text: string, urgent: bool, ambient: bool)
    | SetDnd(on: bool)
    | NewWindow
    | Query(room: string)
    | Read
    | ReadFails
    | Recv(room: string)
    | Drain(room: string, cursor: int)
    | Foreign(room: string)

  // ---- the store --------------------------------------------------------------------------

  function InRoom(room: string): Message -> bool {
    (m: Message) => m.room == room
  }

  function RoomLog(log: seq<Message>, room: string): seq<Message> {
    Filter(log, InRoom(room))
  }

  function MaxSeq(msgs: seq<Message>): int {
    if msgs == [] then 0
    else
      var (rest, last) := (MaxSeq(msgs[..|msgs| - 1]), msgs[|msgs| - 1].seqNo);
      if last > rest then last else rest
  }

  function MaxId(msgs: seq<Message>): int {
    if msgs == [] then 0
    else
      var (rest, last) := (MaxId(msgs[..|msgs| - 1]), msgs[|msgs| - 1].id);
      if last > rest then last else rest
  }

  function At(m: map<string, int>, room: string): int {
    if room in m then m[room] else 0
  }

  function Effective(s: State, c: Config, room: string): int {
    var (db, pending) := (At(s.db, room), At(s.overlay, c.file(room)));
    if db > pending then db else pending
  }

  function Unseen(s: State, c: Config, room: string, urgentOnly: bool): seq<Message> {
    UnreadFor(RoomLog(s.log, room), Effective(s, c, room), c.me, urgentOnly)
  }

  /** Would a full read of the room, now, wake the member? */
  predicate PollWakes(s: State, c: Config, room: string) {
    AnyWakes(Unseen(s, c, room, s.urgentOnly), c.me, c.broadcastWakes)
  }

  // ---- the steps --------------------------------------------------------------------------

  ghost function Posted(log: seq<Message>, room: string, sender: string, target: string, text: string,
                        urgent: bool, ambient: bool): Message {
    Message(|log| + 1, room, MaxSeq(RoomLog(log, room)) + 1, sender, target, text, urgent, ambient)
  }

  /** Hands over what is unseen and records the receipt, in the spool and in the overlay. */
  ghost function HandOver(s: State, c: Config, room: string, urgentOnly: bool): State {
    var hits := Unseen(s, c, room, urgentOnly);
    var given := Capped(hits, BACKLOG_MAX_DELIVER);
    var top := MaxSeq(RoomLog(s.log, room));
    s.(spool := s.spool + {(room, top)},
       overlay := Recorded(s.overlay, c.file(room), top),
       handed := s.handed + [Handed(room, Effective(s, c, room), top, urgentOnly, given, |hits| - |given|)])
  }

  function Recorded(overlay: map<string, int>, file: string, top: int): map<string, int> {
    if At(overlay, file) < top then overlay[file := top] else overlay
  }

  ghost function Apply(s: State, c: Config, step: Step): State {
    match step
    case Post(room, sender, target, text, urgent, ambient) =>
      s.(log := s.log + [Posted(s.log, room, sender, target, text, urgent, ambient)])
    case SetDnd(on) => s.(dnd := on)
    case NewWindow =>
      s.(urgentOnly := c.urgentOnlyOverride || s.dnd, lastMax := map[], reading := None, failed := {})
    case Query(room) =>
      var max := MaxId(RoomLog(s.log, room));
      if s.reading.Some? || (room in s.lastMax && s.lastMax[room] == max) then s
      else s.(lastMax := s.lastMax[room := max], reading := Some(room))
    case Read =>
      if s.reading.None? then s
      else
        var t := s.(reading := None, failed := s.failed - {s.reading.value});
        if PollWakes(s, c, s.reading.value) then HandOver(t, c, s.reading.value, s.urgentOnly) else t
    case ReadFails =>
      if s.reading.None? then s
      else s.(reading := None, failed := s.failed + {s.reading.value})
    case Recv(room) =>
      if RoomLog(s.log, room) == [] then s else HandOver(s, c, room, false)
    case Drain(room, cursor) =>
      if (room, cursor) in s.spool && At(s.db, room) < cursor then s.(db := s.db[room := cursor]) else s
    case Foreign(room) =>
      if c.alone then s else s.(overlay := Recorded(s.overlay, c.file(room), MaxSeq(RoomLog(s.log, room))))
  }

  ghost function Init(): State {
    State([], map[], map[], {}, false, false, map[], None, {}, [])
  }

  ghost function Run(c: Config, steps: seq<Step>): State {
    if steps == [] then Init() else Apply(Run(c, steps[..|steps| - 1]), c, steps[|steps| - 1])
  }

  lemma RunSnoc(c: Config, steps: seq<Step>, step: Step)
    ensures Run(c, steps + [step]) == Apply(Run(c, steps), c, step)
  {
    assert (steps + [step])[..|steps|] == steps;
  }

  // ---- the invariant ----------------------------------------------------------------------

  ghost predicate Numbered(log: seq<Message>) {
    forall i :: 0 <= i < |log| ==> log[i].id == i + 1
  }

  /** A room's messages carry the sequence numbers 1, 2, 3, ... in order. */
  ghost predicate Contiguous(msgs: seq<Message>) {
    forall i :: 0 <= i < |msgs| ==> msgs[i].seqNo == i + 1
  }

  function HitOf(me: string, start: int, top: int, urgentOnly: bool): Message -> bool {
    (m: Message) => Unread(m, start, me, urgentOnly) && m.seqNo <= top
  }

  ghost function Hits(msgs: seq<Message>, me: string, h: Handed): seq<Message> {
    Filter(msgs, HitOf(me, h.start, h.top, h.urgentOnly))
  }

  /** The hand-over gave what the cap leaves of its hits, and counted the rest. */
  ghost predicate Accounted(msgs: seq<Message>, me: string, h: Handed) {
    && 0 <= h.start && 0 <= h.top <= |msgs|
    && h.given == Capped(Hits(msgs, me, h), BACKLOG_MAX_DELIVER)
    && h.skipped == |Hits(msgs, me, h)| - |h.given|
  }

  /** Where the hand-overs of a room have got to. */
  ghost function Reached(handed: seq<Handed>, room: string): int {
    if handed == [] then 0
    else if handed[|handed| - 1].room == room then handed[|handed| - 1].top
    else Reached(handed[..|handed| - 1], room)
  }

  /** A hand-over starts no earlier than where the last one of its room got to. */
  ghost predicate Chained(handed: seq<Handed>) {
    forall i :: 0 <= i < |handed| ==> Reached(handed[..i], handed[i].room) <= handed[i].start
                                      && Reached(handed[..i], handed[i].room) <= handed[i].top
  }

  /** And exactly there. */
  ghost predicate Tight(handed: seq<Handed>) {
    forall i :: 0 <= i < |handed| ==> handed[i].start == Reached(handed[..i], handed[i].room)
  }

  /** Nobody else writes the member's overlay, and the rooms that have messages have files of their own. */
  ghost predicate Apart(c: Config, log: seq<Message>) {
    c.alone && forall m, m' :: m in log && m' in log && c.file(m.room) == c.file(m'.room) ==> m.room == m'.room
  }

  /** What an overlay file holds comes from a hand-over of some room kept in it. */
  ghost predicate Vouched(s: State, c: Config, f: string) {
    At(s.overlay, f) > 0 ==> exists h :: h in s.handed && c.file(h.room) == f && At(s.overlay, f) <= Reached(s.handed, h.room)
  }

  ghost predicate HandOvers(s: State, c: Config) {
    && Chained(s.handed)
    && (forall h :: h in s.handed ==> Accounted(RoomLog(s.log, h.room), c.me, h))
    && (Apart(c, s.log) ==> Tight(s.handed))
  }

  ghost predicate CursorOf(s: State, c: Config, room: string) {
    && 0 <= At(s.db, room) <= Reached(s.handed, room) <= At(s.overlay, c.file(room))
    && forall v :: (room, v) in s.spool ==> v <= Reached(s.handed, room)
  }

  ghost predicate Cursors(s: State, c: Config) {
    forall r :: CursorOf(s, c, r)
  }

  ghost predicate Receipts(s: State, c: Config) {
    HandOvers(s, c) && Cursors(s, c) && (c.alone ==> forall f :: Vouched(s, c, f))
  }

  ghost predicate Skips(s: State, room: string) {
    room in s.lastMax && s.lastMax[room] == MaxId(RoomLog(s.log, room))
  }

  ghost predicate Watching(s: State, c: Config) {
    && (forall r :: r in s.lastMax ==> s.lastMax[r] <= MaxId(RoomLog(s.log, r)))
    && (forall r :: Skips(s, r) && r !in s.failed && s.reading != Some(r) ==> !PollWakes(s, c, r))
  }

  ghost predicate Inv(s: State, c: Config) {
    && Numbered(s.log) && (forall r :: Contiguous(RoomLog(s.log, r)))
    && Receipts(s, c)
    && Watching(s, c)
  }

  // ---- facts about room logs --------------------------------------------------------------

  lemma {:induction false} MaxSeqIsLength(msgs: seq<Message>)
    requires Contiguous(msgs)
    ensures MaxSeq(msgs) == |msgs|
  {
    if msgs != [] {
      MaxSeqIsLength(msgs[..|msgs| - 1]);
    }
  }

  lemma {:induction false} MaxIdBounds(msgs: seq<Message>, n: nat)
    requires forall m :: m in msgs ==> m.id <= n
    ensures 0 <= MaxId(msgs) <= n
  {
    if msgs != [] {
      assert msgs == msgs[..|msgs| - 1] + [msgs[|msgs| - 1]];
      MaxIdBounds(msgs[..|msgs| - 1], n);
    }
  }

  lemma MaxIdSnoc(msgs: seq<Message>, m: Message)
    ensures MaxId(msgs + [m]) >= m.id
  {
    assert (msgs + [m])[..|msgs|] == msgs;
  }

  lemma ContiguousRises(msgs: seq<Message>)
    requires Contiguous(msgs)
    ensures Rising(msgs, SeqOf())
  {
  }

  /** With nothing above the cursor's reach, the unseen messages are the hits up to the top. */
  lemma UnseenAreHits(msgs: seq<Message>, me: string, start: int, urgentOnly: bool)
    requires Contiguous(msgs)
    ensures UnreadFor(msgs, start, me, urgentOnly) == Filter(msgs, HitOf(me, start, |msgs|, urgentOnly))
  {
    hide Unread;
    FilterAgrees(msgs, (m: Message) => Unread(m, start, me, urgentOnly), HitOf(me, start, |msgs|, urgentOnly));
  }

  lemma NothingAboveTop(msgs: seq<Message>, me: string, urgentOnly: bool, cursor: int)
    requires Contiguous(msgs) && cursor >= |msgs|
    ensures forall m :: m in UnreadFor(msgs, cursor, me, urgentOnly) ==> false
  {
  }

  lemma AccountedAppend(msgs: seq<Message>, m: Message, me: string, h: Handed)
    requires Accounted(msgs, me, h) && m.seqNo == |msgs| + 1
    ensures Accounted(msgs + [m], me, h)
  {
    hide Filter, Capped, Unread;
    FilterSnoc(msgs, m, HitOf(me, h.start, h.top, h.urgentOnly));
    assert Hits(msgs + [m], me, h) == Hits(msgs, me, h);
  }

  // ---- every step keeps the invariant -----------------------------------------------------

  lemma RoomLogPost(log: seq<Message>, m: Message)
    ensures forall r :: RoomLog(log + [m], r) == if r == m.room then RoomLog(log, r) + [m] else RoomLog(log, r)
  {
    forall r ensures RoomLog(log + [m], r) == if r == m.room then RoomLog(log, r) + [m] else RoomLog(log, r) {
      FilterSnoc(log, m, InRoom(r));
    }
  }

  lemma RoomIds(log: seq<Message>, room: string)
    requires Numbered(log)
    ensures 0 <= MaxId(RoomLog(log, room)) <= |log|
  {
    forall m | m in RoomLog(log, room) ensures m.id <= |log| {
      assert m in log;
    }
    MaxIdBounds(RoomLog(log, room), |log|);
  }

  /** A posted message takes the next id and the next number of its room. */
  lemma PostNumbers(s: State, c: Config, m: Message)
    requires Inv(s, c) && m.id == |s.log| + 1 && m.seqNo == MaxSeq(RoomLog(s.log, m.room)) + 1
    ensures Numbered(s.log + [m]) && forall r :: Contiguous(RoomLog(s.log + [m], r))
    ensures m.seqNo == |RoomLog(s.log, m.room)| + 1
    ensures MaxId(RoomLog(s.log + [m], m.room)) > MaxId(RoomLog(s.log, m.room))
  {
    hide Receipts, Watching, RoomLog, Contiguous, MaxId;
    var msgs := RoomLog(s.log, m.room);
    RoomLogPost(s.log, m);
    MaxSeqIsLength(msgs);
    ContiguousSnoc(msgs, m);
    RoomIds(s.log, m.room);
    MaxIdSnoc(msgs, m);
  }

  lemma SameCursors(s: State, t: State, c: Config)
    requires Cursors(s, c) && t.db == s.db && t.overlay == s.overlay && t.spool == s.spool && t.handed == s.handed
    ensures Cursors(t, c)
  {
    hide Reached;
    forall r ensures CursorOf(t, c, r) {
      assert CursorOf(s, c, r);
    }
  }

  lemma PostKeepsReceipts(s: State, c: Config, m: Message)
    requires Receipts(s, c) && m.seqNo == |RoomLog(s.log, m.room)| + 1
    ensures Receipts(s.(log := s.log + [m]), c)
  {
    hide RoomLog, Accounted, Chained, Tight, Reached, Cursors;
    var t := s.(log := s.log + [m]);
    assert Cursors(t, c) by { SameCursors(s, t, c); }
    RoomLogPost(s.log, m);
    forall h | h in s.handed ensures Accounted(RoomLog(s.log + [m], h.room), c.me, h) {
      if h.room == m.room {
        AccountedAppend(RoomLog(s.log, m.room), m, c.me, h);
      }
    }
    forall f ensures c.alone ==> Vouched(t, c, f) {
      assert c.alone ==> Vouched(s, c, f);
    }
  }

  lemma PostKeepsWatching(s: State, c: Config, m: Message)
    requires Watching(s, c) && MaxId(RoomLog(s.log + [m], m.room)) > MaxId(RoomLog(s.log, m.room))
    ensures Watching(s.(log := s.log + [m]), c)
  {
    hide RoomLog, PollWakes, MaxId;
    var t := s.(log := s.log + [m]);
    RoomLogPost(s.log, m);
    forall r | Skips(t, r) && r !in t.failed && t.reading != Some(r) ensures !PollWakes(t, c, r) {
      assert r != m.room;
      SamePoll(s, t, c, r);
    }
  }

  lemma ContiguousSnoc(msgs: seq<Message>, m: Message)
    requires Contiguous(msgs) && m.seqNo == |msgs| + 1
    ensures Contiguous(msgs + [m])
  {
  }

  /** A higher cursor wakes for nothing new. */
  lemma FewerUnread(s: State, t: State, c: Config, room: string)
    requires RoomLog(s.log, room) == RoomLog(t.log, room) && s.urgentOnly == t.urgentOnly
    requires Effective(s, c, room) <= Effective(t, c, room)
    ensures PollWakes(t, c, room) ==> PollWakes(s, c, room)
  {
    hide RoomLog, WakesListener, AddressedTo, Effective;
    if PollWakes(t, c, room) {
      var m :| m in Unseen(t, c, room, t.urgentOnly) && WakesListener(m, c.me, c.broadcastWakes);
      assert m in Unseen(s, c, room, s.urgentOnly);
    }
  }

  lemma SamePoll(s: State, t: State, c: Config, room: string)
    requires RoomLog(s.log, room) == RoomLog(t.log, room) && s.urgentOnly == t.urgentOnly
    requires Effective(s, c, room) == Effective(t, c, room)
    ensures PollWakes(s, c, room) == PollWakes(t, c, room)
  {
  }

  lemma HandOverAccounts(s: State, c: Config, room: string, urgentOnly: bool)
    requires Contiguous(RoomLog(s.log, room)) && 0 <= Effective(s, c, room)
    ensures var t := HandOver(s, c, room, urgentOnly);
            var h := t.handed[|s.handed|];
            && h.room == room && h.start == Effective(s, c, room) && h.top == |RoomLog(s.log, room)|
            && Accounted(RoomLog(s.log, room), c.me, h)
            && At(t.overlay, c.file(room)) == (if At(s.overlay, c.file(room)) < h.top then h.top else At(s.overlay, c.file(room)))
            && (forall f :: f != c.file(room) ==> At(t.overlay, f) == At(s.overlay, f))
            && t.spool == s.spool + {(room, h.top)}
            && t == s.(overlay := t.overlay, spool := t.spool, handed := s.handed + [h])
  {
    hide Filter, Capped, Unread, Contiguous, UnreadFor, RoomLog;
    MaxSeqIsLength(RoomLog(s.log, room));
    UnseenAreHits(RoomLog(s.log, room), c.me, Effective(s, c, room), urgentOnly);
  }

  lemma ReachedSnoc(handed: seq<Handed>, h: Handed)
    ensures forall r :: Reached(handed + [h], r) == if r == h.room then h.top else Reached(handed, r)
  {
    assert (handed + [h])[..|handed|] == handed;
  }

  lemma ChainSnoc(handed: seq<Handed>, h: Handed)
    requires Chained(handed) && Reached(handed, h.room) <= h.start && Reached(handed, h.room) <= h.top
    ensures Chained(handed + [h])
    ensures Tight(handed) && h.start == Reached(handed, h.room) ==> Tight(handed + [h])
  {
    hide Reached;
    var more := handed + [h];
    assert more[..|handed|] == handed;
    assert forall i :: 0 <= i < |handed| ==> more[..i] == handed[..i] && more[i] == handed[i];
  }

  /** A room with messages of its own file, and nobody else's: the overlay says how far its hand-overs
      got. */
  lemma ApartIsReached(s: State, c: Config, room: string)
    requires Receipts(s, c) && Apart(c, s.log) && RoomLog(s.log, room) != []
    ensures Effective(s, c, room) == Reached(s.handed, room)
  {
    hide Accounted, Chained, Tight, Reached;
    var f := c.file(room);
    assert CursorOf(s, c, room);
    if At(s.overlay, f) > Reached(s.handed, room) {
      assert Vouched(s, c, f);
      var h :| h in s.handed && c.file(h.room) == f && At(s.overlay, f) <= Reached(s.handed, h.room);
      ReachedWithinLog(s.handed, s.log, c.me, h.room);
      OwnFile(c, s.log, room, h.room);
      assert false;
    }
  }

  lemma OwnFile(c: Config, log: seq<Message>, r: string, r': string)
    requires Apart(c, log) && RoomLog(log, r) != [] && RoomLog(log, r') != [] && c.file(r) == c.file(r')
    ensures r == r'
  {
    var (m, m') := (RoomLog(log, r)[0], RoomLog(log, r')[0]);
    assert m in RoomLog(log, r) && m' in RoomLog(log, r');
  }

  lemma HandOverVouches(s: State, c: Config, room: string, urgentOnly: bool, h: Handed)
    requires Receipts(s, c) && c.alone && Contiguous(RoomLog(s.log, room)) && h == HandOver(s, c, room, urgentOnly).handed[|s.handed|]
    requires Reached(s.handed, room) <= h.top
    ensures forall f :: Vouched(HandOver(s, c, room, urgentOnly), c, f)
  {
    hide RoomLog, Accounted, Chained, Tight, Reached, HandOver, Contiguous, Effective;
    EffectiveIs(s, c, room);
    HandOverAccounts(s, c, room, urgentOnly);
    var t := HandOver(s, c, room, urgentOnly);
    ReachedSnoc(s.handed, h);
    forall f ensures Vouched(t, c, f) {
      assert Vouched(s, c, f);
      if At(t.overlay, f) > 0 {
        if f == c.file(room) && At(s.overlay, f) < h.top {
          assert h in t.handed && At(t.overlay, f) <= Reached(t.handed, h.room);
        } else {
          var x :| x in s.handed && c.file(x.room) == f && At(s.overlay, f) <= Reached(s.handed, x.room);
          assert x in t.handed && At(t.overlay, f) <= Reached(t.handed, x.room);
        }
      }
    }
  }

  lemma EffectiveIs(s: State, c: Config, room: string)
    requires Receipts(s, c)
    ensures Effective(s, c, room) == At(s.overlay, c.file(room)) >= Reached(s.handed, room) >= 0
  {
    hide Accounted, Chained, Tight, Reached, Vouched, Apart, RoomLog;
    assert CursorOf(s, c, room);
  }

  lemma HandOverKeepsCursors(s: State, c: Config, room: string, urgentOnly: bool, h: Handed)
    requires Cursors(s, c) && Contiguous(RoomLog(s.log, room)) && h == HandOver(s, c, room, urgentOnly).handed[|s.handed|]
    requires Reached(s.handed, room) <= h.top
    ensures Cursors(HandOver(s, c, room, urgentOnly), c)
    ensures forall r :: Effective(HandOver(s, c, room, urgentOnly), c, r) >= Effective(s, c, r)
    ensures Effective(HandOver(s, c, room, urgentOnly), c, room) >= |RoomLog(s.log, room)|
  {
    hide RoomLog, Accounted, HandOver, Reached, Contiguous;
    assert CursorOf(s, c, room);
    HandOverAccounts(s, c, room, urgentOnly);
    ReachedSnoc(s.handed, h);
    var t := HandOver(s, c, room, urgentOnly);
    forall r ensures CursorOf(t, c, r) && Effective(t, c, r) >= Effective(s, c, r) {
      assert CursorOf(s, c, r);
    }
  }

  lemma HandOverKeepsHandOvers(s: State, c: Config, room: string, urgentOnly: bool, h: Handed)
    requires Receipts(s, c) && Contiguous(RoomLog(s.log, room)) && RoomLog(s.log, room) != []
    requires h == HandOver(s, c, room, urgentOnly).handed[|s.handed|] && Reached(s.handed, room) <= h.top
    ensures HandOvers(HandOver(s, c, room, urgentOnly), c)
  {
    hide RoomLog, Accounted, Chained, HandOver, Reached, Contiguous, Tight, Vouched, Cursors, Effective;
    EffectiveIs(s, c, room);
    HandOverAccounts(s, c, room, urgentOnly);
    ChainSnoc(s.handed, h);
    if Apart(c, s.log) {
      ApartIsReached(s, c, room);
    }
  }

  lemma HandOverKeepsReceipts(s: State, c: Config, room: string, urgentOnly: bool)
    requires Receipts(s, c) && Contiguous(RoomLog(s.log, room)) && RoomLog(s.log, room) != []
    ensures Receipts(HandOver(s, c, room, urgentOnly), c)
    ensures Effective(HandOver(s, c, room, urgentOnly), c, room) >= |RoomLog(s.log, room)|
    ensures forall r :: Effective(HandOver(s, c, room, urgentOnly), c, r) >= Effective(s, c, r)
  {
    hide RoomLog, Accounted, Chained, HandOver, Reached, Contiguous, Tight, Vouched, Cursors, Effective;
    EffectiveIs(s, c, room);
    ReachedWithinLog(s.handed, s.log, c.me, room);
    HandOverAccounts(s, c, room, urgentOnly);
    var h := HandOver(s, c, room, urgentOnly).handed[|s.handed|];
    HandOverKeepsCursors(s, c, room, urgentOnly, h);
    HandOverKeepsHandOvers(s, c, room, urgentOnly, h);
    if c.alone {
      HandOverVouches(s, c, room, urgentOnly, h);
    }
  }

  lemma {:induction false} ReachedWithinLog(handed: seq<Handed>, log: seq<Message>, me: string, room: string)
    requires forall h :: h in handed ==> Accounted(RoomLog(log, h.room), me, h)
    ensures 0 <= Reached(handed, room) <= |RoomLog(log, room)|
  {
    hide Filter, Capped;
    if handed != [] {
      assert handed == handed[..|handed| - 1] + [handed[|handed| - 1]];
      ReachedWithinLog(handed[..|handed| - 1], log, me, room);
    }
  }

  lemma HandOverKeepsWatching(s: State, c: Config, room: string, urgentOnly: bool)
    requires Receipts(s, c) && Contiguous(RoomLog(s.log, room)) && RoomLog(s.log, room) != [] && Watching(s, c)
    ensures Watching(HandOver(s, c, room, urgentOnly), c)
  {
    hide RoomLog, PollWakes, MaxId, Receipts, Effective, Contiguous, HandOver;
    var t := HandOver(s, c, room, urgentOnly);
    HandOverFrame(s, c, room, urgentOnly);
    HandOverKeepsReceipts(s, c, room, urgentOnly);
    NoWakeAtTop(t, c, room);
    forall r | Skips(t, r) && r !in t.failed && t.reading != Some(r) ensures !PollWakes(t, c, r) {
      if r != room {
        FewerUnread(s, t, c, r);
      }
    }
  }

  lemma HandOverFrame(s: State, c: Config, room: string, urgentOnly: bool)
    ensures var t := HandOver(s, c, room, urgentOnly);
            t.log == s.log && t.lastMax == s.lastMax && t.reading == s.reading && t.failed == s.failed && t.urgentOnly == s.urgentOnly
  {
  }

  lemma NoWakeAtTop(s: State, c: Config, room: string)
    requires Contiguous(RoomLog(s.log, room)) && Effective(s, c, room) >= |RoomLog(s.log, room)|
    ensures !PollWakes(s, c, room)
  {
    hide Effective, RoomLog;
    NothingAboveTop(RoomLog(s.log, room), c.me, s.urgentOnly, Effective(s, c, room));
  }

  lemma DrainKeepsReceipts(s: State, c: Config, step: Step)
    requires Receipts(s, c) && step.Drain?
    ensures Receipts(Apply(s, c, step), c)
    ensures forall r :: Effective(Apply(s, c, step), c, r) == Effective(s, c, r)
  {
    hide RoomLog, Accounted, Chained, Reached, Tight, Apart;
    var t := Apply(s, c, step);
    SameHandOvers(s, t, c);
    forall r ensures CursorOf(t, c, r) && Effective(t, c, r) == Effective(s, c, r) {
      assert CursorOf(s, c, r);
    }
    forall f ensures c.alone ==> Vouched(t, c, f) {
      assert c.alone ==> Vouched(s, c, f);
    }
  }

  lemma SameHandOvers(s: State, t: State, c: Config)
    requires HandOvers(s, c) && t.log == s.log && t.handed == s.handed
    ensures HandOvers(t, c)
  {
    hide RoomLog, Accounted, Chained, Tight, Apart;
  }

  lemma ForeignKeepsReceipts(s: State, c: Config, step: Step)
    requires Receipts(s, c) && step.Foreign?
    ensures Receipts(Apply(s, c, step), c)
    ensures forall r :: Effective(Apply(s, c, step), c, r) >= Effective(s, c, r)
  {
    hide RoomLog, Accounted, Chained, Reached, Tight, Vouched, HandOvers;
    var t := Apply(s, c, step);
    SameHandOvers(s, t, c);
    forall r ensures CursorOf(t, c, r) && Effective(t, c, r) >= Effective(s, c, r) {
      assert CursorOf(s, c, r);
    }
  }

  /** Cursors only rise, and a higher cursor wakes for nothing new. */
  lemma RaisedKeepsWatching(s: State, t: State, c: Config)
    requires Watching(s, c) && t.log == s.log && t.lastMax == s.lastMax && t.failed == s.failed && t.reading == s.reading
    requires t.urgentOnly == s.urgentOnly && forall r :: Effective(t, c, r) >= Effective(s, c, r)
    ensures Watching(t, c)
  {
    hide RoomLog, PollWakes, MaxId, Effective;
    forall r | Skips(t, r) && r !in t.failed && t.reading != Some(r) ensures !PollWakes(t, c, r) {
      FewerUnread(s, t, c, r);
    }
  }

  lemma CursorKeepsInv(s: State, c: Config, step: Step)
    requires Inv(s, c) && (step.Drain? || step.Foreign?)
    ensures Inv(Apply(s, c, step), c)
  {
    hide RoomLog, MaxId, Contiguous, Receipts, Watching, Effective;
    if step.Drain? {
      DrainKeepsReceipts(s, c, step);
    } else {
      ForeignKeepsReceipts(s, c, step);
    }
    RaisedKeepsWatching(s, Apply(s, c, step), c);
  }

  lemma SameEffective(s: State, t: State, c: Config, room: string)
    requires t.db == s.db && t.overlay == s.overlay
    ensures Effective(t, c, room) == Effective(s, c, room)
  {
  }

  lemma WindowKeepsInv(s: State, c: Config, step: Step)
    requires Inv(s, c) && (step.SetDnd? || step.NewWindow? || step.Query? || step.ReadFails?)
    ensures Inv(Apply(s, c, step), c)
  {
    hide RoomLog, PollWakes, MaxId, Contiguous, Receipts, Watching;
    SameReceipts(s, Apply(s, c, step), c);
    WindowKeepsWatching(s, c, step);
  }

  lemma WindowKeepsWatching(s: State, c: Config, step: Step)
    requires Watching(s, c) && (step.SetDnd? || step.NewWindow? || step.Query? || step.ReadFails?)
    ensures Watching(Apply(s, c, step), c)
  {
    hide RoomLog, PollWakes, MaxId, Effective;
    var t := Apply(s, c, step);
    forall r | Skips(t, r) && r !in t.failed && t.reading != Some(r) ensures !PollWakes(t, c, r) {
      SameEffective(s, t, c, r);
      SamePoll(s, t, c, r);
    }
  }

  lemma ReadKeepsInv(s: State, c: Config)
    requires Inv(s, c) && s.reading.Some?
    ensures Inv(Apply(s, c, Read), c)
  {
    hide RoomLog, PollWakes, MaxId, Receipts, Contiguous, HandOver;
    var room := s.reading.value;
    var t := s.(reading := None, failed := s.failed - {room});
    SameReceipts(s, t, c);
    SamePoll(s, t, c, room);
    HandOverFrame(t, c, room, s.urgentOnly);
    if PollWakes(s, c, room) {
      SilentIfEmpty(s, c, room);
      HandOverKeepsReceipts(t, c, room, s.urgentOnly);
      var u := HandOver(t, c, room, s.urgentOnly);
      NoWakeAtTop(u, c, room);
      forall r | Skips(u, r) && r !in u.failed && u.reading != Some(r) ensures !PollWakes(u, c, r) {
        if r != room {
          FewerUnread(s, u, c, r);
        }
      }
    } else {
      forall r | Skips(t, r) && r !in t.failed ensures !PollWakes(t, c, r) {
        SamePoll(s, t, c, r);
      }
    }
  }

  lemma SilentIfEmpty(s: State, c: Config, room: string)
    ensures RoomLog(s.log, room) == [] ==> !PollWakes(s, c, room)
  {
  }

  lemma SameReceipts(s: State, t: State, c: Config)
    requires Receipts(s, c) && t.log == s.log && t.db == s.db && t.overlay == s.overlay
    requires t.spool == s.spool && t.handed == s.handed
    ensures Receipts(t, c)
  {
    hide RoomLog, Accounted, Chained, Reached, Tight, Apart, Cursors, HandOvers;
    SameHandOvers(s, t, c);
    SameCursors(s, t, c);
    forall f ensures c.alone ==> Vouched(t, c, f) {
      assert c.alone ==> Vouched(s, c, f);
    }
  }

  lemma StepKeepsInv(s: State, c: Config, step: Step)
    requires Inv(s, c)
    ensures Inv(Apply(s, c, step), c)
  {
    match step
    case Post(room, sender, target, text, urgent, ambient) =>
      hide RoomLog, Receipts, Watching, MaxId, MaxSeq, Contiguous;
      var m := Posted(s.log, room, sender, target, text, urgent, ambient);
      PostNumbers(s, c, m);
      PostKeepsReceipts(s, c, m);
      PostKeepsWatching(s, c, m);
    case Drain(_, _) => CursorKeepsInv(s, c, step);
    case Read =>
      hide RoomLog, Receipts, Watching, MaxId, HandOver;
      if s.reading.Some? {
        ReadKeepsInv(s, c);
      }
    case Recv(room) =>
      hide RoomLog, Receipts, Watching, MaxId, HandOver, Contiguous;
      if RoomLog(s.log, room) != [] {
        HandOverFrame(s, c, room, false);
        HandOverKeepsReceipts(s, c, room, false);
        HandOverKeepsWatching(s, c, room, false);
      }
    case Foreign(_) => CursorKeepsInv(s, c, step);
    case _ => WindowKeepsInv(s, c, step);
  }

  /** The invariant holds after every run, whatever the order and the drain timing. */
  lemma {:induction false} RunKeepsInv(c: Config, steps: seq<Step>)
    ensures Inv(Run(c, steps), c)
  {
    hide Apply;
    if steps == [] {
      InitInv(c);
    } else {
      RunKeepsInv(c, steps[..|steps| - 1]);
      StepKeepsInv(Run(c, steps[..|steps| - 1]), c, steps[|steps| - 1]);
    }
  }

  lemma InitInv(c: Config)
    ensures Inv(Init(), c)
  {
  }
}
