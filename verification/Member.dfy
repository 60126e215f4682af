/** The program's side of the protocol: one member's store, files and listener, updated in place.
    Each method is one step (or two, for a poll) of `Delivery`. */
module Member {
  import opened Text
  import opened Lists
  import opened Bus
  import opened Delivery

  /** The key under which a delivery is noted in the map of the rooms' maxima. */
  const SENTINEL: string := "__delivered__"

  class Session {
    const config: Config

    var log: seq<Message>
    var db: map<string, int>
    var overlay: map<string, int>
    var spool: set<(string, int)>
    var dnd: bool
    var urgentOnly: bool
    var lastMax: map<string, int>
    ghost var failed: set<string>
    var output: seq<Handed>

    constructor (config: Config)
      ensures this.config == config && View() == Init()
    {
      this.config := config;
      log, db, overlay, spool, dnd, urgentOnly, lastMax, failed, output := [], map[], map[], {}, false, false, map[], {}, [];
    }

    ghost function View(): State
      reads this
    {
      State(log, db, overlay, spool, dnd, urgentOnly, lastMax, None, failed, output)
    }

    /** Appends a message; its number is allocated in the same transaction. */
    method Post(room: string, sender: string, target: string, text: string, urgent: bool, ambient: bool)
      returns (id: int, seqNo: int)
      modifies this
      ensures View() == Apply(old(View()), config, Delivery.Post(room, sender, target, text, urgent, ambient))
      ensures (id, seqNo) == (|old(log)| + 1, MaxSeq(RoomLog(old(log), room)) + 1)
    {
      id := |log| + 1;
      seqNo := MaxSeq(RoomLog(log, room)) + 1;
      log := log + [Message(id, room, seqNo, sender, target, text, urgent, ambient)];
    }

    method SetDnd(on: bool)
      modifies this
      ensures View() == Apply(old(View()), config, Delivery.SetDnd(on))
    {
      dnd := on;
    }

    /** A re-arm: DND is read afresh and no room's maximum is remembered. */
    method NewWindow()
      modifies this
      ensures View() == Apply(old(View()), config, Delivery.NewWindow)
    {
      urgentOnly := config.urgentOnlyOverride || dnd;
      lastMax := map[];
      failed := {};
    }

    /** The daemon applies a spooled receipt: the database cursor only moves forward. */
    method DrainReceipt(room: string, cursor: int)
      requires (room, cursor) in spool
      modifies this
      ensures View() == Apply(old(View()), config, Drain(room, cursor))
    {
      if At(db, room) < cursor {
        db := db[room := cursor];
      }
    }

    method RecordPendingCursor(room: string, top: int)
      modifies this`overlay
      ensures overlay == Recorded(old(overlay), config.file(room), top)
    {
      var file := config.file(room);
      if At(overlay, file) < top {
        overlay := overlay[file := top];
      }
    }

    /** The database, or a not yet drained advance, whichever is further along. */
    function EffectiveCursor(room: string): (cursor: int)
      reads this
      ensures cursor == Effective(View(), config, room)
      ensures cursor >= At(db, room) && cursor >= At(overlay, config.file(room))
    {
      var (stored, pending) := (At(db, room), At(overlay, config.file(room)));
      if stored > pending then stored else pending
    }

    /** Hands over what is unseen, spools the receipt and records it locally. */
    method Deliver(room: string, msgs: seq<Message>, hits: seq<Message>, onlyUrgent: bool)
      requires msgs == RoomLog(log, room)
      requires hits == Unseen(View(), config, room, onlyUrgent)
      modifies this
      ensures View() == HandOver(old(View()), config, room, onlyUrgent)
    {
      var start := EffectiveCursor(room);
      var given, skipped := CapBacklog(hits, BACKLOG_MAX_DELIVER);
      var top := MaxSeq(msgs);
      output := output + [Handed(room, start, top, onlyUrgent, given, skipped)];
      spool := spool + {(room, top)};
      RecordPendingCursor(room, top);
    }

    /** One room of one poll. `readOk` is false when the read of the messages errors. */
    method PollRoom(room: string, readOk: bool) returns (delivered: bool, errored: bool)
      modifies this
      ensures View() == if Skips(old(View()), room) then old(View())
                        else Apply(Apply(old(View()), config, Query(room)), config, if readOk then Read else ReadFails)
      ensures delivered <==> !Skips(old(View()), room) && readOk && PollWakes(old(View()), config, room)
      ensures errored <==> !Skips(old(View()), room) && !readOk
    {
      hide RoomLog, MaxId, MaxSeq, Unread, AddressedTo, UnreadFor, Capped;
      var msgs := RoomLog(log, room);
      var curMax := MaxId(msgs);
      if room in lastMax && lastMax[room] == curMax {
        return false, false;
      }
      lastMax := lastMax[room := curMax];
      if !readOk {
        failed := failed + {room};
        return false, true;
      }
      failed := failed - {room};
      var cursor := EffectiveCursor(room);
      var hits := UnreadFor(msgs, cursor, config.me, urgentOnly);
      if !AnyWakes(hits, config.me, config.broadcastWakes) {
        return false, false;
      }
      Deliver(room, msgs, hits, urgentOnly);
      return true, false;
    }

    /** One pass over the listened rooms.  The caller looks for the key of `SENTINEL` among the rooms'
        maxima, where a delivery puts it, and so would the poll of a room of that name.  A pass that does
        not stop leaves no room that would wake the member, except one whose read errored.  One that stops
        has delivered, unless a room of that name was polled; and polling such a room does stop a pass,
        with nothing handed over if no room wakes. */
    method PollOnce(targets: seq<string>, readOk: seq<bool>) returns (stop: bool)
      requires |readOk| == |targets| && Inv(View(), config)
      modifies this
      ensures Inv(View(), config)
      ensures !stop ==> forall r :: r in targets ==> r in failed || !PollWakes(View(), config, r)
      ensures stop ==> |output| == |old(output)| + 1 || SENTINEL in lastMax
      ensures SENTINEL !in targets && SENTINEL !in old(lastMax) ==> (stop <==> |output| == |old(output)| + 1)
      ensures SENTINEL in targets && (forall ok :: ok in readOk ==> ok) ==> stop
      ensures (forall r :: r in targets ==> !PollWakes(old(View()), config, r)) ==> output == old(output)
    {
      hide Apply, PollWakes, Receipts, RoomLog, MaxId, Contiguous, Effective;
      var i := 0;
      while i < |targets|
        invariant 0 <= i <= |targets| && Inv(View(), config) && |output| == |old(output)|
        invariant SENTINEL !in targets && SENTINEL !in old(lastMax) ==> SENTINEL !in lastMax
        invariant forall r :: r in targets[..i] ==> Skips(View(), r)
        invariant (forall ok :: ok in readOk ==> ok) ==> SENTINEL !in targets[..i]
        invariant (forall r :: r in targets ==> !PollWakes(old(View()), config, r)) ==> SameUnread(old(View()), View())
      {
        label before:
        assert targets[i] in targets && readOk[i] in readOk;
        if forall r :: r in targets ==> !PollWakes(old(View()), config, r) {
          QuietPoll(old(View()), View(), config, targets[i], readOk[i]);
        }
        var delivered, errored := PollRoom(targets[i], readOk[i]);
        PollKeeps(old@before(View()), config, targets[i], readOk[i], targets[..i]);
        PollCounts(old@before(View()), config, targets[i], readOk[i]);
        if !errored && (delivered || SENTINEL in lastMax) {
          return true;
        }
        assert targets[..i + 1] == targets[..i] + [targets[i]];
        i := i + 1;
      }
      assert targets[..|targets|] == targets;
      stop := false;
    }

    /** `recv`: everything unread is handed over, ambient traffic included, whatever DND says. */
    method Recv(room: string)
      modifies this
      ensures View() == Apply(old(View()), config, Delivery.Recv(room))
    {
      hide RoomLog, MaxSeq, UnreadFor, Capped;
      var msgs := RoomLog(log, room);
      if msgs == [] {
        return;
      }
      var cursor := EffectiveCursor(room);
      var hits := UnreadFor(msgs, cursor, config.me, false);
      Deliver(room, msgs, hits, false);
    }
  }

  lemma PollKeeps(s: State, c: Config, room: string, readOk: bool, others: seq<string>)
    requires Inv(s, c) && s.reading.None? && forall r :: r in others ==> Skips(s, r)
    ensures var t := if Skips(s, room) then s else Apply(Apply(s, c, Query(room)), c, if readOk then Read else ReadFails);
            Inv(t, c) && t.reading.None? && forall r :: r in others + [room] ==> Skips(t, r)
  {
    hide PollWakes, Receipts, RoomLog, MaxId, Contiguous, HandOver, Watching;
    if !Skips(s, room) {
      var q := Apply(s, c, Query(room));
      StepKeepsInv(s, c, Query(room));
      StepKeepsInv(q, c, if readOk then Read else ReadFails);
      HandOverFrame(q.(reading := None, failed := q.failed - {room}), c, room, q.urgentOnly);
    }
  }

  lemma PollCounts(s: State, c: Config, room: string, readOk: bool)
    requires s.reading.None?
    ensures var t := if Skips(s, room) then s else Apply(Apply(s, c, Query(room)), c, if readOk then Read else ReadFails);
            && |t.handed| == |s.handed| + (if !Skips(s, room) && readOk && PollWakes(s, c, room) then 1 else 0)
            && t.lastMax.Keys <= s.lastMax.Keys + {room}
  {
    hide RoomLog, MaxId, MaxSeq, PollWakes, Unseen, Effective;
    if !Skips(s, room) {
      var q := Apply(s, c, Query(room));
      SameEffective(s, q, c, room);
      SamePoll(s, q, c, room);
    }
  }

  ghost predicate SameUnread(s: State, t: State) {
    t.log == s.log && t.db == s.db && t.overlay == s.overlay && t.urgentOnly == s.urgentOnly && t.handed == s.handed
  }

  /** Polling a room that would not wake hands over nothing. */
  lemma QuietPoll(before: State, s: State, c: Config, room: string, readOk: bool)
    requires SameUnread(before, s) && s.reading.None? && !PollWakes(before, c, room)
    ensures var t := if Skips(s, room) then s else Apply(Apply(s, c, Query(room)), c, if readOk then Read else ReadFails);
            SameUnread(before, t)
    ensures !PollWakes(s, c, room)
  {
    hide RoomLog, MaxId, MaxSeq, PollWakes, Unseen, Effective;
    SameEffective(before, s, c, room);
    SamePoll(before, s, c, room);
    if !Skips(s, room) {
      var q := Apply(s, c, Query(room));
      SameEffective(s, q, c, room);
      SamePoll(s, q, c, room);
    }
  }
}
