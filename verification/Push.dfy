/** The in-memory push registry: a second delivery path that wakes listeners at post time. */
module Push {
  import opened Text
  import opened Lists
  import opened Bus

  /** The two ends of one listener's channel: `open` until its receiver hangs up. */
  class Channel {
    var open: bool
    var queue: seq<Message>

    constructor ()
      ensures open && queue == []
    {
      open := true;
      queue := [];
    }

    method HangUp()
      modifies this
      ensures !open && queue == old(queue)
    {
      open := false;
    }

    method Send(m: Message) returns (ok: bool)
      modifies this
      ensures ok == old(open) == open
      ensures queue == if ok then old(queue) + [m] else old(queue)
    {
      ok := open;
      if ok {
        queue := queue + [m];
      }
    }
  }

  datatype Listener = Listener(name: string, rooms: seq<string>, urgentOnly: bool, tx: Channel)

  /** A registered listener and what its channel holds, as a value. */
  datatype Sub = Sub(name: string, rooms: seq<string>, urgentOnly: bool, open: bool, received: seq<Message>)

  /** Is `m` one the registry sends to this listener? */
  predicate Sends(name: string, rooms: seq<string>, urgentOnly: bool, m: Message, broadcastWakes: bool) {
    && m.room in rooms
    && WakesListener(m, name, broadcastWakes)
    && (urgentOnly ==> Exempt(m))
  }

  predicate Wants(s: Sub, m: Message, broadcastWakes: bool) {
    Sends(s.name, s.rooms, s.urgentOnly, m, broadcastWakes)
  }

  // ---- publishing, as a function of the registry's contents -------------------------------

  ghost function Reached(subs: map<nat, Sub>, m: Message, broadcastWakes: bool): set<nat> {
    set id | id in subs && Wants(subs[id], m, broadcastWakes) && subs[id].open
  }

  ghost function Gone(subs: map<nat, Sub>, m: Message, broadcastWakes: bool): set<nat> {
    set id | id in subs && Wants(subs[id], m, broadcastWakes) && !subs[id].open
  }

  ghost function Receive(s: Sub, m: Message, sent: bool): Sub {
    if sent then s.(received := s.received + [m]) else s
  }

  /** Every open listener that wants `m` receives it; hung-up ones that want it are dropped. */
  ghost function Published(subs: map<nat, Sub>, m: Message, broadcastWakes: bool): map<nat, Sub> {
    map id | id in subs && id !in Gone(subs, m, broadcastWakes) ::
      Receive(subs[id], m, id in Reached(subs, m, broadcastWakes))
  }

  /** What the loop has counted once the listeners in `done` have been offered `m`. */
  ghost predicate Counted(subs: map<nat, Sub>, m: Message, broadcastWakes: bool, done: set<nat>, woken: int, dead: set<nat>) {
    && woken == |Reached(subs, m, broadcastWakes) * done|
    && dead == Gone(subs, m, broadcastWakes) * done
  }

  lemma CountOne(subs: map<nat, Sub>, m: Message, broadcastWakes: bool, done: set<nat>, woken: int, dead: set<nat>, id: nat)
    requires Counted(subs, m, broadcastWakes, done, woken, dead) && id !in done
    ensures Counted(subs, m, broadcastWakes, done + {id},
                    woken + (if id in Reached(subs, m, broadcastWakes) then 1 else 0),
                    dead + if id in Gone(subs, m, broadcastWakes) then {id} else {})
  {
    hide Reached, Gone;
    Meet(Reached(subs, m, broadcastWakes), done, id);
    Meet(Gone(subs, m, broadcastWakes), done, id);
  }

  lemma Meet(all: set<nat>, done: set<nat>, id: nat)
    requires id !in done
    ensures all * (done + {id}) == (all * done) + if id in all then {id} else {}
    ensures |all * (done + {id})| == |all * done| + if id in all then 1 else 0
  {
    assert all * (done + {id}) == (all * done) + if id in all then {id} else {};
  }

  lemma CountAll(subs: map<nat, Sub>, m: Message, broadcastWakes: bool, done: set<nat>, woken: int, dead: set<nat>)
    requires Counted(subs, m, broadcastWakes, done, woken, dead) && done == subs.Keys
    ensures woken == |Reached(subs, m, broadcastWakes)| && dead == Gone(subs, m, broadcastWakes)
  {
    assert Reached(subs, m, broadcastWakes) * done == Reached(subs, m, broadcastWakes);
  }

  class Registry {
    var nextId: nat
    var listeners: map<nat, Listener>
    ghost var channels: set<Channel>

    constructor ()
      ensures Valid() && View() == map[] && nextId == 0 && channels == {}
    {
      nextId := 0;
      listeners := map[];
      channels := {};
    }

    /** Ids are never reused, and no two listeners share a channel. */
    ghost predicate Valid()
      reads this
    {
      && (forall id :: id in listeners ==> 1 <= id <= nextId && listeners[id].tx in channels)
      && (forall i, j :: i in listeners && j in listeners && i != j ==> listeners[i].tx != listeners[j].tx)
    }

    ghost function View(): map<nat, Sub>
      requires Valid()
      reads this, channels
    {
      map id | id in listeners :: SubOf(listeners[id])
    }

    method Subscribe(name: string, rooms: seq<string>, urgentOnly: bool) returns (id: nat, rx: Channel)
      requires Valid()
      modifies this
      ensures Valid() && fresh(rx) && id in listeners && listeners[id].tx == rx && channels == old(channels) + {rx}
      ensures nextId == old(nextId) + 1 == id && id !in old(listeners)
      ensures View() == old(View())[id := Sub(name, rooms, urgentOnly, true, [])]
      ensures Follows(old(nextId), old(View()), nextId, View(), Subscribing(name, rooms, urgentOnly))
    {
      hide WakesListener, Follows;
      ghost var (n, before) := (nextId, View());
      id, rx := Insert(name, rooms, urgentOnly);
      SubscribingFollows(n, before, name, rooms, urgentOnly);
    }

    method Insert(name: string, rooms: seq<string>, urgentOnly: bool) returns (id: nat, rx: Channel)
      requires Valid()
      modifies this
      ensures Valid() && fresh(rx) && id in listeners && listeners[id].tx == rx && channels == old(channels) + {rx}
      ensures nextId == old(nextId) + 1 == id && id !in old(listeners)
      ensures View() == old(View())[id := Sub(name, rooms, urgentOnly, true, [])]
    {
      hide WakesListener;
      rx := new Channel();
      nextId := nextId + 1;
      id := nextId;
      listeners := listeners[id := Listener(name, rooms, urgentOnly, rx)];
      channels := channels + {rx};
    }

    method Unsubscribe(id: nat)
      requires Valid()
      modifies this
      ensures Valid() && nextId == old(nextId)
      ensures View() == old(View()) - {id}
      ensures Follows(old(nextId), old(View()), nextId, View(), Unsubscribing(id))
    {
      listeners := listeners - {id};
    }

    /** The receiving end of a listener is dropped. */
    method HangUp(id: nat)
      requires Valid() && id in listeners
      modifies listeners[id].tx
      ensures Valid() && nextId == old(nextId)
      ensures View() == old(View())[id := old(View())[id].(open := false)]
      ensures Follows(old(nextId), old(View()), nextId, View(), HangingUp(id))
    {
      hide WakesListener, Do;
      ghost var before := View();
      listeners[id].tx.HangUp();
      assert View() == before[id := before[id].(open := false)];
      HangingUpFollows(nextId, before, id);
    }

    /** Whether some listener of that name is registered; its channel may have been hung up since. */
    method HasListener(name: string) returns (yes: bool)
      ensures yes <==> exists id :: id in listeners && listeners[id].name == name
    {
      var rest := listeners.Keys;
      while rest != {}
        invariant rest <= listeners.Keys
        invariant forall id :: id in listeners && id !in rest ==> listeners[id].name != name
      {
        var id :| id in rest;
        if listeners[id].name == name {
          return true;
        }
        rest := rest - {id};
      }
      yes := false;
    }

    /** The listeners in `done` have been offered `m`; the channels of the others are untouched. */
    ghost predicate Offered(before: map<nat, Sub>, m: Message, broadcastWakes: bool, done: set<nat>)
      requires Valid()
      reads this, channels
    {
      && before.Keys == listeners.Keys
      && forall id :: id in listeners ==>
           SubOf(listeners[id]) == Receive(before[id], m, id in done && id in Reached(before, m, broadcastWakes))
    }

    lemma NothingOffered(m: Message, broadcastWakes: bool)
      requires Valid()
      ensures Offered(View(), m, broadcastWakes, {}) && Counted(View(), m, broadcastWakes, {}, 0, {})
      ensures View().Keys == listeners.Keys
    {
      hide Reached, Gone;
    }

    /** One listener of the loop: sent to if it wants `m` and is open, found dead if it has hung up. */
    method Offer(id: nat, m: Message, broadcastWakes: bool, ghost before: map<nat, Sub>, ghost done: set<nat>)
      returns (sent: bool, hungUp: bool)
      requires Valid() && id in listeners && id !in done && Offered(before, m, broadcastWakes, done)
      modifies channels
      ensures Offered(before, m, broadcastWakes, done + {id})
      ensures sent <==> id in Reached(before, m, broadcastWakes)
      ensures hungUp <==> id in Gone(before, m, broadcastWakes)
    {
      hide Sends, Reached, Gone;
      Decided(before, m, broadcastWakes, id);
      sent, hungUp := false, false;
      var l := listeners[id];
      assert SubOf(l) == before[id];
      if Sends(l.name, l.rooms, l.urgentOnly, m, broadcastWakes) {
        sent := l.tx.Send(m);
        hungUp := !sent;
      }
      assert forall i :: i in listeners && i != id ==> listeners[i].tx != l.tx;
    }

    /** The loop over the listeners, in any order. */
    method SendAll(m: Message, broadcastWakes: bool) returns (woken: nat, dead: set<nat>)
      requires Valid()
      modifies channels
      ensures dead == Gone(old(View()), m, broadcastWakes)
      ensures woken == |Reached(old(View()), m, broadcastWakes)|
      ensures Offered(old(View()), m, broadcastWakes, listeners.Keys)
    {
      hide Valid, Offered, Counted, View, Reached, Gone;
      ghost var before := View();
      NothingOffered(m, broadcastWakes);
      ghost var done: set<nat> := {};
      dead := {};
      woken := 0;
      var todo := listeners.Keys;
      while todo != {}
        invariant todo <= listeners.Keys && done == listeners.Keys - todo
        invariant Counted(before, m, broadcastWakes, done, woken, dead)
        invariant Valid() && Offered(before, m, broadcastWakes, done)
        decreases todo
      {
        var id :| id in todo;
        var sent, hungUp := Offer(id, m, broadcastWakes, before, done);
        CountOne(before, m, broadcastWakes, done, woken, dead, id);
        woken := woken + if sent then 1 else 0;
        dead := dead + if hungUp then {id} else {};
        todo := todo - {id};
        done := done + {id};
      }
      assert done == listeners.Keys;
      CountAll(before, m, broadcastWakes, done, woken, dead);
    }

    /** Sends `m` to every listener it should wake and drops the hung-up ones among them. */
    method Publish(m: Message, broadcastWakes: bool) returns (woken: nat)
      requires Valid()
      modifies this, channels
      ensures Valid() && nextId == old(nextId)
      ensures View() == Published(old(View()), m, broadcastWakes)
      ensures woken == |Reached(old(View()), m, broadcastWakes)|
      ensures forall id :: id in old(View()) && id !in View()
                <==> id in old(View()) && Wants(old(View())[id], m, broadcastWakes) && !old(View())[id].open
      ensures Follows(old(nextId), old(View()), nextId, View(), Publishing(m, broadcastWakes))
    {
      hide Receive, Reached, Gone, Published, Wants, Do;
      ghost var before := View();
      var dead: set<nat>;
      woken, dead := SendAll(m, broadcastWakes);
      listeners := listeners - dead;
      PublishedFrom(before, View(), m, broadcastWakes);
      PublishedDrops(before, m, broadcastWakes);
      PublishingFollows(nextId, before, m, broadcastWakes);
    }
  }

  lemma PublishedFrom(before: map<nat, Sub>, after: map<nat, Sub>, m: Message, broadcastWakes: bool)
    requires after.Keys == before.Keys - Gone(before, m, broadcastWakes)
    requires forall id :: id in after ==> after[id] == Receive(before[id], m, id in Reached(before, m, broadcastWakes))
    ensures after == Published(before, m, broadcastWakes)
  {
    hide Receive, Reached, Gone;
  }

  /** `Published` drops a listener exactly when it wanted the message and had hung up. */
  lemma PublishedDrops(subs: map<nat, Sub>, m: Message, broadcastWakes: bool)
    ensures forall id :: id in subs && id !in Published(subs, m, broadcastWakes)
              <==> id in subs && Wants(subs[id], m, broadcastWakes) && !subs[id].open
  {
    hide Wants;
  }

  lemma Decided(subs: map<nat, Sub>, m: Message, broadcastWakes: bool, id: nat)
    requires id in subs
    ensures id in Reached(subs, m, broadcastWakes) <==> Wants(subs[id], m, broadcastWakes) && subs[id].open
    ensures id in Gone(subs, m, broadcastWakes) <==> Wants(subs[id], m, broadcastWakes) && !subs[id].open
  {
    hide Wants;
  }

  ghost function SubOf(l: Listener): Sub
    reads l.tx
  {
    Sub(l.name, l.rooms, l.urgentOnly, l.tx.open, l.tx.queue)
  }

  // ---- runs -------------------------------------------------------------------------------

  datatype Op =
    | Subscribing(name: string, rooms: seq<string>, urgentOnly: bool)
    | Unsubscribing(id: nat)
    | HangingUp(id: nat)
    | Publishing(m: Message, broadcastWakes: bool)

  /** `history` lists everything published, `since` where in it each listener joined. */
  datatype Reg = Reg(nextId: nat, subs: map<nat, Sub>, history: seq<Op>, since: map<nat, nat>)

  ghost function Do(r: Reg, op: Op): Reg {
    match op
    case Subscribing(name, rooms, urgentOnly) =>
      var id := r.nextId + 1;
      Reg(id, r.subs[id := Sub(name, rooms, urgentOnly, true, [])], r.history, r.since[id := |r.history|])
    case Unsubscribing(id) => r.(subs := r.subs - {id})
    case HangingUp(id) => if id in r.subs then r.(subs := r.subs[id := r.subs[id].(open := false)]) else r
    case Publishing(m, broadcastWakes) =>
      r.(subs := Published(r.subs, m, broadcastWakes), history := r.history + [op])
  }

  /** The registry's own state moves as `Do` says, whatever was published before. */
  ghost predicate Follows(n: nat, before: map<nat, Sub>, n': nat, after: map<nat, Sub>, op: Op) {
    forall r: Reg :: r.nextId == n && r.subs == before ==> Do(r, op).nextId == n' && Do(r, op).subs == after
  }

  lemma SubscribingFollows(n: nat, before: map<nat, Sub>, name: string, rooms: seq<string>, urgentOnly: bool)
    ensures Follows(n, before, n + 1, before[n + 1 := Sub(name, rooms, urgentOnly, true, [])], Subscribing(name, rooms, urgentOnly))
  {
  }

  lemma HangingUpFollows(n: nat, before: map<nat, Sub>, id: nat)
    requires id in before
    ensures Follows(n, before, n, before[id := before[id].(open := false)], HangingUp(id))
  {
  }

  lemma PublishingFollows(n: nat, before: map<nat, Sub>, m: Message, broadcastWakes: bool)
    ensures Follows(n, before, n, Published(before, m, broadcastWakes), Publishing(m, broadcastWakes))
  {
    hide Published;
  }

  ghost function DoAll(ops: seq<Op>): Reg {
    if ops == [] then Reg(0, map[], [], map[]) else Do(DoAll(ops[..|ops| - 1]), ops[|ops| - 1])
  }

  /** The messages of `history` that a listener wants, in publish order. */
  ghost function Wanted(history: seq<Op>, s: Sub): seq<Message> {
    if history == [] then []
    else
      var (init, last) := (history[..|history| - 1], history[|history| - 1]);
      Wanted(init, s) + if last.Publishing? && Wants(s, last.m, last.broadcastWakes) then [last.m] else []
  }

  ghost predicate UpToDate(r: Reg) {
    && (forall id :: id in r.subs ==> 1 <= id <= r.nextId && id in r.since && r.since[id] <= |r.history|)
    && (forall id :: id in r.subs && r.subs[id].open ==>
          r.subs[id].received == Wanted(r.history[r.since[id]..], r.subs[id]))
  }

  lemma WantedSnoc(history: seq<Op>, since: nat, op: Op, s: Sub)
    requires since <= |history| && op.Publishing?
    ensures Wanted((history + [op])[since..], s)
         == Wanted(history[since..], s) + if Wants(s, op.m, op.broadcastWakes) then [op.m] else []
  {
    assert (history + [op])[since..] == history[since..] + [op];
    assert (history[since..] + [op])[..|history| - since] == history[since..];
  }

  lemma {:induction false} WantedSame(history: seq<Op>, s: Sub, t: Sub)
    requires s.name == t.name && s.rooms == t.rooms && s.urgentOnly == t.urgentOnly
    ensures Wanted(history, s) == Wanted(history, t)
  {
    if history != [] {
      WantedSame(history[..|history| - 1], s, t);
    }
  }

  lemma DoKeepsUpToDate(r: Reg, op: Op)
    requires UpToDate(r)
    ensures UpToDate(Do(r, op))
  {
    hide Wants, Wanted;
    var t := Do(r, op);
    forall id | id in t.subs && t.subs[id].open
      ensures t.subs[id].received == Wanted(t.history[t.since[id]..], t.subs[id])
    {
      if op.Publishing? {
        WantedSnoc(r.history, r.since[id], op, r.subs[id]);
        WantedSame(t.history[t.since[id]..], r.subs[id], t.subs[id]);
        assert r.subs[id].received + [] == r.subs[id].received;
      } else if op.Subscribing? && id == t.nextId {
        assert t.history[|t.history|..] == [];
        WantedNothing(t.subs[id]);
      }
    }
  }

  lemma WantedNothing(s: Sub)
    ensures Wanted([], s) == []
  {
  }

  /** Over any run, a registered open listener has received exactly the messages published since it
      subscribed that match its rooms, the wake rule and DND, in publish order. */
  lemma {:induction false} ListenersAreUpToDate(ops: seq<Op>)
    ensures UpToDate(DoAll(ops))
  {
    hide Do;
    if ops != [] {
      ListenersAreUpToDate(ops[..|ops| - 1]);
      DoKeepsUpToDate(DoAll(ops[..|ops| - 1]), ops[|ops| - 1]);
    }
  }

  // ---- the two delivery paths -------------------------------------------------------------

  /** The polling path wakes on exactly those sent messages that are unread, not the member's own,
      and addressed to them: the registry also sends urgent messages meant for someone else. */
  lemma PollWakesIff(m: Message, cursor: int, name: string, rooms: seq<string>, urgentOnly: bool, broadcastWakes: bool)
    requires m.room in rooms
    ensures Sends(name, rooms, urgentOnly, m, broadcastWakes)
       <==> WakesListener(m, name, broadcastWakes) && (urgentOnly ==> m.urgent || m.sender == OPERATOR)
    ensures Unread(m, cursor, name, urgentOnly) && WakesListener(m, name, broadcastWakes)
       <==> && Sends(name, rooms, urgentOnly, m, broadcastWakes)
            && m.seqNo > cursor && m.sender != name && AddressedTo(m.target, name)
  {
    hide AddressedTo, WakesListener;
  }

  /** Whenever a poll of a room would wake, some message it read is one `publish` sends. */
  lemma PolledWakeIsPushed(msgs: seq<Message>, cursor: int, name: string, rooms: seq<string>, urgentOnly: bool,
                           broadcastWakes: bool)
    requires forall m :: m in msgs ==> m.room in rooms
    requires AnyWakes(UnreadFor(msgs, cursor, name, urgentOnly), name, broadcastWakes)
    ensures exists m :: m in msgs && Sends(name, rooms, urgentOnly, m, broadcastWakes)
  {
    hide AddressedTo, WakesListener;
    var m :| m in UnreadFor(msgs, cursor, name, urgentOnly) && WakesListener(m, name, broadcastWakes);
    PollWakesIff(m, cursor, name, rooms, urgentOnly, broadcastWakes);
  }

  /** And not the other way round: an urgent message to someone else is pushed to every listener of
      the room, while a poll does not wake for it. */
  lemma PushReachesMore(m: Message, name: string, cursor: int)
    requires m.urgent && !AddressedTo(m.target, name)
    ensures Sends(name, [m.room], false, m, false)
    ensures !AnyWakes(UnreadFor([m], cursor, name, false), name, false)
  {
    hide AddressedTo;
  }
}
