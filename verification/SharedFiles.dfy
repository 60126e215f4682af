/** Rooms, and members, whose overlay goes to one file: what is lost, and exactly when nothing is. */
module SharedFiles {
  import opened Text
  import opened Lists
  import opened Bus
  import opened Delivery
  import opened DeliveryRuns

  // ---- file names -------------------------------------------------------------------------

  predicate FileChar(c: char) {
    'a' <= c <= 'z' || 'A' <= c <= 'Z' || '0' <= c <= '9' || c == '_' || c == '.' || c == '-'
  }

  function Masked(s: string): (r: string)
    ensures |r| == |s| && forall i :: 0 <= i < |s| ==> r[i] == if FileChar(s[i]) then s[i] else '_'
  {
    seq(|s|, i requires 0 <= i < |s| => if FileChar(s[i]) then s[i] else '_')
  }

  function StripDots(s: string): string {
    if s == [] then []
    else if s[0] == '.' then StripDots(s[1..])
    else if s[|s| - 1] == '.' then StripDots(s[..|s| - 1])
    else s
  }

  /** The name a room's or a handle's file gets. */
  function FsSafe(name: string): string {
    var s := StripDots(Masked(Trim(name)));
    if s == [] then "anon" else s
  }

  lemma SlashAndUnderscore()
    ensures FsSafe("a/b") == "a_b" == FsSafe("a_b")
  {
    hide Trim;
    TrimIsTrimmed("a/b");
    TrimIsTrimmed("a_b");
    assert Masked("a/b") == "a_b" && Masked("a_b") == "a_b";
  }

  // ---- losing a message -------------------------------------------------------------------

  /** An urgent message to all, from somebody else. */
  ghost function Urgent(c: Config, room: string): Step {
    Post(room, c.me + "!", ALL, "", true, false)
  }

  ghost function UrgentMessage(c: Config, id: nat, room: string): Message {
    Message(id, room, 1, c.me + "!", ALL, "", true, false)
  }

  ghost predicate LosesNothing(c: Config, s: State) {
    forall room, m :: m in RoomLog(s.log, room) && ForMe(m, c.me) && m.seqNo <= Effective(s, c, room) ==> Cared(c, s, room, m)
  }

  ghost predicate Uses(steps: seq<Step>, rooms: set<string>) {
    forall st :: st in steps && st.Post? ==> st.room in rooms
  }

  lemma UrgentIsForMe(c: Config, id: nat, room: string)
    ensures ForMe(UrgentMessage(c, id, room), c.me) && Exempt(UrgentMessage(c, id, room))
  {
    hide Trim, Split;
    TrimIsTrimmed(ALL);
    assert |c.me + "!"| == |c.me| + 1;
  }

  /** The first message of a room. */
  lemma PostFirst(s: State, c: Config, room: string)
    requires RoomLog(s.log, room) == []
    ensures var m := UrgentMessage(c, |s.log| + 1, room);
            && Apply(s, c, Urgent(c, room)) == s.(log := s.log + [m])
            && RoomLog(s.log + [m], room) == [m]
  {
    RoomLogPost(s.log, UrgentMessage(c, |s.log| + 1, room));
  }

  /** Such a message is lost if the cursor was beyond it and nothing of its room was handed over. */
  lemma IsLost(c: Config, s: State, id: nat, room: string)
    requires RoomLog(s.log, room) == [UrgentMessage(c, id, room)] && Effective(s, c, room) >= 1
    requires forall h :: h in s.handed ==> h.room != room
    ensures !LosesNothing(c, s)
  {
    hide RoomLog, Effective, ForMe, Exempt;
    var m := UrgentMessage(c, id, room);
    UrgentIsForMe(c, id, room);
    NothingGiven(s.handed, room);
    assert m in RoomLog(s.log, room) && !Cared(c, s, room, m);
  }

  lemma {:induction false} NothingGiven(handed: seq<Handed>, room: string)
    requires forall h :: h in handed ==> h.room != room
    ensures Given(handed, room) == []
  {
    if handed != [] {
      assert forall h :: h in handed[..|handed| - 1] ==> h in handed;
      NothingGiven(handed[..|handed| - 1], room);
    }
  }

  /** A hand-over of one room moves the cursor of another past its first message. */
  ghost function TwoRooms(c: Config, r: string, r': string): seq<Step> {
    [Urgent(c, r), Recv(r), Urgent(c, r')]
  }

  lemma TwoRoomsLose(c: Config, r: string, r': string)
    requires r != r' && c.file(r) == c.file(r')
    ensures !LosesNothing(c, Run(c, TwoRooms(c, r, r')))
  {
    hide Run, LosesNothing, RoomLog, HandOver, Effective;
    var (m, m') := (UrgentMessage(c, 1, r), UrgentMessage(c, 2, r'));
    var steps := TwoRooms(c, r, r');
    assert RoomLog([], r) == [] by { NoMessages(r); }
    assert Run(c, []) == Init() by { NoSteps(c); }
    RunSnoc(c, [], steps[0]);
    RunSnoc(c, [steps[0]], steps[1]);
    RunSnoc(c, [steps[0], steps[1]], steps[2]);
    assert [] + [steps[0]] == [steps[0]] && [steps[0]] + [steps[1]] == [steps[0], steps[1]] && [steps[0], steps[1]] + [steps[2]] == steps;
    PostFirst(Init(), c, r);
    assert [] + [m] == [m];
    var one := Init().(log := [m]);
    assert Run(c, [steps[0]]) == one;
    var two := HandOver(one, c, r, false);
    OneHandOver(one, c, r);
    assert RoomLog([m], r') == [] by { OtherRoom(m, r'); }
    PostFirst(two, c, r');
    var three := two.(log := [m] + [m']);
    assert Run(c, steps) == three;
    SharedCursor(two, three, c, r, r');
    IsLost(c, three, 2, r');
  }

  lemma NoMessages(room: string)
    ensures RoomLog([], room) == []
  {
  }

  lemma NoSteps(c: Config)
    ensures Run(c, []) == Init()
  {
  }

  lemma OtherRoom(m: Message, room: string)
    requires m.room != room
    ensures RoomLog([m], room) == []
  {
    RoomLogPost([], m);
    NoMessages(room);
    assert [] + [m] == [m];
  }

  lemma OneHandOver(s: State, c: Config, room: string)
    requires |RoomLog(s.log, room)| == 1 && RoomLog(s.log, room)[0].seqNo == 1 && s.handed == [] && s.overlay == map[] && s.db == map[]
    ensures var t := HandOver(s, c, room, false);
            t.log == s.log && |t.handed| == 1 && t.handed[0].room == room && At(t.overlay, c.file(room)) == 1
  {
    hide Unseen, RoomLog;
    assert RoomLog(s.log, room)[..0] == [];
    assert MaxSeq(RoomLog(s.log, room)) == 1;
  }

  lemma SharedCursor(s: State, t: State, c: Config, r: string, r': string)
    requires t.overlay == s.overlay && At(s.overlay, c.file(r)) == 1 && c.file(r') == c.file(r)
    ensures Effective(t, c, r') >= 1
  {
  }

  /** Another member reads the room first, and the receipt goes to the file both use. */
  ghost function OtherMember(c: Config, room: string): seq<Step> {
    [Urgent(c, room), Foreign(room)]
  }

  lemma OtherMemberLoses(c: Config, room: string)
    requires !c.alone
    ensures !LosesNothing(c, Run(c, OtherMember(c, room)))
  {
    hide Run, LosesNothing, RoomLog, Effective;
    var (m, steps) := (UrgentMessage(c, 1, room), OtherMember(c, room));
    assert RoomLog([], room) == [] by { NoMessages(room); }
    assert Run(c, []) == Init() by { NoSteps(c); }
    RunSnoc(c, [], steps[0]);
    RunSnoc(c, [steps[0]], steps[1]);
    assert [] + [steps[0]] == [steps[0]] && [steps[0]] + [steps[1]] == steps && [] + [m] == [m];
    PostFirst(Init(), c, room);
    var one := Init().(log := [m]);
    assert [m][..0] == [] && MaxSeq([m]) == 1;
    var two := one.(overlay := map[c.file(room) := 1]);
    assert Apply(one, c, steps[1]) == two;
    SharedCursor(two, two, c, room, room);
    IsLost(c, two, 1, room);
  }

  // ---- exactly when -----------------------------------------------------------------------

  lemma {:induction false} LogOfRun(c: Config, steps: seq<Step>, rooms: set<string>)
    requires Uses(steps, rooms)
    ensures forall m :: m in Run(c, steps).log ==> m.room in rooms
  {
    hide Apply;
    if steps != [] {
      var (init, last) := (steps[..|steps| - 1], steps[|steps| - 1]);
      assert last in steps && forall st :: st in init ==> st in steps;
      LogOfRun(c, init, rooms);
      LogOfStep(Run(c, init), c, last);
    }
  }

  lemma LogOfStep(s: State, c: Config, step: Step)
    ensures forall m :: m in Apply(s, c, step).log ==> m in s.log || (step.Post? && m.room == step.room)
  {
    hide RoomLog, MaxSeq, MaxId, PollWakes, Unseen, Capped;
  }

  /** Every run over these rooms loses nothing exactly if their files are distinct and no other member's
      handle is kept under the member's name. */
  lemma NothingLostIff(c: Config, rooms: set<string>)
    ensures (forall steps :: Uses(steps, rooms) ==> LosesNothing(c, Run(c, steps)))
       <==> rooms == {} || (c.alone && forall r, r' :: r in rooms && r' in rooms && c.file(r) == c.file(r') ==> r == r')
  {
    hide Run, LosesNothing, RoomLog, Effective;
    if rooms == {} || (c.alone && forall r, r' :: r in rooms && r' in rooms && c.file(r) == c.file(r') ==> r == r') {
      forall steps | Uses(steps, rooms) ensures LosesNothing(c, Run(c, steps)) {
        LogOfRun(c, steps, rooms);
        var log := Run(c, steps).log;
        assert log != [] ==> log[0] in log;
        ApartLosesNothing(c, steps);
      }
    } else if !c.alone {
      var room :| room in rooms;
      OtherMemberLoses(c, room);
      assert Uses(OtherMember(c, room), rooms);
    } else {
      var r, r' :| r in rooms && r' in rooms && c.file(r) == c.file(r') && r != r';
      TwoRoomsLose(c, r, r');
      assert Uses(TwoRooms(c, r, r'), rooms);
    }
  }

  lemma ApartLosesNothing(c: Config, steps: seq<Step>)
    requires Run(c, steps).log == [] || Apart(c, Run(c, steps).log)
    ensures LosesNothing(c, Run(c, steps))
  {
    hide Run, Effective, Cared, Apart, ForMe;
    var s := Run(c, steps);
    forall room, m | m in RoomLog(s.log, room) && ForMe(m, c.me) && m.seqNo <= Effective(s, c, room) ensures Cared(c, s, room, m) {
      if s.log != [] {
        NothingLost(c, steps, room, m);
      } else {
        NoMessages(room);
      }
    }
  }

  /** With the file names the program makes, the rooms "a/b" and "a_b" lose a message. */
  lemma SlashRoomLoses(c: Config)
    requires c.file("a/b") == FsSafe("a/b") && c.file("a_b") == FsSafe("a_b")
    ensures !LosesNothing(c, Run(c, TwoRooms(c, "a/b", "a_b")))
  {
    hide Run, LosesNothing, FsSafe;
    SlashAndUnderscore();
    TwoRoomsLose(c, "a/b", "a_b");
  }
}
