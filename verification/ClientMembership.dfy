/**
 Which connection a room serves a user on: the one whose join of the room was performed last, as long as that
 connection stays. So a connection between commands is in a room of its set exactly if no other connection of
 its user has joined the room after it.
 */
module ClientMembership {
  import opened Option
  import opened Roster
  import opened RoomSpec
  import opened RoomProtocol
  import opened RoomLinearizability
  import opened ClientRooms

  /** For a room and a user, the connection that performed the last join. */
  type LastJoins = map<(RoomId, UserId), Chan>

  /** A join is performed by the section that puts the member in. */
  function NextLast(s: System, last: LastJoins, x: Act): LastJoins {
    if x.Run? && x.i < |s.reg.threads| && s.reg.threads[x.i].JoinHolding?
    then var pc := s.reg.threads[x.i]; last[(pc.room, pc.user) := pc.send]
    else last
  }

  ghost function LastAfter(bucketOf: RoomId -> nat, s: System, last: LastJoins, xs: seq<Act>, s': System): LastJoins
    requires Steps(bucketOf, s, xs, s')
    decreases |xs|
  {
    if xs == [] then last else LastAfter(bucketOf, Do(bucketOf, s, xs[0]), NextLast(s, last, xs[0]), xs[1..], s')
  }

  /** The rooms a connection has joined and not left, as far as its own doing goes. */
  predicate HasJoined(c: Client, call: Call, room: RoomId) {
    match c.phase
    case Reading => room in c.rooms
    case Joining(r) => room in c.rooms || (room == r && call.Performed?)
    case Booking(r) => room in c.rooms || room == r
    case Leaving(r) => room in c.rooms && (room == r ==> !call.Performed?)
    case Unbooking(r) => room in c.rooms && room != r
    case Closing(_) => false
    case ClosingRoom(_) => false
    case Closed => false
  }

  predicate IsLast(last: LastJoins, room: RoomId, u: UserId, c: Chan) {
    (room, u) in last && last[(room, u)] == c
  }

  predicate JoinedOk(rooms: Rooms<Chan>, last: LastJoins, i: nat, c: Client, call: Call, room: RoomId) {
    HasJoined(c, call, room) ==>
      && (room, c.user) in last
      && (last[(room, c.user)] == i ==> Member(rooms, room, c.user) == Some(i))
  }

  ghost predicate MembersAreLast(rooms: Rooms<Chan>, last: LastJoins) {
    forall room, u :: Member(rooms, room, u).Some? ==> IsLast(last, room, u, Member(rooms, room, u).value)
  }

  ghost predicate LastsAreClients(clients: seq<Client>, last: LastJoins) {
    forall k :: k in last ==> last[k] < |clients| && clients[last[k]].user == k.1
  }

  ghost predicate Tracked(rooms: Rooms<Chan>, clients: seq<Client>, calls: seq<Call>, last: LastJoins) {
    && MembersAreLast(rooms, last) && LastsAreClients(clients, last) && |clients| <= |calls|
    && (forall i, room :: 0 <= i < |clients| ==> JoinedOk(rooms, last, i, clients[i], calls[i], room))
  }

  ghost predicate TrackedIn(s: System, last: LastJoins)
    requires RefsInHeap(s.reg)
  {
    Tracked(AbsRooms(s.reg), s.clients, AbsCalls(s.reg), last)
  }

  // ----- what keeps track

  /** One client moves on, having joined no more than before. */
  lemma MoveKeepsTrack(rooms: Rooms<Chan>, clients: seq<Client>, calls: seq<Call>, last: LastJoins, i: nat, c: Client, call: Call)
    requires Tracked(rooms, clients, calls, last) && i < |clients| && c.user == clients[i].user
    requires forall room :: HasJoined(c, call, room) ==> HasJoined(clients[i], calls[i], room)
    ensures Tracked(rooms, clients[i := c], calls[i := call], last)
  {
    var clients', calls' := clients[i := c], calls[i := call];
    forall j, room | 0 <= j < |clients'| ensures JoinedOk(rooms, last, j, clients'[j], calls'[j], room) {
      assert JoinedOk(rooms, last, j, clients[j], calls[j], room);
    }
  }

  /** Calls performed for others are no joins, and leave nobody with more. */
  lemma HelpKeepsTrack(rooms: Rooms<Chan>, clients: seq<Client>, calls: seq<Call>, calls': seq<Call>, last: LastJoins)
    requires Tracked(rooms, clients, calls, last) && |calls'| == |calls|
    requires forall i :: 0 <= i < |clients| ==> InStep(i, clients[i], calls[i])
    requires forall i :: 0 <= i < |clients| ==>
      calls'[i] == calls[i] || (GetsPerformed(calls[i], calls'[i]) && !calls[i].op.Join?)
    ensures Tracked(rooms, clients, calls', last)
  {
    forall i, room | 0 <= i < |clients| ensures JoinedOk(rooms, last, i, clients[i], calls'[i], room) {
      assert JoinedOk(rooms, last, i, clients[i], calls[i], room);
    }
  }

  function LastAfterCall(last: LastJoins, op: Op<Chan>): LastJoins {
    if op.Join? then last[(op.room, op.user) := op.send] else last
  }

  lemma MembersStayLast(rooms: Rooms<Chan>, last: LastJoins, op: Op<Chan>)
    requires AllUnique(rooms) && MembersAreLast(rooms, last)
    ensures MembersAreLast(Perform(rooms, op).0, LastAfterCall(last, op))
  {
    forall room, u | Member(Perform(rooms, op).0, room, u).Some?
      ensures IsLast(LastAfterCall(last, op), room, u, Member(Perform(rooms, op).0, room, u).value)
    {
      PerformIsFlat(rooms, op, room, u);
    }
  }

  /** Client `i` performs the call it is in. */
  lemma CallKeepsTrack(rooms: Rooms<Chan>, clients: seq<Client>, calls: seq<Call>, last: LastJoins, i: nat, after: Call)
    requires AllUnique(rooms) && Tracked(rooms, clients, calls, last) && i < |clients|
    requires InStep(i, clients[i], calls[i]) && GetsPerformed(calls[i], after)
    ensures Tracked(Perform(rooms, calls[i].op).0, clients, calls[i := after], LastAfterCall(last, calls[i].op))
  {
    var op, calls' := calls[i].op, calls[i := after];
    MembersStayLast(rooms, last, op);
    forall j, room | 0 <= j < |clients|
      ensures JoinedOk(Perform(rooms, op).0, LastAfterCall(last, op), j, clients[j], calls'[j], room)
    {
      assert JoinedOk(rooms, last, j, clients[j], calls[j], room);
      PerformIsFlat(rooms, op, room, clients[j].user);
    }
  }

  // ----- one section of one thread

  /** The section performs its own call as a join exactly if it is the one that puts the member in. */
  lemma OwnJoin(bucketOf: RoomId -> nat, s: State, t: nat)
    requires Inv(bucketOf, s) && Enabled(bucketOf, s, Advance(t)) && |Section(s, t).threads| == |s.threads|
    ensures s.threads[t].JoinHolding? ==>
      var pc := s.threads[t]; Performs(s, Section(s, t), t) && AbsCalls(s)[t].op == Join(pc.room, pc.user, pc.send)
    ensures !s.threads[t].JoinHolding? && Performs(s, Section(s, t), t) ==> !AbsCalls(s)[t].op.Join?
  {
  }

  lemma OthersJoinsWait(bucketOf: RoomId -> nat, s: State, t: nat, u: nat)
    requires Inv(bucketOf, s) && Enabled(bucketOf, s, Advance(t)) && |Section(s, t).threads| == |s.threads|
    requires u < |s.threads| && u != t && Performs(s, Section(s, t), u)
    ensures !AbsCalls(s)[u].op.Join?
  {
    assert Section(s, t).threads[u] == s.threads[u];
  }

  lemma OthersCalls(bucketOf: RoomId -> nat, s: State, t: nat, u: nat)
    requires Inv(bucketOf, s) && Enabled(bucketOf, s, Advance(t)) && u < |s.threads| && u != t
    ensures |Section(s, t).threads| == |s.threads|
    ensures AbsCalls(Section(s, t))[u] == AbsCalls(s)[u] ||
      (GetsPerformed(AbsCalls(s)[u], AbsCalls(Section(s, t))[u]) && !AbsCalls(s)[u].op.Join?)
  {
    SectionEffect(bucketOf, s, t, u);
    if Performs(s, Section(s, t), u) {
      OthersJoinsWait(bucketOf, s, t, u);
    }
  }

  /** The section of a client's own thread. */
  lemma RunKeepsTrack(bucketOf: RoomId -> nat, s: System, last: LastJoins, i: nat)
    requires SystemInv(bucketOf, s) && TrackedIn(s, last) && CanDo(bucketOf, s, Act.Run(i))
    ensures RefsInHeap(Section(s.reg, i))
    ensures Tracked(AbsRooms(Section(s.reg, i)), s.clients, AbsCalls(Section(s.reg, i)), NextLast(s, last, Act.Run(i)))
  {
    SectionHelps(bucketOf, s.reg, i);
    var reg', calls := Section(s.reg, i), AbsCalls(s.reg);
    OwnJoin(bucketOf, s.reg, i);
    var mid, last' := calls[i := AbsCalls(reg')[i]], NextLast(s, last, Act.Run(i));
    if Performs(s.reg, reg', i) {
      CallKeepsTrack(AbsRooms(s.reg), s.clients, calls, last, i, AbsCalls(reg')[i]);
    } else {
      assert mid == calls;
    }
    forall u | 0 <= u < |s.clients| && u != i
      ensures AbsCalls(reg')[u] == mid[u] || (GetsPerformed(mid[u], AbsCalls(reg')[u]) && !mid[u].op.Join?)
    {
      OthersCalls(bucketOf, s.reg, i, u);
    }
    HelpKeepsTrack(AbsRooms(reg'), s.clients, mid, AbsCalls(reg'), last');
  }

  /** The section of a broadcasting thread. */
  lemma ServeRunKeepsTrack(bucketOf: RoomId -> nat, s: System, last: LastJoins, t: nat)
    requires SystemInv(bucketOf, s) && TrackedIn(s, last) && ServeEnabled(bucketOf, s, t, Advance(t))
    ensures RefsInHeap(Section(s.reg, t))
    ensures Tracked(AbsRooms(Section(s.reg, t)), s.clients, AbsCalls(Section(s.reg, t)), last)
  {
    SectionHelps(bucketOf, s.reg, t);
    var reg' := Section(s.reg, t);
    forall u | 0 <= u < |s.clients|
      ensures AbsCalls(reg')[u] == AbsCalls(s.reg)[u] ||
        (GetsPerformed(AbsCalls(s.reg)[u], AbsCalls(reg')[u]) && !AbsCalls(s.reg)[u].op.Join?)
    {
      OthersCalls(bucketOf, s.reg, t, u);
    }
    HelpKeepsTrack(AbsRooms(reg'), s.clients, AbsCalls(s.reg), AbsCalls(reg'), last);
  }

  // ----- every step

  lemma ServeKeepsTrack(bucketOf: RoomId -> nat, s: System, last: LastJoins, t: nat, x: Action)
    requires SystemInv(bucketOf, s) && TrackedIn(s, last) && ServeEnabled(bucketOf, s, t, x)
    ensures RefsInHeap(Next(bucketOf, s.reg, x))
    ensures TrackedIn(s.(reg := Next(bucketOf, s.reg, x)), last)
  {
    if x.Advance? {
      ServeRunKeepsTrack(bucketOf, s, last, t);
    } else {
      var reg' := Next(bucketOf, s.reg, x);
      GotoIsOneCall(s.reg, t, reg'.threads[t]);
      HelpKeepsTrack(AbsRooms(s.reg), s.clients, AbsCalls(s.reg), AbsCalls(reg'), last);
    }
  }

  lemma StartKeepsTrack(bucketOf: RoomId -> nat, s: System, last: LastJoins, i: nat, op: Op<Chan>, phase: Phase)
    requires SystemInv(bucketOf, s) && TrackedIn(s, last) && i < |s.clients| <= |s.reg.threads| && s.reg.threads[i].Idle?
    requires forall room :: (HasJoined(s.clients[i].(phase := phase), Waiting(op), room) ==>
      HasJoined(s.clients[i], AbsCalls(s.reg)[i], room))
    ensures RefsInHeap(Start(s, i, op, phase).reg) && TrackedIn(Start(s, i, op, phase), last)
  {
    GotoIsOneCall(s.reg, i, Begun(op));
    MoveKeepsTrack(AbsRooms(s.reg), s.clients, AbsCalls(s.reg), last, i, s.clients[i].(phase := phase), Waiting(op));
  }

  lemma BackKeepsTrack(bucketOf: RoomId -> nat, s: System, last: LastJoins, i: nat)
    requires SystemInv(bucketOf, s) && TrackedIn(s, last) && CanDo(bucketOf, s, Back(i))
    ensures RefsInHeap(Do(bucketOf, s, Back(i)).reg) && TrackedIn(Do(bucketOf, s, Back(i)), last)
  {
    var c := s.clients[i];
    GotoIsOneCall(s.reg, i, Idle);
    assert InStep(i, c, AbsCalls(s.reg)[i]) && AbsCalls(s.reg)[i].Performed?;
    MoveKeepsTrack(AbsRooms(s.reg), s.clients, AbsCalls(s.reg), last, i, c.(phase := AfterCall(c.phase)), NoCall);
  }

  /** Steps in which only the client itself changes. */
  lemma BookKeepsTrack(bucketOf: RoomId -> nat, s: System, last: LastJoins, x: Act)
    requires SystemInv(bucketOf, s) && TrackedIn(s, last) && CanDo(bucketOf, s, x)
    requires x.Book? || x.Unbook? || x.Fail? || (x.CloseNext? && s.clients[x.i].phase.todo == [])
    ensures Do(bucketOf, s, x).reg == s.reg && TrackedIn(Do(bucketOf, s, x), last)
  {
    var calls := AbsCalls(s.reg);
    assert InStep(x.i, s.clients[x.i], calls[x.i]);
    MoveKeepsTrack(AbsRooms(s.reg), s.clients, calls, last, x.i, Do(bucketOf, s, x).clients[x.i], calls[x.i]);
    assert calls[x.i := calls[x.i]] == calls;
  }

  lemma ReceiveKeepsTrack(bucketOf: RoomId -> nat, s: System, last: LastJoins, i: nat, command: Command)
    requires SystemInv(bucketOf, s) && TrackedIn(s, last) && CanDo(bucketOf, s, Receive(i, command))
    ensures RefsInHeap(Do(bucketOf, s, Receive(i, command)).reg) && TrackedIn(Do(bucketOf, s, Receive(i, command)), last)
  {
    var u := s.clients[i].user;
    if command.JoinCommand? && command.room > 0 {
      StartKeepsTrack(bucketOf, s, last, i, Op.Join(command.room, u, i), Joining(command.room));
    } else if command.LeaveCommand? && command.room > 0 {
      StartKeepsTrack(bucketOf, s, last, i, Op.Leave(command.room, u, Some(i)), Leaving(command.room));
    }
  }

  /** Every step keeps track of whose join was the last. */
  lemma DoKeepsTrack(bucketOf: RoomId -> nat, s: System, last: LastJoins, x: Act)
    requires SystemInv(bucketOf, s) && TrackedIn(s, last) && CanDo(bucketOf, s, x)
    ensures RefsInHeap(Do(bucketOf, s, x).reg) && TrackedIn(Do(bucketOf, s, x), NextLast(s, last, x))
  {
    match x
    case Serve(t, y) => ServeKeepsTrack(bucketOf, s, last, t, y);
    case Receive(i, command) => ReceiveKeepsTrack(bucketOf, s, last, i, command);
    case Run(i) => RunKeepsTrack(bucketOf, s, last, i);
    case Back(i) => BackKeepsTrack(bucketOf, s, last, i);
    case CloseNext(i) =>
      if s.clients[i].phase.todo == [] {
        BookKeepsTrack(bucketOf, s, last, x);
      } else {
        var todo := s.clients[i].phase.todo;
        StartKeepsTrack(bucketOf, s, last, i, Op.Leave(todo[0], s.clients[i].user, Some(i)), ClosingRoom(todo));
      }
    case _ => BookKeepsTrack(bucketOf, s, last, x);
  }

  lemma {:induction false} StepsKeepTrack(bucketOf: RoomId -> nat, s: System, last: LastJoins, xs: seq<Act>, s': System)
    requires SystemInv(bucketOf, s) && TrackedIn(s, last) && Steps(bucketOf, s, xs, s')
    ensures SystemInv(bucketOf, s') && TrackedIn(s', LastAfter(bucketOf, s, last, xs, s'))
    decreases |xs|
  {
    if xs != [] {
      DoKeepsInv(bucketOf, s, xs[0]);
      DoKeepsTrack(bucketOf, s, last, xs[0]);
      StepsKeepTrack(bucketOf, Do(bucketOf, s, xs[0]), NextLast(s, last, xs[0]), xs[1..], s');
    }
  }

  // ----- the main theorems

  /** Some room object, which then is the mapped one, holds the connection's channel. */
  predicate Held(rooms: Rooms<Chan>, room: RoomId, i: nat) {
    exists e :: e in At(rooms, room) && e.send == i
  }

  lemma HeldIsMember(bucketOf: RoomId -> nat, s: System, room: RoomId, i: nat)
    requires SystemInv(bucketOf, s) && i < |s.clients|
    ensures Held(AbsRooms(s.reg), room, i) <==> Member(AbsRooms(s.reg), room, s.clients[i].user) == Some(i)
  {
    var rooms, u := AbsRooms(s.reg), s.clients[i].user;
    FindSome(At(rooms, room), u);
    if e :| e in At(rooms, room) && e.send == i {
      assert EntryOk(s.clients, AbsCalls(s.reg), room, e);
      var k :| 0 <= k < |At(rooms, room)| && At(rooms, room)[k] == e;
      FindAt(At(rooms, room), k);
    }
    if Member(rooms, room, u) == Some(i) {
      assert Entry(u, i) in At(rooms, room);
    }
  }

  /**
   Between commands a connection is in a room if and only if the room is in its set and the last join of
   that room by its user was its own.
   */
  lemma MemberIffLastJoin(bucketOf: RoomId -> nat, s: System, xs: seq<Act>, s': System, i: nat, room: RoomId)
    requires Fresh(s) && Steps(bucketOf, s, xs, s')
    requires i < |s'.clients| && s'.clients[i].phase.Reading?
    ensures Shaped(s')
    ensures Held(AbsRooms(s'.reg), room, i) <==>
      room in s'.clients[i].rooms && IsLast(LastAfter(bucketOf, s, map[], xs, s'), room, s'.clients[i].user, i)
  {
    FreshInv(bucketOf, s);
    FreshTracked(s);
    StepsKeepTrack(bucketOf, s, map[], xs, s');
    var last := LastAfter(bucketOf, s, map[], xs, s');
    HeldIsMember(bucketOf, s', room, i);
    assert JoinedOk(AbsRooms(s'.reg), last, i, s'.clients[i], AbsCalls(s'.reg)[i], room);
    if Held(AbsRooms(s'.reg), room, i) {
      HeldRoomsAreBooked(bucketOf, s, xs, s', i, room);
    }
  }

  lemma FreshTracked(s: System)
    requires Fresh(s)
    ensures RefsInHeap(s.reg) && TrackedIn(s, map[])
  {
    assert AbsRooms(s.reg) == map[];
  }

  /** So the only connection of its user is in exactly the rooms of its set. */
  lemma OnlyConnectionIsMember(bucketOf: RoomId -> nat, s: System, xs: seq<Act>, s': System, i: nat, room: RoomId)
    requires Fresh(s) && Steps(bucketOf, s, xs, s')
    requires i < |s'.clients| && s'.clients[i].phase.Reading?
    requires forall j :: 0 <= j < |s'.clients| && j != i ==> s'.clients[j].user != s'.clients[i].user
    ensures Shaped(s')
    ensures Held(AbsRooms(s'.reg), room, i) <==> room in s'.clients[i].rooms
  {
    MemberIffLastJoin(bucketOf, s, xs, s', i, room);
    FreshInv(bucketOf, s);
    FreshTracked(s);
    StepsKeepTrack(bucketOf, s, map[], xs, s');
    var last := LastAfter(bucketOf, s, map[], xs, s');
    assert JoinedOk(AbsRooms(s'.reg), last, i, s'.clients[i], AbsCalls(s'.reg)[i], room);
    if room in s'.clients[i].rooms {
      assert last[(room, s'.clients[i].user)] < |s'.clients|;
    }
  }
}
