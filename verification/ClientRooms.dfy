/**
 Clients over the registry. Client `i` owns channel `i` and runs its read loop on
 thread `i`: it joins and leaves rooms on command, keeps its own set of rooms, and
 when the connection fails takes that set and leaves every room in it. Any number
 of further threads broadcast. Several clients may be connections of one user.
 */
module ClientRooms {
  import opened Option
  import opened Sequences
  import opened Roster
  import opened RoomSpec
  import opened RoomProtocol
  import opened RoomLinearizability

  datatype Phase =
    | Reading
    | Joining(room: RoomId)
    | Booking(room: RoomId)
    | Leaving(room: RoomId)
    | Unbooking(room: RoomId)
    | Closing(todo: seq<RoomId>)
    | ClosingRoom(todo: seq<RoomId>)
    | Closed

  datatype Client = Client(user: UserId, rooms: set<RoomId>, phase: Phase)
  datatype System = System(reg: State, clients: seq<Client>)

  datatype Act =
    | Receive(i: nat, command: Command)
    | Run(i: nat)
    | Back(i: nat)
    | Book(i: nat)
    | Unbook(i: nat)
    | Fail(i: nat, order: seq<RoomId>)
    | CloseNext(i: nat)
    | Serve(t: nat, x: Action)

  predicate Shaped(s: System) {
    RefsInHeap(s.reg) && |s.clients| <= |s.reg.threads|
  }

  /** Broadcasts come from the threads that serve no client. */
  predicate ServeEnabled(bucketOf: RoomId -> nat, s: System, t: nat, x: Action) {
    && |s.clients| <= t && x.t == t && Enabled(bucketOf, s.reg, x)
    && (x.Invoke? ==> x.op.Broadcast?)
  }

  predicate CanDo(bucketOf: RoomId -> nat, s: System, x: Act) {
    if x.Serve? then ServeEnabled(bucketOf, s, x.t, x.x)
    else
      x.i < |s.clients| <= |s.reg.threads| &&
      var phase := s.clients[x.i].phase;
      match x
      case Receive(i, _) => phase.Reading? && s.reg.threads[i].Idle?
      case Run(i) => Enabled(bucketOf, s.reg, Advance(i))
      case Back(i) => Enabled(bucketOf, s.reg, Return(i)) && (phase.ClosingRoom? ==> phase.todo != [])
      case Book(_) => phase.Booking?
      case Unbook(_) => phase.Unbooking?
      case Fail(i, order) => phase.Reading? && Distinct(order) && (set r | r in order) == s.clients[i].rooms
      case CloseNext(i) => phase.Closing? && s.reg.threads[i].Idle?
  }

  function SetPhase(s: System, i: nat, phase: Phase): System
    requires i < |s.clients|
  {
    s.(clients := s.clients[i := s.clients[i].(phase := phase)])
  }

  function Start(s: System, i: nat, op: Op<Chan>, phase: Phase): System
    requires i < |s.clients| <= |s.reg.threads|
  {
    SetPhase(s, i, phase).(reg := Goto(s.reg, i, Begun(op)))
  }

  function AfterCall(phase: Phase): Phase
    requires phase.ClosingRoom? ==> phase.todo != []
  {
    match phase
    case Joining(room) => Booking(room)
    case Leaving(room) => Unbooking(room)
    case ClosingRoom(todo) => Closing(todo[1..])
    case _ => phase
  }

  function Do(bucketOf: RoomId -> nat, s: System, x: Act): System
    requires Shaped(s) && CanDo(bucketOf, s, x)
  {
    match x
    case Serve(_, a) => s.(reg := Next(bucketOf, s.reg, a))
    case Receive(i, command) =>
      (match command
       case JoinCommand(room) =>
         if room <= 0 then s else Start(s, i, Join(room, s.clients[i].user, i), Joining(room))
       case LeaveCommand(room) =>
         if room <= 0 then s else Start(s, i, Leave(room, s.clients[i].user, Some(i)), Leaving(room))
       case OtherCommand => s)
    case Run(i) => s.(reg := Next(bucketOf, s.reg, Advance(i)))
    case Back(i) => SetPhase(s, i, AfterCall(s.clients[i].phase)).(reg := Next(bucketOf, s.reg, Return(i)))
    case Book(i) =>
      var c := s.clients[i];
      s.(clients := s.clients[i := c.(rooms := c.rooms + {c.phase.room}, phase := Reading)])
    case Unbook(i) =>
      var c := s.clients[i];
      s.(clients := s.clients[i := c.(rooms := c.rooms - {c.phase.room}, phase := Reading)])
    case Fail(i, order) =>
      s.(clients := s.clients[i := s.clients[i].(rooms := {}, phase := Closing(order))])
    case CloseNext(i) =>
      var todo := s.clients[i].phase.todo;
      if todo == [] then SetPhase(s, i, Closed)
      else Start(s, i, Leave(todo[0], s.clients[i].user, Some(i)), ClosingRoom(todo))
  }

  /** A join or leave command with a positive room id starts that very call on the client's own behalf; others do nothing. */
  lemma ReceiveStartsTheCall(bucketOf: RoomId -> nat, s: System, i: nat, command: Command)
    requires Shaped(s) && CanDo(bucketOf, s, Receive(i, command))
    ensures var s', u := Do(bucketOf, s, Receive(i, command)), s.clients[i].user;
      match command
      case JoinCommand(room) => if room > 0 then s'.reg.threads[i] == Begun(Join(room, u, i)) && !s'.clients[i].phase.Reading? else s' == s
      case LeaveCommand(room) => if room > 0 then s'.reg.threads[i] == Begun(Leave(room, u, Some(i))) && !s'.clients[i].phase.Reading? else s' == s
      case OtherCommand => s' == s
  {
  }

  // ----- the invariant

  /** The call a client's thread is in agrees with the client's phase. */
  predicate InStep(i: nat, c: Client, call: Call) {
    match c.phase
    case Joining(room) => !call.NoCall? && call.op == Join(room, c.user, i)
    case Leaving(room) => !call.NoCall? && call.op == Leave(room, c.user, Some(i))
    case ClosingRoom(todo) => !call.NoCall? && todo != [] && call.op == Leave(todo[0], c.user, Some(i)) && Distinct(todo)
    case Closing(todo) => call.NoCall? && Distinct(todo)
    case _ => call.NoCall?
  }

  /** The rooms a client's channel may be in. */
  predicate MayBeIn(c: Client, call: Call, room: RoomId) {
    match c.phase
    case Reading => room in c.rooms
    case Joining(r) => room in c.rooms || room == r
    case Booking(r) => room in c.rooms || room == r
    case Leaving(r) => room in c.rooms && (call.Performed? ==> room != r)
    case Unbooking(r) => room in c.rooms && room != r
    case Closing(todo) => room in todo
    case ClosingRoom(todo) => room in todo && (call.Performed? && todo != [] ==> room != todo[0])
    case Closed => false
  }

  predicate EntryOk(clients: seq<Client>, calls: seq<Call>, room: RoomId, e: Entry<Chan>) {
    && e.send < |clients| <= |calls|
    && e.user == clients[e.send].user
    && MayBeIn(clients[e.send], calls[e.send], room)
  }

  ghost predicate EntriesOk(rooms: Rooms<Chan>, clients: seq<Client>, calls: seq<Call>) {
    forall room, e :: room in rooms && e in rooms[room] ==> EntryOk(clients, calls, room, e)
  }

  ghost predicate CallsOk(clients: seq<Client>, calls: seq<Call>) {
    && |clients| <= |calls|
    && (forall i :: 0 <= i < |clients| ==> InStep(i, clients[i], calls[i]))
    && (forall t :: |clients| <= t < |calls| ==> calls[t].NoCall? || calls[t].op.Broadcast?)
  }

  ghost predicate Good(rooms: Rooms<Chan>, clients: seq<Client>, calls: seq<Call>) {
    CallsOk(clients, calls) && EntriesOk(rooms, clients, calls)
  }

  ghost predicate SystemInv(bucketOf: RoomId -> nat, s: System) {
    Inv(bucketOf, s.reg) && Good(AbsRooms(s.reg), s.clients, AbsCalls(s.reg))
  }

  /** A client changes phase, or its call changes, and may be wherever it might have been. */
  lemma ClientMoves(rooms: Rooms<Chan>, clients: seq<Client>, calls: seq<Call>, i: nat, c: Client, call: Call)
    requires Good(rooms, clients, calls) && i < |clients|
    requires c.user == clients[i].user && InStep(i, c, call)
    requires forall room :: MayBeIn(clients[i], calls[i], room) ==> MayBeIn(c, call, room)
    ensures Good(rooms, clients[i := c], calls[i := call])
  {
    forall room, e | room in rooms && e in rooms[room] ensures EntryOk(clients[i := c], calls[i := call], room, e) {
      assert EntryOk(clients, calls, room, e);
    }
  }

  // ----- one section of one thread

  lemma JoinedEntries(rs: Members, u: UserId, c: Chan)
    requires Unique(rs)
    ensures forall e :: e in Joined(rs, u, c) ==> e in rs || e == Entry(u, c)
  {
    UniqueJoined(rs, u, c);
  }

  ghost predicate Spares(rooms: Rooms<Chan>, rooms': Rooms<Chan>, c: Chan) {
    forall r, e :: r in rooms && e in rooms[r] && e.send != c ==> e in At(rooms', r)
  }

  predicate GetsPerformed(before: Call, after: Call) {
    before.Waiting? && after.Performed? && after.op == before.op
  }

  lemma OwnCallKeepsGood(rooms: Rooms<Chan>, clients: seq<Client>, calls: seq<Call>, i: nat, after: Call)
    requires Good(rooms, clients, calls) && AllUnique(rooms)
    requires i < |calls| && GetsPerformed(calls[i], after)
    ensures Good(Perform(rooms, calls[i].op).0, clients, calls[i := after])
    ensures calls[i].op.Leave? ==> Spares(rooms, Perform(rooms, calls[i].op).0, i)
  {
    var op := calls[i].op;
    var rooms', calls' := Perform(rooms, op).0, calls[i := after];
    if op.Leave? {
      assert forall e :: e in At(rooms, op.room) ==> EntryOk(clients, calls, op.room, e);
      LeftEntries(At(rooms, op.room), op.user, i);
    } else if op.Join? {
      JoinedEntries(At(rooms, op.room), op.user, op.send);
    }
    forall room, e | room in rooms' && e in rooms'[room] ensures EntryOk(clients, calls', room, e) {
      if !op.Join? || room != op.room || e in At(rooms, room) {
        assert EntryOk(clients, calls, room, e);
      }
    }
  }

  predicate HelpedOnEmpty(rooms: Rooms<Chan>, before: Call, after: Call) {
    GetsPerformed(before, after) && At(rooms, before.op.room) == []
  }

  /** The calls that a section performs for other threads stand on rooms without members. */
  ghost predicate HelpOnly(rooms: Rooms<Chan>, calls: seq<Call>, calls': seq<Call>) {
    && |calls'| == |calls|
    && forall j :: 0 <= j < |calls| ==> calls'[j] == calls[j] || HelpedOnEmpty(rooms, calls[j], calls'[j])
  }

  lemma HelpKeepsGood(rooms: Rooms<Chan>, clients: seq<Client>, calls: seq<Call>, calls': seq<Call>)
    requires Good(rooms, clients, calls) && HelpOnly(rooms, calls, calls')
    ensures Good(rooms, clients, calls')
  {
    forall room, e | room in rooms && e in rooms[room] ensures EntryOk(clients, calls', room, e) {
      assert EntryOk(clients, calls, room, e);
      assert At(rooms, room) != [];
    }
  }

  lemma SectionHelps(bucketOf: RoomId -> nat, s: State, t: nat)
    requires Inv(bucketOf, s) && Enabled(bucketOf, s, Advance(t))
    ensures var s' := Section(s, t);
      && Inv(bucketOf, s') && |s'.threads| == |s.threads|
      && (AbsCalls(s')[t] == AbsCalls(s)[t] || GetsPerformed(AbsCalls(s)[t], AbsCalls(s')[t]))
      && AbsRooms(s') == (if Performs(s, s', t) then Perform(AbsRooms(s), AbsCalls(s)[t].op).0 else AbsRooms(s))
      && HelpOnly(AbsRooms(s'), AbsCalls(s)[t := AbsCalls(s')[t]], AbsCalls(s'))
  {
    var s' := Section(s, t);
    SectionEffect(bucketOf, s, t, t);
    var calls, calls' := AbsCalls(s), AbsCalls(s');
    forall j | 0 <= j < |calls| && j != t
      ensures calls'[j] == calls[j] || HelpedOnEmpty(AbsRooms(s'), calls[j], calls'[j])
    {
      SectionEffect(bucketOf, s, t, j);
    }
  }

  lemma SectionKeepsGood(bucketOf: RoomId -> nat, s: State, clients: seq<Client>, t: nat)
    requires Inv(bucketOf, s) && Enabled(bucketOf, s, Advance(t))
    requires Good(AbsRooms(s), clients, AbsCalls(s))
    ensures Inv(bucketOf, Section(s, t))
    ensures Good(AbsRooms(Section(s, t)), clients, AbsCalls(Section(s, t)))
    ensures !AbsCalls(s)[t].NoCall? && AbsCalls(s)[t].op.Leave? ==> Spares(AbsRooms(s), AbsRooms(Section(s, t)), t)
  {
    var s' := Section(s, t);
    SectionHelps(bucketOf, s, t);
    var mid := AbsCalls(s)[t := AbsCalls(s')[t]];
    if Performs(s, s', t) {
      assert AllUnique(AbsRooms(s));
      OwnCallKeepsGood(AbsRooms(s), clients, AbsCalls(s), t, AbsCalls(s')[t]);
    } else {
      assert mid == AbsCalls(s);
    }
    HelpKeepsGood(AbsRooms(s'), clients, mid, AbsCalls(s'));
  }

  // ----- every step

  lemma GotoIsOneCall(s: State, t: nat, pc: PC)
    requires RefsInHeap(s) && t < |s.threads| && !HasRef(pc)
    ensures RefsInHeap(Goto(s, t, pc)) && AbsRooms(Goto(s, t, pc)) == AbsRooms(s)
    ensures AbsCalls(Goto(s, t, pc)) == AbsCalls(s)[t := AbsCall(s, pc)]
  {
  }

  lemma StartKeepsInv(bucketOf: RoomId -> nat, s: System, i: nat, op: Op<Chan>, phase: Phase)
    requires SystemInv(bucketOf, s) && i < |s.clients| && s.reg.threads[i].Idle?
    requires InStep(i, s.clients[i].(phase := phase), Waiting(op))
    requires forall room :: (MayBeIn(s.clients[i], NoCall, room) ==>
      MayBeIn(s.clients[i].(phase := phase), Waiting(op), room))
    ensures SystemInv(bucketOf, Start(s, i, op, phase))
  {
    NextKeepsInv(bucketOf, s.reg, Invoke(i, op));
    GotoIsOneCall(s.reg, i, Begun(op));
    ClientMoves(AbsRooms(s.reg), s.clients, AbsCalls(s.reg), i, s.clients[i].(phase := phase), Waiting(op));
  }

  lemma BackKeepsInv(bucketOf: RoomId -> nat, s: System, i: nat)
    requires SystemInv(bucketOf, s) && CanDo(bucketOf, s, Back(i))
    ensures SystemInv(bucketOf, Do(bucketOf, s, Back(i)))
  {
    var c := s.clients[i];
    NextKeepsInv(bucketOf, s.reg, Return(i));
    GotoIsOneCall(s.reg, i, Idle);
    assert InStep(i, c, AbsCalls(s.reg)[i]) && AbsCalls(s.reg)[i].Performed?;
    var c' := c.(phase := AfterCall(c.phase));
    if c.phase.ClosingRoom? {
      assert c.phase.todo == [c.phase.todo[0]] + c.phase.todo[1..];
    }
    ClientMoves(AbsRooms(s.reg), s.clients, AbsCalls(s.reg), i, c', NoCall);
  }

  lemma ServeKeepsInv(bucketOf: RoomId -> nat, s: System, t: nat, x: Action)
    requires SystemInv(bucketOf, s) && ServeEnabled(bucketOf, s, t, x)
    ensures SystemInv(bucketOf, s.(reg := Next(bucketOf, s.reg, x)))
  {
    var reg' := Next(bucketOf, s.reg, x);
    if x.Advance? {
      SectionKeepsGood(bucketOf, s.reg, s.clients, t);
    } else {
      NextKeepsInv(bucketOf, s.reg, x);
      GotoIsOneCall(s.reg, t, reg'.threads[t]);
      forall room, e | room in AbsRooms(reg') && e in AbsRooms(reg')[room]
        ensures EntryOk(s.clients, AbsCalls(reg'), room, e)
      {
        assert EntryOk(s.clients, AbsCalls(s.reg), room, e);
      }
    }
  }

  /** Every step of the system keeps the invariant. */
  lemma DoKeepsInv(bucketOf: RoomId -> nat, s: System, x: Act)
    requires SystemInv(bucketOf, s) && CanDo(bucketOf, s, x)
    ensures SystemInv(bucketOf, Do(bucketOf, s, x))
  {
    if x.Serve? {
      ServeKeepsInv(bucketOf, s, x.t, x.x);
    } else {
      var i, c := x.i, s.clients[x.i];
      var calls := AbsCalls(s.reg);
      assert InStep(i, c, calls[i]);
      if x.Receive? {
        var command := x.command;
        if command.JoinCommand? && command.room > 0 {
          StartKeepsInv(bucketOf, s, i, Join(command.room, c.user, i), Joining(command.room));
        } else if command.LeaveCommand? && command.room > 0 {
          StartKeepsInv(bucketOf, s, i, Leave(command.room, c.user, Some(i)), Leaving(command.room));
        }
      } else if x.Run? {
        SectionKeepsGood(bucketOf, s.reg, s.clients, i);
      } else if x.Back? {
        BackKeepsInv(bucketOf, s, i);
      } else if x.CloseNext? && c.phase.todo != [] {
        StartKeepsInv(bucketOf, s, i, Leave(c.phase.todo[0], c.user, Some(i)), ClosingRoom(c.phase.todo));
      } else {
        ClientMoves(AbsRooms(s.reg), s.clients, calls, i, Do(bucketOf, s, x).clients[i], calls[i]);
      }
    }
  }

  // ----- whole runs

  ghost predicate Steps(bucketOf: RoomId -> nat, s: System, xs: seq<Act>, s': System)
    decreases |xs|
  {
    if xs == [] then s' == s
    else Shaped(s) && CanDo(bucketOf, s, xs[0]) && Steps(bucketOf, Do(bucketOf, s, xs[0]), xs[1..], s')
  }

  /** Fresh connections, and an empty registry. */
  predicate Fresh(s: System) {
    && s.reg == RoomProtocol.Init(|s.reg.threads|) && |s.clients| <= |s.reg.threads|
    && forall c :: c in s.clients ==> c.rooms == {} && c.phase == Reading
  }

  lemma FreshInv(bucketOf: RoomId -> nat, s: System)
    requires Fresh(s)
    ensures SystemInv(bucketOf, s)
  {
    InitInv(bucketOf, |s.reg.threads|);
    assert AbsRooms(s.reg) == map[];
  }

  lemma {:induction false} StepsKeepInv(bucketOf: RoomId -> nat, s: System, xs: seq<Act>, s': System)
    requires SystemInv(bucketOf, s) && Steps(bucketOf, s, xs, s')
    ensures SystemInv(bucketOf, s')
    decreases |xs|
  {
    if xs != [] {
      DoKeepsInv(bucketOf, s, xs[0]);
      StepsKeepInv(bucketOf, Do(bucketOf, s, xs[0]), xs[1..], s');
    }
  }

  /**
   After a connection has gone through all its rooms, no room object holds its channel,
   whether the room is still mapped or was unmapped meanwhile.
   */
  lemma ClosedClientIsNowhere(bucketOf: RoomId -> nat, s: System, xs: seq<Act>, s': System, i: nat)
    requires Fresh(s) && Steps(bucketOf, s, xs, s')
    requires i < |s'.clients| && s'.clients[i].phase.Closed?
    ensures forall ref, e :: 0 <= ref < |s'.reg.heap| && e in s'.reg.heap[ref] ==> e.send != i
  {
    FreshInv(bucketOf, s);
    StepsKeepInv(bucketOf, s, xs, s');
    forall ref, e | 0 <= ref < |s'.reg.heap| && e in s'.reg.heap[ref] ensures e.send != i {
      assert !Unmapped(s'.reg, ref);
      var room :| room in s'.reg.mapped && s'.reg.mapped[room] == ref;
      assert e in AbsRooms(s'.reg)[room];
      assert EntryOk(s'.clients, AbsCalls(s'.reg), room, e);
    }
  }

  /** Between commands, a room that holds a client's channel is in the client's own set of rooms. */
  lemma HeldRoomsAreBooked(bucketOf: RoomId -> nat, s: System, xs: seq<Act>, s': System, i: nat, room: RoomId)
    requires Fresh(s) && Steps(bucketOf, s, xs, s')
    requires i < |s'.clients| && s'.clients[i].phase.Reading?
    ensures Shaped(s')
    ensures (exists e :: e in At(AbsRooms(s'.reg), room) && e.send == i) ==> room in s'.clients[i].rooms
  {
    FreshInv(bucketOf, s);
    StepsKeepInv(bucketOf, s, xs, s');
    forall e | e in At(AbsRooms(s'.reg), room) && e.send == i ensures room in s'.clients[i].rooms {
      assert EntryOk(s'.clients, AbsCalls(s'.reg), room, e);
    }
  }

  predicate Leaver(phase: Phase) {
    phase.Closing? || phase.ClosingRoom? || phase.Leaving?
  }

  lemma LeaverStepSpares(bucketOf: RoomId -> nat, s: System, x: Act)
    requires SystemInv(bucketOf, s) && CanDo(bucketOf, s, x) && !x.Serve? && Leaver(s.clients[x.i].phase)
    ensures Shaped(Do(bucketOf, s, x))
    ensures Spares(AbsRooms(s.reg), AbsRooms(Do(bucketOf, s, x).reg), x.i)
  {
    DoKeepsInv(bucketOf, s, x);
    assert InStep(x.i, s.clients[x.i], AbsCalls(s.reg)[x.i]);
    if x.Run? {
      SectionKeepsGood(bucketOf, s.reg, s.clients, x.i);
    } else {
      GotoIsOneCall(s.reg, x.i, Do(bucketOf, s, x).reg.threads[x.i]);
    }
  }

  /** While a connection leaves its rooms, no step of it touches any other connection's membership. */
  lemma TeardownSparesOthers(bucketOf: RoomId -> nat, s: System, xs: seq<Act>, s': System, x: Act)
    requires Fresh(s) && Steps(bucketOf, s, xs, s')
    requires Shaped(s') && CanDo(bucketOf, s', x) && !x.Serve? && Leaver(s'.clients[x.i].phase)
    ensures Shaped(Do(bucketOf, s', x))
    ensures Spares(AbsRooms(s'.reg), AbsRooms(Do(bucketOf, s', x).reg), x.i)
  {
    FreshInv(bucketOf, s);
    StepsKeepInv(bucketOf, s, xs, s');
    LeaverStepSpares(bucketOf, s', x);
  }

  /** In every room each member has a channel of its own, so a broadcast offers each channel the message once. */
  lemma ChannelsInARoomDiffer(bucketOf: RoomId -> nat, s: System, xs: seq<Act>, s': System, room: RoomId, from: UserId)
    requires Fresh(s) && Steps(bucketOf, s, xs, s')
    ensures Shaped(s')
    ensures var targets := Targets(At(AbsRooms(s'.reg), room), from);
      forall i, j :: 0 <= i < j < |targets| ==> targets[i] != targets[j]
  {
    FreshInv(bucketOf, s);
    StepsKeepInv(bucketOf, s, xs, s');
    var rs := At(AbsRooms(s'.reg), room);
    forall i, j | 0 <= i < j < |rs| ensures rs[i].send != rs[j].send {
      assert EntryOk(s'.clients, AbsCalls(s'.reg), room, rs[i]) && EntryOk(s'.clients, AbsCalls(s'.reg), room, rs[j]);
    }
    TargetsDiffer(rs, from);
  }
}
