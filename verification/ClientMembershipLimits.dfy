/** A run in which an older connection's late join, and its teardown, take a newer connection of the same user out of a room. */
module ClientMembershipLimits {
  import opened Option
  import opened Roster
  import opened RoomSpec
  import opened RoomProtocol
  import opened ClientRooms

  lemma {:induction false} StepsSnoc(bucketOf: RoomId -> nat, s0: System, xs: seq<Act>, s: System, x: Act)
    requires Steps(bucketOf, s0, xs, s) && Shaped(s) && CanDo(bucketOf, s, x)
    ensures Steps(bucketOf, s0, xs + [x], Do(bucketOf, s, x))
    decreases |xs|
  {
    if xs == [] {
      assert Steps(bucketOf, Do(bucketOf, s, x), [x][1..], Do(bucketOf, s, x));
    } else {
      StepsSnoc(bucketOf, Do(bucketOf, s0, xs[0]), xs[1..], s, x);
      assert (xs + [x])[1..] == xs[1..] + [x];
    }
  }

  /** The older connection is connection 0, the newer one connection 1. */
  function Two(u: UserId, reg: State, p: Phase, ps: set<RoomId>, q: Phase, qs: set<RoomId>): System {
    System(reg, [Client(u, ps, p), Client(u, qs, q)])
  }

  /** The run, moment by moment. */
  function Moment(k: nat, u: UserId, r: RoomId): System {
    match k
    case 0 => Two(u, State(map[], [], [Idle, Idle]), Reading, {}, Reading, {})
    case 1 => Two(u, State(map[], [], [Idle, Begun(Op.Join(r, u, 1))]), Reading, {}, Joining(r), {})
    case 2 => Two(u, State(map[r := 0], [[]], [Idle, JoinHolding(r, u, 1, 0)]), Reading, {}, Joining(r), {})
    case 3 => Two(u, State(map[r := 0], [[Entry(u, 1)]], [Idle, Returning(Op.Join(r, u, 1), Unit)]), Reading, {}, Joining(r), {})
    case 4 => Two(u, State(map[r := 0], [[Entry(u, 1)]], [Idle, Idle]), Reading, {}, Booking(r), {})
    case 5 => Two(u, State(map[r := 0], [[Entry(u, 1)]], [Idle, Idle]), Reading, {}, Reading, {r})
    case 6 => Two(u, State(map[r := 0], [[Entry(u, 1)]], [Begun(Op.Join(r, u, 0)), Idle]), Joining(r), {}, Reading, {r})
    case 7 => Two(u, State(map[r := 0], [[Entry(u, 1)]], [JoinHolding(r, u, 0, 0), Idle]), Joining(r), {}, Reading, {r})
    case 8 => Two(u, State(map[r := 0], [[Entry(u, 0)]], [Returning(Op.Join(r, u, 0), Unit), Idle]), Joining(r), {}, Reading, {r})
    case 9 => Two(u, State(map[r := 0], [[Entry(u, 0)]], [Idle, Idle]), Booking(r), {}, Reading, {r})
    case 10 => Two(u, State(map[r := 0], [[Entry(u, 0)]], [Idle, Idle]), Reading, {r}, Reading, {r})
    case 11 => Two(u, State(map[r := 0], [[Entry(u, 0)]], [Idle, Idle]), Closing([r]), {}, Reading, {r})
    case 12 => Two(u, State(map[r := 0], [[Entry(u, 0)]], [Begun(Op.Leave(r, u, Some(0))), Idle]), ClosingRoom([r]), {}, Reading, {r})
    case 13 => Two(u, State(map[r := 0], [[Entry(u, 0)]], [LeaveFound(r, u, Some(0), 0), Idle]), ClosingRoom([r]), {}, Reading, {r})
    case 14 => Two(u, State(map[r := 0], [[]], [ReapWaiting(r, u, Some(0), 0), Idle]), ClosingRoom([r]), {}, Reading, {r})
    case 15 => Two(u, State(map[r := 0], [[]], [ReapHolding(r, u, Some(0), 0), Idle]), ClosingRoom([r]), {}, Reading, {r})
    case 16 => Two(u, State(map[r := 0], [[]], [ReapDecided(r, u, Some(0), 0, true), Idle]), ClosingRoom([r]), {}, Reading, {r})
    case 17 => Two(u, State(map[], [[]], [Returning(Op.Leave(r, u, Some(0)), Unit), Idle]), ClosingRoom([r]), {}, Reading, {r})
    case 18 => Two(u, State(map[], [[]], [Idle, Idle]), Closing([]), {}, Reading, {r})
    case _ => Two(u, State(map[], [[]], [Idle, Idle]), Closed, {}, Reading, {r})
  }

  function Move(k: nat, r: RoomId): Act {
    match k
    case 0 => Receive(1, JoinCommand(r))
    case 1 => Act.Run(1)
    case 2 => Act.Run(1)
    case 3 => Back(1)
    case 4 => Book(1)
    case 5 => Receive(0, JoinCommand(r))
    case 6 => Act.Run(0)
    case 7 => Act.Run(0)
    case 8 => Back(0)
    case 9 => Book(0)
    case 10 => Fail(0, [r])
    case 11 => CloseNext(0)
    case 12 => Act.Run(0)
    case 13 => Act.Run(0)
    case 14 => Act.Run(0)
    case 15 => Act.Run(0)
    case 16 => Act.Run(0)
    case 17 => Back(0)
    case _ => CloseNext(0)
  }

  /** Each moment follows from the one before. */
  predicate Follows(bucketOf: RoomId -> nat, u: UserId, r: RoomId, k: nat) {
    && Shaped(Moment(k, u, r)) && CanDo(bucketOf, Moment(k, u, r), Move(k, r))
    && Do(bucketOf, Moment(k, u, r), Move(k, r)) == Moment(k + 1, u, r)
  }

  /** The newer connection is told to join the room, and creates it. */
  lemma NewerCreates(bucketOf: RoomId -> nat, u: UserId, r: RoomId)
    requires r > 0
    ensures Follows(bucketOf, u, r, 0) && Follows(bucketOf, u, r, 1)
  {
  }

  lemma NewerEnters(bucketOf: RoomId -> nat, u: UserId, r: RoomId)
    requires r > 0
    ensures Follows(bucketOf, u, r, 2) && Follows(bucketOf, u, r, 3)
  {
  }

  /** A late join of the older connection is next. */
  lemma OlderIsToJoin(bucketOf: RoomId -> nat, u: UserId, r: RoomId)
    requires r > 0
    ensures Follows(bucketOf, u, r, 4) && Follows(bucketOf, u, r, 5) && Follows(bucketOf, u, r, 6)
  {
    assert {} + {r} == {r};
  }

  lemma OlderEnters(bucketOf: RoomId -> nat, u: UserId, r: RoomId)
    requires r > 0
    ensures Follows(bucketOf, u, r, 7) && Follows(bucketOf, u, r, 8)
  {
    assert [Entry(u, 1)][1..] == [] && Joined([Entry(u, 1)], u, 0) == [Entry(u, 0)];
  }

  /** The older connection fails, and leaves the room. */
  lemma OlderFails(bucketOf: RoomId -> nat, u: UserId, r: RoomId)
    requires r > 0
    ensures Follows(bucketOf, u, r, 9) && Follows(bucketOf, u, r, 10)
  {
    assert {} + {r} == {r};
    assert (set x | x in [r]) == {r};
  }

  lemma OlderIsToLeave(bucketOf: RoomId -> nat, u: UserId, r: RoomId)
    requires r > 0
    ensures Follows(bucketOf, u, r, 11)
  {
  }

  lemma OlderLooksUp(bucketOf: RoomId -> nat, u: UserId, r: RoomId)
    requires r > 0
    ensures Follows(bucketOf, u, r, 12)
  {
  }

  lemma OlderLeaves(bucketOf: RoomId -> nat, u: UserId, r: RoomId)
    requires r > 0
    ensures Follows(bucketOf, u, r, 13)
  {
    assert [Entry(u, 0)][1..] == [] && Left([Entry(u, 0)], u, Some(0)) == [];
  }

  lemma OlderLocks(bucketOf: RoomId -> nat, u: UserId, r: RoomId)
    requires r > 0
    ensures Follows(bucketOf, u, r, 14)
  {
  }

  lemma OlderUnmaps(bucketOf: RoomId -> nat, u: UserId, r: RoomId)
    requires r > 0
    ensures Follows(bucketOf, u, r, 15) && Follows(bucketOf, u, r, 16)
  {
    assert map[r := 0] - {r} == map[];
  }

  lemma OlderCloses(bucketOf: RoomId -> nat, u: UserId, r: RoomId)
    requires r > 0
    ensures Follows(bucketOf, u, r, 17) && Follows(bucketOf, u, r, 18)
  {
    assert [r][1..] == [];
  }

  lemma FirstFollow(bucketOf: RoomId -> nat, u: UserId, r: RoomId, k: nat)
    requires r > 0 && k < 9
    ensures Follows(bucketOf, u, r, k)
  {
    if k < 2 {
      NewerCreates(bucketOf, u, r);
    } else if k < 4 {
      NewerEnters(bucketOf, u, r);
    } else if k < 7 {
      OlderIsToJoin(bucketOf, u, r);
    } else {
      OlderEnters(bucketOf, u, r);
    }
  }

  lemma LaterFollow(bucketOf: RoomId -> nat, u: UserId, r: RoomId, k: nat)
    requires r > 0 && 9 <= k < 19
    ensures Follows(bucketOf, u, r, k)
  {
    if k < 11 {
      OlderFails(bucketOf, u, r);
    } else if k < 12 {
      OlderIsToLeave(bucketOf, u, r);
    } else if k < 13 {
      OlderLooksUp(bucketOf, u, r);
    } else if k < 14 {
      OlderLeaves(bucketOf, u, r);
    } else if k < 15 {
      OlderLocks(bucketOf, u, r);
    } else if k < 17 {
      OlderUnmaps(bucketOf, u, r);
    } else {
      OlderCloses(bucketOf, u, r);
    }
  }

  lemma {:induction false} UpTo(bucketOf: RoomId -> nat, u: UserId, r: RoomId, k: nat) returns (xs: seq<Act>)
    requires r > 0 && k <= 19
    ensures Steps(bucketOf, Moment(0, u, r), xs, Moment(k, u, r))
  {
    if k == 0 {
      xs := [];
    } else {
      xs := UpTo(bucketOf, u, r, k - 1);
      if k <= 9 {
        FirstFollow(bucketOf, u, r, k - 1);
      } else {
        LaterFollow(bucketOf, u, r, k - 1);
      }
      StepsSnoc(bucketOf, Moment(0, u, r), xs, Moment(k - 1, u, r), Move(k - 1, r));
      xs := xs + [Move(k - 1, r)];
    }
  }

  /**
   Two connections of one user: the newer one joins a room, a join of the older one comes in late, and the older one
   is torn down. Then no room holds the newer one, which is there, between commands, with the room in its set.
   */
  lemma LateJoinEvictsNewer(bucketOf: RoomId -> nat, u: UserId, r: RoomId) returns (xs: seq<Act>, s: System, s': System)
    requires r > 0
    ensures Fresh(s) && Steps(bucketOf, s, xs, s')
    ensures s'.clients == [Client(u, {}, Closed), Client(u, {r}, Reading)]
    ensures s'.reg.mapped == map[] && s'.reg.heap == [[]]
  {
    s, s' := Moment(0, u, r), Moment(19, u, r);
    assert s.reg == RoomProtocol.Init(2);
    xs := UpTo(bucketOf, u, r, 19);
  }
}
