/**
 The room registry as one map, and what each call does to it, for any kind of channel:
 the code over channel objects and the protocol over channel names are both held to this.
 */
module RoomSpec {
  import opened Option
  import opened Roster

  datatype Op<+C> =
    | Join(room: RoomId, user: UserId, send: C)
    | Leave(room: RoomId, user: UserId, only: Option<C>)
    | Broadcast(room: RoomId, from: UserId)

  datatype Resp<+C> = Unit | SendTo(targets: seq<C>)

  /** Room id to members; a room without members is not in the map. */
  type Rooms<C> = map<RoomId, seq<Entry<C>>>

  function At<C>(m: Rooms<C>, room: RoomId): seq<Entry<C>> {
    if room in m then m[room] else []
  }

  function Put<C>(m: Rooms<C>, room: RoomId, members: seq<Entry<C>>): Rooms<C> {
    if members == [] then m - {room} else m[room := members]
  }

  /** One call, done at once. */
  function Perform<C(==)>(m: Rooms<C>, op: Op<C>): (Rooms<C>, Resp<C>) {
    match op
    case Join(room, user, send) => (Put(m, room, Joined(At(m, room), user, send)), Unit)
    case Leave(room, user, only) => (Put(m, room, Left(At(m, room), user, only)), Unit)
    case Broadcast(room, from) => (m, SendTo(Targets(At(m, room), from)))
  }

  // ----- the map is flat: (room, user) -> channel

  function Member<C>(m: Rooms<C>, room: RoomId, user: UserId): Option<C> {
    Find(At(m, room), user)
  }

  ghost predicate AllUnique<C>(m: Rooms<C>) {
    forall r :: r in m ==> Unique(m[r])
  }

  /** The calls are an assignment and a conditional delete on the flat map. */
  lemma PerformIsFlat<C>(m: Rooms<C>, op: Op<C>, room: RoomId, user: UserId)
    requires AllUnique(m)
    ensures Member(Perform(m, op).0, room, user) ==
      match op
      case Join(r, u, c) => if r == room && u == user then Some(c) else Member(m, room, user)
      case Leave(r, u, only) =>
        if r == room && u == user && (only.None? || Member(m, room, user) == only) then None else Member(m, room, user)
      case Broadcast(_, _) => Member(m, room, user)
  {
    match op
    case Join(r, u, c) => FindJoined(At(m, r), u, c, user);
    case Leave(r, u, only) => FindLeft(At(m, r), u, only, user);
    case Broadcast(_, _) =>
  }

  /** The channel is that of a member other than `from`. */
  ghost predicate ServesAnother<C>(rs: seq<Entry<C>>, from: UserId, c: C) {
    exists j :: 0 <= j < |rs| && rs[j].user != from && rs[j].send == c
  }

  ghost predicate HasUser<C>(rs: seq<Entry<C>>, u: UserId) {
    exists j :: 0 <= j < |rs| && rs[j].user == u
  }

  /** What a broadcast should answer, said of the members: the channels of all but the sender, as many as there are such members. */
  ghost predicate Answers<C>(m: Rooms<C>, room: RoomId, from: UserId, resp: Resp<C>) {
    var rs := At(m, room);
    && resp.SendTo?
    && (forall i :: 0 <= i < |resp.targets| ==> ServesAnother(rs, from, resp.targets[i]))
    && (forall j :: 0 <= j < |rs| && rs[j].user != from ==> rs[j].send in resp.targets)
    && |resp.targets| == |rs| - (if HasUser(rs, from) then 1 else 0)
  }

  lemma LongerServes<C>(head: Entry<C>, rest: seq<Entry<C>>, from: UserId, c: C)
    requires ServesAnother(rest, from, c)
    ensures ServesAnother([head] + rest, from, c)
  {
    var j :| 0 <= j < |rest| && rest[j].user != from && rest[j].send == c;
    assert ([head] + rest)[j + 1] == rest[j];
  }

  lemma LongerHasUser<C>(head: Entry<C>, rest: seq<Entry<C>>, u: UserId)
    ensures HasUser([head] + rest, u) <==> head.user == u || HasUser(rest, u)
  {
    var rs := [head] + rest;
    if j :| 0 <= j < |rest| && rest[j].user == u {
      assert rs[j + 1] == rest[j];
    }
    if head.user == u {
      assert rs[0] == head;
    }
    if j :| 0 <= j < |rs| && rs[j].user == u {
      assert j > 0 ==> rest[j - 1] == rs[j];
    }
  }

  lemma {:induction false} TargetsServe<C>(rs: seq<Entry<C>>, from: UserId, i: nat)
    requires i < |Targets(rs, from)|
    ensures ServesAnother(rs, from, Targets(rs, from)[i])
  {
    var rest := rs[1..];
    assert rs == [rs[0]] + rest;
    if rs[0].user == from {
      TargetsServe(rest, from, i);
      LongerServes(rs[0], rest, from, Targets(rest, from)[i]);
    } else if i > 0 {
      TargetsServe(rest, from, i - 1);
      LongerServes(rs[0], rest, from, Targets(rest, from)[i - 1]);
    }
  }

  lemma {:induction false} OthersAreTargets<C>(rs: seq<Entry<C>>, from: UserId, j: nat)
    requires j < |rs| && rs[j].user != from
    ensures rs[j].send in Targets(rs, from)
  {
    if j > 0 {
      OthersAreTargets(rs[1..], from, j - 1);
    }
  }

  lemma {:induction false} TargetsCount<C>(rs: seq<Entry<C>>, from: UserId)
    requires Unique(rs)
    ensures |Targets(rs, from)| == |rs| - (if HasUser(rs, from) then 1 else 0)
  {
    if rs != [] {
      var rest := rs[1..];
      assert rs == [rs[0]] + rest;
      TargetsCount(rest, from);
      LongerHasUser(rs[0], rest, from);
      if rs[0].user == from {
        NotTwice(rs);
      }
    }
  }

  lemma NotTwice<C>(rs: seq<Entry<C>>)
    requires Unique(rs) && rs != []
    ensures !HasUser(rs[1..], rs[0].user)
  {
    assert forall j :: 0 <= j < |rs[1..]| ==> rs[1..][j] == rs[j + 1];
  }

  /** And it does; a join and a leave answer nothing. */
  lemma PerformAnswers<C>(m: Rooms<C>, op: Op<C>)
    requires AllUnique(m)
    ensures if op.Broadcast? then Answers(m, op.room, op.from, Perform(m, op).1) else Perform(m, op).1 == Unit
  {
    if op.Broadcast? {
      var rs := At(m, op.room);
      TargetsCount(rs, op.from);
      forall i | 0 <= i < |Targets(rs, op.from)| ensures ServesAnother(rs, op.from, Targets(rs, op.from)[i]) {
        TargetsServe(rs, op.from, i);
      }
      forall j | 0 <= j < |rs| && rs[j].user != op.from ensures rs[j].send in Targets(rs, op.from) {
        OthersAreTargets(rs, op.from, j);
      }
    }
  }

  lemma PerformKeepsUnique<C>(m: Rooms<C>, op: Op<C>)
    requires AllUnique(m)
    ensures AllUnique(Perform(m, op).0)
  {
    match op
    case Join(r, u, c) => UniqueJoined(At(m, r), u, c);
    case Leave(r, u, only) => UniqueLeft(At(m, r), u, only);
    case Broadcast(_, _) =>
  }

  /** A broadcast goes to every member but the sender, once each, in roster order. */
  lemma {:induction false} TargetsAreTheOthers<C>(rs: seq<Entry<C>>, from: UserId)
    requires Unique(rs)
    ensures forall c :: c in Targets(rs, from) <==> exists e :: e in rs && e.user != from && e.send == c
    ensures |Targets(rs, from)| == if Find(rs, from).Some? then |rs| - 1 else |rs|
  {
    if rs != [] {
      TargetsAreTheOthers(rs[1..], from);
      FindSome(rs[1..], from);
      assert rs == [rs[0]] + rs[1..];
      forall c ensures c in Targets(rs, from) <==> exists e :: e in rs && e.user != from && e.send == c {
        if e :| e in rs && e.user != from && e.send == c {
          assert e == rs[0] || e in rs[1..];
        }
      }
    }
  }

  /** When the members' channels differ, a broadcast goes to each channel once, and not to the sender's. */
  lemma {:induction false} TargetsDiffer<C>(rs: seq<Entry<C>>, from: UserId)
    requires forall i, j :: 0 <= i < j < |rs| ==> rs[i].send != rs[j].send
    ensures forall i, j :: 0 <= i < j < |Targets(rs, from)| ==> Targets(rs, from)[i] != Targets(rs, from)[j]
    ensures forall c :: c in Targets(rs, from) ==> exists i :: 0 <= i < |rs| && rs[i].send == c
    ensures Find(rs, from).Some? ==> Find(rs, from).value !in Targets(rs, from)
  {
    if rs != [] {
      var rest := rs[1..];
      TargetsDiffer(rest, from);
      forall c | c in Targets(rest, from) ensures c != rs[0].send && exists i :: 0 <= i < |rs| && rs[i].send == c {
        var i :| 0 <= i < |rest| && rest[i].send == c;
        assert rs[i + 1].send == c;
      }
      var targets := Targets(rest, from);
      assert Targets(rs, from) == if rs[0].user == from then targets else [rs[0].send] + targets;
      assert forall j :: 0 <= j < |targets| ==> targets[j] in targets;
      FindSome(rest, from);
      if rs[0].user != from && Find(rest, from).Some? {
        var i :| 0 <= i < |rest| && rest[i] == Entry(from, Find(rest, from).value);
        assert rs[i + 1] == rest[i];
      }
    }
  }

  /** A conditional leave removes the leaver's channel, wherever it is in the room, and no other. */
  lemma {:induction false} LeftEntries<C>(rs: seq<Entry<C>>, u: UserId, c: C)
    requires Unique(rs) && forall e :: e in rs && e.send == c ==> e.user == u
    ensures forall e :: e in Left(rs, u, Some(c)) <==> e in rs && e.send != c
  {
    if rs != [] {
      assert rs == [rs[0]] + rs[1..];
      if rs[0].user != u {
        LeftEntries(rs[1..], u, c);
      } else {
        assert forall e :: e in rs[1..] ==> e.user != u;
      }
    }
  }

  // ----- one client's commands

  datatype Command = JoinCommand(room: RoomId) | LeaveCommand(room: RoomId) | OtherCommand

  /** A command acts on the registry and on the client's own set of rooms; room ids must be positive. */
  function Obey<C(==)>(m: Rooms<C>, mine: set<RoomId>, command: Command, u: UserId, c: C): (Rooms<C>, set<RoomId>) {
    match command
    case JoinCommand(room) => if room <= 0 then (m, mine) else (Perform(m, Join(room, u, c)).0, mine + {room})
    case LeaveCommand(room) => if room <= 0 then (m, mine) else (Perform(m, Leave(room, u, Some(c))).0, mine - {room})
    case OtherCommand => (m, mine)
  }

  /** What obeying means, user by user and room by room. */
  ghost predicate Obeyed<C>(
    m: Rooms<C>, mine: set<RoomId>, m': Rooms<C>, mine': set<RoomId>, command: Command, u: UserId, c: C)
  {
    if command.OtherCommand? || command.room <= 0 then m' == m && mine' == mine
    else
      var before := Member(m, command.room, u);
      && (Member(m', command.room, u) == if command.JoinCommand? then Some(c) else if before == Some(c) then None else before)
      && (forall r, v :: r != command.room || v != u ==> Member(m', r, v) == Member(m, r, v))
      && (command.room in mine' <==> command.JoinCommand?)
      && (forall r :: r != command.room ==> (r in mine' <==> r in mine))
  }

  lemma ObeyIsObeyed<C>(m: Rooms<C>, mine: set<RoomId>, command: Command, u: UserId, c: C)
    requires AllUnique(m)
    ensures var (m', mine') := Obey(m, mine, command, u, c); Obeyed(m, mine, m', mine', command, u, c)
  {
    if !command.OtherCommand? && command.room > 0 {
      var op := if command.JoinCommand? then Join(command.room, u, c) else Leave(command.room, u, Some(c));
      forall r, v ensures Member(Perform(m, op).0, r, v) ==
        if r == command.room && v == u
        then (if command.JoinCommand? then Some(c) else if Member(m, r, v) == Some(c) then None else Member(m, r, v))
        else Member(m, r, v)
      {
        PerformIsFlat(m, op, r, v);
      }
    }
  }

  function ObeyAll<C(==)>(
    m: Rooms<C>, mine: set<RoomId>, commands: seq<Command>, u: UserId, c: C): (Rooms<C>, set<RoomId>)
  {
    if commands == [] then (m, mine)
    else
      var (m', mine') := ObeyAll(m, mine, commands[..|commands| - 1], u, c);
      Obey(m', mine', commands[|commands| - 1], u, c)
  }

  /** Each command is obeyed in the state that the ones before it leave. */
  lemma OneMoreCommand<C>(m: Rooms<C>, mine: set<RoomId>, commands: seq<Command>, command: Command, u: UserId, c: C)
    requires AllUnique(m)
    ensures ObeyAll(m, mine, [], u, c) == (m, mine)
    ensures var (m1, mine1) := ObeyAll(m, mine, commands, u, c);
      var (m2, mine2) := ObeyAll(m, mine, commands + [command], u, c);
      Obeyed(m1, mine1, m2, mine2, command, u, c)
  {
    var (m1, mine1) := ObeyAll(m, mine, commands, u, c);
    assert (commands + [command])[..|commands|] == commands;
    ObeyAllKeepsUnique(m, mine, commands, u, c);
    ObeyIsObeyed(m1, mine1, command, u, c);
  }

  lemma {:induction false} ObeyAllKeepsUnique<C>(m: Rooms<C>, mine: set<RoomId>, commands: seq<Command>, u: UserId, c: C)
    requires AllUnique(m)
    ensures AllUnique(ObeyAll(m, mine, commands, u, c).0)
  {
    if commands != [] {
      var (m', mine') := ObeyAll(m, mine, commands[..|commands| - 1], u, c);
      ObeyAllKeepsUnique(m, mine, commands[..|commands| - 1], u, c);
      match commands[|commands| - 1]
      case JoinCommand(room) => PerformKeepsUnique(m', Join(room, u, c));
      case LeaveCommand(room) => PerformKeepsUnique(m', Leave(room, u, Some(c)));
      case OtherCommand =>
    }
  }

  /** The registry after the client has left every room of `mine`. */
  function LeftAll<C(==)>(m: Rooms<C>, mine: set<RoomId>, u: UserId, c: C): Rooms<C> {
    map r | r in m && (r in mine ==> Left(m[r], u, Some(c)) != []) :: if r in mine then Left(m[r], u, Some(c)) else m[r]
  }

  lemma LeaveOneMore<C>(m: Rooms<C>, mine: set<RoomId>, room: RoomId, u: UserId, c: C)
    requires room !in mine && forall r :: r in m ==> m[r] != []
    ensures Perform(LeftAll(m, mine, u, c), Leave(room, u, Some(c))).0 == LeftAll(m, mine + {room}, u, c)
  {
  }

  /** The client's channel is only in rooms it has in its set, and there under its own user. */
  ghost predicate Booked<C>(m: Rooms<C>, mine: set<RoomId>, u: UserId, c: C) {
    AllUnique(m) && forall r, e :: r in m && e in m[r] && e.send == c ==> e.user == u && r in mine
  }

  lemma ObeyKeepsBooked<C>(m: Rooms<C>, mine: set<RoomId>, command: Command, u: UserId, c: C)
    requires Booked(m, mine, u, c)
    ensures Booked(Obey(m, mine, command, u, c).0, Obey(m, mine, command, u, c).1, u, c)
  {
    match command
    case JoinCommand(room) =>
      UniqueJoined(At(m, room), u, c);
    case LeaveCommand(room) =>
      UniqueLeft(At(m, room), u, Some(c));
      LeftEntries(At(m, room), u, c);
    case OtherCommand =>
  }

  lemma {:induction false} ObeyAllKeepsBooked<C>(m: Rooms<C>, mine: set<RoomId>, commands: seq<Command>, u: UserId, c: C)
    requires Booked(m, mine, u, c)
    ensures var (m', mine') := ObeyAll(m, mine, commands, u, c); Booked(m', mine', u, c)
  {
    if commands != [] {
      var front := commands[..|commands| - 1];
      ObeyAllKeepsBooked(m, mine, front, u, c);
      var (m', mine') := ObeyAll(m, mine, front, u, c);
      ObeyKeepsBooked(m', mine', commands[|commands| - 1], u, c);
    }
  }

  /** Whatever a client did, after it has left all its rooms its channel is nowhere and the others are where they were. */
  lemma SessionLeavesNothing<C>(m: Rooms<C>, commands: seq<Command>, u: UserId, c: C)
    requires Booked(m, {}, u, c)
    ensures var (m', mine) := ObeyAll(m, {}, commands, u, c); var end := LeftAll(m', mine, u, c);
      forall r, e :: r in end && e in end[r] <==> r in m' && e in m'[r] && e.send != c
  {
    ObeyAllKeepsBooked(m, {}, commands, u, c);
    var (m', mine) := ObeyAll(m, {}, commands, u, c);
    var end := LeftAll(m', mine, u, c);
    forall r, e ensures r in end && e in end[r] <==> r in m' && e in m'[r] && e.send != c {
      if r in m' && r in mine {
        LeftEntries(m'[r], u, c);
      }
    }
  }
}
