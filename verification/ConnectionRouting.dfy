/**
 What unregistering does to a newer connection of the same user. It is a step apart from the withdrawal
 that earned it, and deletes the user's route whoever is connected by then.
 */
module ConnectionRouting {
  import opened Option
  import opened Roster
  import opened ConnectionProtocol

  /** The table changes under the acting connection's user only, and gains that connection only, if fresh. */
  lemma NextTable(s: State, x: Action)
    requires Sane(s) && x.c < |s.conns|
    ensures var u, table' := s.conns[x.c].user, Next(s, x).table;
      && (forall v :: v in table' && v != u ==> v in s.table && table'[v] == s.table[v])
      && (u in table' ==> (u in s.table && table'[u] == s.table[u]) || (table'[u] == x.c && s.conns[x.c].pc.Fresh?))
  {
  }

  lemma NextConn(s: State, x: Action, d: ConnId)
    requires Sane(s) && x.c < |s.conns| && d < |s.conns|
    ensures d < |Next(s, x).conns| && Next(s, x).conns[d].user == s.conns[d].user
    ensures !s.conns[d].pc.Fresh? ==> !Next(s, x).conns[d].pc.Fresh?
  {
  }

  lemma NotMappedNext(s: State, x: Action, d: ConnId)
    requires Sane(s) && x.c < |s.conns| && d < |s.conns| && !s.conns[d].pc.Fresh? && !Mapped(s, d)
    ensures d < |Next(s, x).conns| && !Next(s, x).conns[d].pc.Fresh? && !Mapped(Next(s, x), d)
  {
    NextTable(s, x);
    NextConn(s, x, d);
  }

  lemma {:induction false} NeverMappedAgain(s: State, xs: seq<Action>, s': State, d: ConnId)
    requires Run(s, xs, s') && d < |s.conns| && !s.conns[d].pc.Fresh? && !Mapped(s, d)
    ensures d < |s'.conns| && !Mapped(s', d)
    decreases |xs|
  {
    if xs != [] {
      NotMappedNext(s, xs[0], d);
      NeverMappedAgain(Next(s, xs[0]), xs[1..], s', d);
    }
  }

  /** The connection withdraws its entry after having been live. */
  predicate Withdraws(s: State, c: ConnId) {
    c < |s.conns| && s.conns[c].pc.Ending? && Mapped(s, c)
  }

  predicate StillThere(conn: Conn) {
    BeforeWithdrawal(conn.pc) && !conn.displaced
  }

  /** The connection is of user `u`, was admitted after `s`, and in `s'` has neither been displaced nor withdrawn. */
  predicate CameSince(s: State, s': State, u: UserId, d: ConnId) {
    d < |s.conns| && d < |s'.conns| && s.conns[d].pc.Fresh? && s'.conns[d].user == u && StillThere(s'.conns[d])
  }

  /**
   When a connection gets to unregister its user, the user is connected again if and only if one was admitted since
   it withdrew, and has neither been displaced nor withdrawn. Its route is what the unregistering deletes.
   */
  lemma UnregisterHitsIff(users: seq<UserId>, xs: seq<Action>, s: State, c: ConnId, ys: seq<Action>, s': State)
    requires Run(Init(users), xs, s) && Sane(s) && Withdraws(s, c)
    requires Run(Next(s, Step(c, true)), ys, s') && c < |s'.conns| && s'.conns[c].pc.Unregistering?
    ensures Sane(s') && |s'.conns| == |s.conns|
    ensures s'.conns[c].user in s'.table <==> exists d :: CameSince(s, s', s'.conns[c].user, d)
    ensures Next(s', Step(c, true)).routes == s'.routes - {s'.conns[c].user}
  {
    InitInv(users);
    RunKeepsInv(Init(users), xs, s);
    HitsIff(s, c, ys, s');
    UnregisterDeletesRoute(s', c);
  }

  lemma UnregisterDeletesRoute(s: State, c: ConnId)
    requires Sane(s) && c < |s.conns| && s.conns[c].pc.Unregistering?
    ensures Next(s, Step(c, true)).routes == s.routes - {s.conns[c].user}
  {
  }

  lemma HitsIff(s: State, c: ConnId, ys: seq<Action>, s': State)
    requires Inv(s) && Withdraws(s, c)
    requires Run(Next(s, Step(c, true)), ys, s') && c < |s'.conns| && s'.conns[c].pc.Unregistering?
    ensures Inv(s') && |s'.conns| == |s.conns|
    ensures s'.conns[c].user in s'.table <==> exists d :: CameSince(s, s', s'.conns[c].user, d)
  {
    var mid, u := Next(s, Step(c, true)), s'.conns[c].user;
    NextKeepsInv(s, Step(c, true));
    RunKeepsInv(mid, ys, s');
    UsersStay(mid, ys, s');
    NextConn(s, Step(c, true), c);
    if u in s'.table {
      MappedWasFresh(s, c, ys, s');
      MappedIsStillThere(s', s'.table[u]);
      assert CameSince(s, s', u, s'.table[u]);
    }
    if d :| CameSince(s, s', u, d) {
      MappedIsStillThere(s', d);
    }
  }

  lemma MappedIsStillThere(s: State, d: ConnId)
    requires Inv(s) && d < |s.conns|
    ensures Mapped(s, d) <==> StillThere(s.conns[d])
  {
    assert Unregisters(s, d);
  }

  lemma MappedWasFresh(s: State, c: ConnId, ys: seq<Action>, s': State)
    requires Inv(s) && Withdraws(s, c) && Run(Next(s, Step(c, true)), ys, s') && Inv(s') && |s'.conns| == |s.conns|
    requires s'.conns[c].user == s.conns[c].user && s.conns[c].user in s'.table && s'.conns[c].pc.Unregistering?
    ensures s.conns[s'.table[s.conns[c].user]].pc.Fresh?
  {
    var mid, d := Next(s, Step(c, true)), s'.table[s.conns[c].user];
    assert Mapped(s', d) && Unregisters(s', d);
    UsersStay(mid, ys, s');
    if !s.conns[d].pc.Fresh? {
      assert !Mapped(mid, d);
      NeverMappedAgain(mid, ys, s', d);
    }
  }

  lemma {:induction false} UsersStay(s: State, xs: seq<Action>, s': State)
    requires Run(s, xs, s')
    ensures |s'.conns| == |s.conns| && forall d :: 0 <= d < |s.conns| ==> s'.conns[d].user == s.conns[d].user
    decreases |xs|
  {
    if xs != [] {
      UsersStay(Next(s, xs[0]), xs[1..], s');
    }
  }

  lemma {:induction false} RunSnoc(s: State, xs: seq<Action>, s': State, x: Action)
    requires Run(s, xs, s') && Sane(s') && x.c < |s'.conns|
    ensures Run(s, xs + [x], Next(s', x))
    decreases |xs|
  {
    if xs == [] {
      assert Run(Next(s', x), [x][1..], Next(s', x));
    } else {
      RunSnoc(Next(s, xs[0]), xs[1..], s', x);
      assert (xs + [x])[1..] == xs[1..] + [x];
    }
  }

  /** A run of two connections of one user, moment by moment. */
  function Moment(k: nat, u: UserId): State {
    match k
    case 0 => State(map[], [Conn(u, Fresh, 0, false, 0), Conn(u, Fresh, 0, false, 0)], {})
    case 1 => State(map[u := 0], [Conn(u, Displacing(None), 0, false, 0), Conn(u, Fresh, 0, false, 0)], {})
    case 2 => State(map[u := 0], [Conn(u, Registering, 0, false, 0), Conn(u, Fresh, 0, false, 0)], {})
    case 3 => State(map[u := 0], [Conn(u, Live, 0, false, 0), Conn(u, Fresh, 0, false, 0)], {u})
    case 4 => State(map[u := 0], [Conn(u, Ending, 0, false, 0), Conn(u, Fresh, 0, false, 0)], {u})
    case 5 => State(map[], [Conn(u, Closing(true), 0, false, 0), Conn(u, Fresh, 0, false, 0)], {u})
    case 6 => State(map[], [Conn(u, Unregistering, 1, false, 0), Conn(u, Fresh, 0, false, 0)], {u})
    case 7 => State(map[u := 1], [Conn(u, Unregistering, 1, false, 0), Conn(u, Displacing(None), 0, false, 0)], {u})
    case 8 => State(map[u := 1], [Conn(u, Unregistering, 1, false, 0), Conn(u, Registering, 0, false, 0)], {u})
    case 9 => State(map[u := 1], [Conn(u, Unregistering, 1, false, 0), Conn(u, Live, 0, false, 0)], {u})
    case _ => State(map[u := 1], [Conn(u, Gone, 1, false, 1), Conn(u, Live, 0, false, 0)], {})
  }

  /** Which of the two moves: the older one comes and goes, the newer one comes, the older one unregisters. */
  function Mover(k: nat): ConnId {
    if 6 <= k < 9 then 1 else 0
  }

  predicate Follows(u: UserId, k: nat) {
    && Sane(Moment(k, u)) && Mover(k) < |Moment(k, u).conns|
    && Next(Moment(k, u), Step(Mover(k), true)) == Moment(k + 1, u)
  }

  lemma OlderComes(u: UserId)
    ensures Follows(u, 0) && Follows(u, 1) && Follows(u, 2)
  {
  }

  lemma OlderWithdraws(u: UserId)
    ensures Follows(u, 3) && Follows(u, 4)
  {
    assert map[u := 0] - {u} == map[];
  }

  lemma OlderCloses(u: UserId)
    ensures Follows(u, 5)
  {
  }

  lemma NewerComes(u: UserId)
    ensures Follows(u, 6) && Follows(u, 7) && Follows(u, 8)
  {
  }

  lemma OlderUnregisters(u: UserId)
    ensures Follows(u, 9)
  {
    assert {u} - {u} == {};
  }

  lemma AllFollow(u: UserId, k: nat)
    requires k < 10
    ensures Follows(u, k)
  {
    if k < 3 {
      OlderComes(u);
    } else if k < 5 {
      OlderWithdraws(u);
    } else if k < 6 {
      OlderCloses(u);
    } else if k < 9 {
      NewerComes(u);
    } else {
      OlderUnregisters(u);
    }
  }

  lemma {:induction false} UpTo(u: UserId, k: nat) returns (xs: seq<Action>)
    requires k <= 10
    ensures Run(Moment(0, u), xs, Moment(k, u))
  {
    if k == 0 {
      xs := [];
    } else {
      xs := UpTo(u, k - 1);
      AllFollow(u, k - 1);
      RunSnoc(Moment(0, u), xs, Moment(k - 1, u), Step(Mover(k - 1), true));
      xs := xs + [Step(Mover(k - 1), true)];
    }
  }

  /** A user reconnects just before the old connection unregisters: the new one is live, mapped, and routed nowhere. */
  lemma UnregisterStripsNewer(u: UserId) returns (xs: seq<Action>, s: State)
    ensures Run(Init([u, u]), xs, s) && |s.conns| == 2
    ensures s.conns[1].pc == Live && Mapped(s, 1) && u !in s.routes
  {
    s := Moment(10, u);
    assert Init([u, u]) == Moment(0, u);
    xs := UpTo(u, 10);
  }
}
