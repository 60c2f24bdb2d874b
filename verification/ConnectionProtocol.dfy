/**
 The life of connections under concurrency: connection `c` is served by thread `c`,
 from being admitted to the client table, over registering and reading, to withdrawing,
 closing and unregistering. Users reconnect at any time, so connections displace each other.
 `closes` counts the calls that close a connection; nothing here relies on closing being idempotent.
 */
module ConnectionProtocol {
  import opened Option
  import opened Roster
  import opened Connections

  type ConnId = nat

  datatype PC =
    | Fresh                            // not admitted yet
    | Displacing(victim: Option<ConnId>)    // admitted; closes whom it displaced
    | Registering
    | Rejected                         // registration failed; withdraws
    | Live                             // reading
    | Ending                           // reading is over; withdraws
    | Closing(wasLive: bool)           // has withdrawn its own entry; closes itself
    | Unregistering
    | Gone

  datatype Conn = Conn(user: UserId, pc: PC, closes: nat, displaced: bool, unregisters: nat)

  /** `routes` are the users whom the registry in Redis routes to this node. */
  datatype State = State(table: map<UserId, ConnId>, conns: seq<Conn>, routes: set<UserId>)

  /** The outcome of a registration, and the end of a connection, are up to the environment. */
  datatype Action = Step(c: ConnId, registered: bool)

  function SetPC(s: State, c: ConnId, pc: PC): State
    requires c < |s.conns|
  {
    s.(conns := s.conns[c := s.conns[c].(pc := pc)])
  }

  function CloseOne(s: State, c: ConnId): State
    requires c < |s.conns|
  {
    s.(conns := s.conns[c := s.conns[c].(closes := s.conns[c].closes + 1)])
  }

  function MarkDisplaced(s: State, victim: Option<ConnId>): State
    requires victim.Some? ==> victim.value < |s.conns|
  {
    if victim.None? then s else s.(conns := s.conns[victim.value := s.conns[victim.value].(displaced := true)])
  }

  predicate Sane(s: State) {
    && (forall u :: u in s.table ==> s.table[u] < |s.conns|)
    && (forall c :: 0 <= c < |s.conns| && s.conns[c].pc.Displacing? && s.conns[c].pc.victim.Some?
          ==> s.conns[c].pc.victim.value < |s.conns|)
  }

  function Next(s: State, x: Action): State
    requires Sane(s) && x.c < |s.conns|
  {
    var c, me := x.c, s.conns[x.c];
    match me.pc
    case Fresh =>
      var (table, victim) := Admit(s.table, me.user, c);
      SetPC(MarkDisplaced(s.(table := table), victim), c, Displacing(victim))
    case Displacing(victim) =>
      SetPC(if victim.Some? then CloseOne(s, victim.value) else s, c, Registering)
    case Registering =>
      if x.registered then SetPC(s.(routes := s.routes + {me.user}), c, Live) else SetPC(s, c, Rejected)
    case Live => SetPC(s, c, Ending)
    case Rejected =>
      var (table, mine) := Withdraw(s.table, me.user, Some(c));
      SetPC(s.(table := table), c, if mine.Some? then Closing(false) else Gone)
    case Ending =>
      var (table, mine) := Withdraw(s.table, me.user, Some(c));
      SetPC(s.(table := table), c, if mine.Some? then Closing(true) else Gone)
    case Closing(wasLive) =>
      SetPC(CloseOne(s, c), c, if wasLive then Unregistering else Gone)
    case Unregistering =>
      s.(conns := s.conns[c := me.(pc := Gone, unregisters := me.unregisters + 1)], routes := s.routes - {me.user})
    case Gone => s
  }

  // ----- who answers for a connection

  predicate Mapped(s: State, c: ConnId)
    requires c < |s.conns|
  {
    s.conns[c].user in s.table && s.table[s.conns[c].user] == c
  }

  /** Thread `t` is about to close `c`. */
  predicate Closes(s: State, t: ConnId, c: ConnId)
    requires t < |s.conns|
  {
    var pc := s.conns[t].pc;
    (pc.Displacing? && pc.victim == Some(c)) || (pc.Closing? && t == c)
  }

  ghost predicate Condemned(s: State, c: ConnId) {
    exists t :: 0 <= t < |s.conns| && Closes(s, t, c)
  }

  predicate BeforeWithdrawal(pc: PC) {
    pc.Displacing? || pc.Registering? || pc.Rejected? || pc.Live? || pc.Ending?
  }

  /** Admitted, a connection is mapped, or has one thread about to close it, or is closed once: always one of the three. */
  ghost predicate OneOfThree(s: State, c: ConnId)
    requires c < |s.conns|
  {
    var me := s.conns[c];
    && me.closes <= 1
    && (Mapped(s, c) ==> !Condemned(s, c) && me.closes == 0)
    && (Condemned(s, c) ==> me.closes == 0)
    && (if me.pc.Fresh? then !Mapped(s, c) && !Condemned(s, c) && me.closes == 0
        else Mapped(s, c) || Condemned(s, c) || me.closes == 1)
  }

  ghost predicate OneCloser(s: State) {
    forall t, u, c :: 0 <= t < |s.conns| && 0 <= u < |s.conns| && Closes(s, t, c) && Closes(s, u, c) ==> t == u
  }

  /** Only a connection that was never displaced gets to unregister its user, and once. */
  predicate Unregisters(s: State, c: ConnId)
    requires c < |s.conns|
  {
    var me := s.conns[c];
    && me.unregisters <= (if me.pc.Gone? then 1 else 0)
    && (Mapped(s, c) <==> BeforeWithdrawal(me.pc) && !me.displaced)
    && (me.displaced ==> !me.pc.Fresh? && !me.pc.Closing? && !me.pc.Unregistering? && me.unregisters == 0)
  }

  ghost predicate Inv(s: State) {
    && Sane(s)
    && (forall u :: u in s.table ==> s.conns[s.table[u]].user == u)
    && (forall c :: 0 <= c < |s.conns| ==> OneOfThree(s, c) && Unregisters(s, c))
    && OneCloser(s)
  }

  /** Any number of connections, of any users, none admitted yet. */
  function Init(users: seq<UserId>): State {
    State(map[], seq(|users|, c requires 0 <= c < |users| => Conn(users[c], Fresh, 0, false, 0)), {})
  }

  lemma InitInv(users: seq<UserId>)
    ensures Inv(Init(users))
  {
    var s := Init(users);
    assert forall t, c :: 0 <= t < |s.conns| ==> !Closes(s, t, c);
  }

  lemma NextKeepsInv(s: State, x: Action)
    requires Inv(s) && x.c < |s.conns|
    ensures Inv(Next(s, x))
  {
    var s', me, c := Next(s, x), s.conns[x.c], x.c;
    assert OneOfThree(s, c) && Unregisters(s, c);
    match me.pc
    case Fresh => AdmitKeepsInv(s, x);
    case Displacing(_) => CloseVictimKeepsInv(s, x);
    case Closing(_) => CloseSelfKeepsInv(s, x);
    case Rejected => WithdrawKeepsInv(s, x);
    case Ending => WithdrawKeepsInv(s, x);
    case _ => QuietKeepsInv(s, x);
  }

  lemma QuietKeepsInv(s: State, x: Action)
    requires Inv(s) && x.c < |s.conns|
    requires var pc := s.conns[x.c].pc; pc.Registering? || pc.Live? || pc.Unregistering? || pc.Gone?
    ensures Inv(Next(s, x))
  {
    var s' := Next(s, x);
    assert forall t: nat, d: nat :: 0 <= t < |s.conns| ==> (Closes(s', t, d) <==> Closes(s, t, d));
    forall d | 0 <= d < |s.conns| ensures OneOfThree(s', d) && Unregisters(s', d) {
      assert OneOfThree(s, d) && Unregisters(s, d);
      assert Condemned(s', d) <==> Condemned(s, d);
    }
  }

  /** Admitting puts one closing in prospect, that of the displaced. */
  lemma AdmitCloses(s: State, x: Action)
    requires Sane(s) && x.c < |s.conns| && s.conns[x.c].pc.Fresh?
    ensures |Next(s, x).conns| == |s.conns|
    ensures forall t: nat, d: nat :: 0 <= t < |s.conns| ==>
      (Closes(Next(s, x), t, d) <==> Closes(s, t, d) || (t == x.c && Admit(s.table, s.conns[x.c].user, x.c).1 == Some(d)))
  {
  }

  lemma AdmitKeepsInv(s: State, x: Action)
    requires Inv(s) && x.c < |s.conns| && s.conns[x.c].pc.Fresh?
    ensures Inv(Next(s, x))
  {
    var s', me, c := Next(s, x), s.conns[x.c], x.c;
    assert OneOfThree(s, c);
    var victim := Admit(s.table, me.user, c).1;
    assert victim.Some? ==> OneOfThree(s, victim.value) && Unregisters(s, victim.value) && Mapped(s, victim.value);
    AdmitCloses(s, x);
    forall d | 0 <= d < |s.conns| ensures OneOfThree(s', d) && Unregisters(s', d) {
      assert OneOfThree(s, d) && Unregisters(s, d);
      if victim == Some(d) {
        assert Closes(s', c, d);
      } else {
        assert Condemned(s', d) <==> Condemned(s, d);
      }
    }
  }

  lemma CloseVictimKeepsInv(s: State, x: Action)
    requires Inv(s) && x.c < |s.conns| && s.conns[x.c].pc.Displacing?
    ensures Inv(Next(s, x))
  {
    var s', me, c := Next(s, x), s.conns[x.c], x.c;
    var victim := me.pc.victim;
    assert victim.Some? ==> Closes(s, c, victim.value);
    forall t: nat, d: nat | t < |s.conns| ensures Closes(s', t, d) <==> Closes(s, t, d) && victim != Some(d) {
      if t != c && Closes(s, t, d) && victim == Some(d) {
        assert Closes(s, c, d);
      }
    }
    forall d | 0 <= d < |s.conns| ensures OneOfThree(s', d) && Unregisters(s', d) {
      assert OneOfThree(s, d) && Unregisters(s, d);
      if victim == Some(d) {
        assert !Condemned(s', d);
      } else {
        assert Condemned(s', d) <==> Condemned(s, d);
      }
    }
  }

  lemma CloseSelfKeepsInv(s: State, x: Action)
    requires Inv(s) && x.c < |s.conns| && s.conns[x.c].pc.Closing?
    ensures Inv(Next(s, x))
  {
    var s', c := Next(s, x), x.c;
    assert Closes(s, c, c);
    assert forall t: nat, d: nat :: 0 <= t < |s.conns| ==> (Closes(s', t, d) <==> Closes(s, t, d) && d != c);
    forall d | 0 <= d < |s.conns| ensures OneOfThree(s', d) && Unregisters(s', d) {
      assert OneOfThree(s, d) && Unregisters(s, d);
      if d == c {
        assert !Condemned(s', d);
      } else {
        assert Condemned(s', d) <==> Condemned(s, d);
      }
    }
  }

  lemma WithdrawKeepsInv(s: State, x: Action)
    requires Inv(s) && x.c < |s.conns| && (s.conns[x.c].pc.Rejected? || s.conns[x.c].pc.Ending?)
    ensures Inv(Next(s, x))
  {
    var s', me, c := Next(s, x), s.conns[x.c], x.c;
    assert OneOfThree(s, c);
    assert forall t: nat, d: nat :: 0 <= t < |s.conns| ==> (Closes(s', t, d) <==> Closes(s, t, d) || (t == c && d == c && Mapped(s, c)));
    forall d | 0 <= d < |s.conns| ensures OneOfThree(s', d) && Unregisters(s', d) {
      assert OneOfThree(s, d) && Unregisters(s, d);
      if d == c && Mapped(s, c) {
        assert Closes(s', c, d);
      } else {
        assert Condemned(s', d) <==> Condemned(s, d);
      }
    }
  }

  ghost predicate Run(s: State, xs: seq<Action>, s': State)
    decreases |xs|
  {
    if xs == [] then s' == s else Sane(s) && xs[0].c < |s.conns| && Run(Next(s, xs[0]), xs[1..], s')
  }

  lemma {:induction false} RunKeepsInv(s: State, xs: seq<Action>, s': State)
    requires Inv(s) && Run(s, xs, s')
    ensures Inv(s') && |s'.conns| == |s.conns|
    decreases |xs|
  {
    if xs != [] {
      NextKeepsInv(s, xs[0]);
      RunKeepsInv(Next(s, xs[0]), xs[1..], s');
    }
  }

  /** No admitted connection is ever lost open, and none is closed twice. */
  lemma EveryConnectionIsAccountedFor(users: seq<UserId>, xs: seq<Action>, s: State, c: ConnId)
    requires Run(Init(users), xs, s) && c < |s.conns| && !s.conns[c].pc.Fresh?
    ensures (Mapped(s, c) && !Condemned(s, c) && s.conns[c].closes == 0)
         || (!Mapped(s, c) && Condemned(s, c) && s.conns[c].closes == 0)
         || (!Mapped(s, c) && !Condemned(s, c) && s.conns[c].closes == 1)
    ensures OneCloser(s)
  {
    InitInv(users);
    RunKeepsInv(Init(users), xs, s);
    assert OneOfThree(s, c);
  }

  /** A connection whose registration fails is not read from: it withdraws next, closes itself, and never unregisters its user. */
  lemma FailedRegistrationWithdraws(users: seq<UserId>, xs: seq<Action>, s: State, c: ConnId)
    requires Run(Init(users), xs, s) && c < |s.conns| && s.conns[c].pc.Registering?
    ensures Sane(s)
    ensures var s1 := Next(s, Step(c, false)); Sane(s1) && s1.table == s.table && s1.routes == s.routes
    ensures var s2 := Next(Next(s, Step(c, false)), Step(c, false));
      && Sane(s2) && |s2.conns| == |s.conns| && !Mapped(s2, c)
      && s2.conns[c].pc == if Mapped(s, c) then Closing(false) else Gone
    ensures Mapped(s, c) ==> var s3 := Next(Next(Next(s, Step(c, false)), Step(c, false)), Step(c, false));
      s3.conns[c].pc.Gone? && s3.conns[c].closes == 1 && s3.conns[c].unregisters == 0 && s3.routes == s.routes
  {
    InitInv(users);
    RunKeepsInv(Init(users), xs, s);
    NextKeepsInv(s, Step(c, false));
    NextKeepsInv(Next(s, Step(c, false)), Step(c, false));
    assert OneOfThree(s, c) && Unregisters(s, c);
  }

  /** Only a successful registration makes a connection live, and routes its user here. */
  lemma LiveIsRegistered(s: State, x: Action)
    requires Sane(s) && x.c < |s.conns| && s.conns[x.c].pc.Registering?
    ensures Next(s, x).conns[x.c].pc.Live? <==> x.registered
    ensures Next(s, x).routes == if x.registered then s.routes + {s.conns[x.c].user} else s.routes
  {
  }

  /** When everybody is done, the table is empty and every connection was closed exactly once. */
  lemma AllGoneAllClosed(users: seq<UserId>, xs: seq<Action>, s: State)
    requires Run(Init(users), xs, s) && forall c :: 0 <= c < |s.conns| ==> s.conns[c].pc.Gone?
    ensures s.table == map[] && forall c :: 0 <= c < |s.conns| ==> s.conns[c].closes == 1
  {
    InitInv(users);
    RunKeepsInv(Init(users), xs, s);
    assert forall u :: u in s.table ==> Mapped(s, s.table[u]);
    forall c | 0 <= c < |s.conns| ensures !Mapped(s, c) {
      assert Unregisters(s, c);
    }
    assert s.table == map[];
    forall c | 0 <= c < |s.conns| ensures s.conns[c].closes == 1 {
      assert OneOfThree(s, c);
    }
  }

  /**
   A connection that was displaced, at whatever moment, takes nobody out of the table and
   never unregisters its user, whose newer connection stays as it is.
   */
  lemma DisplacedLeavesSuccessorAlone(users: seq<UserId>, xs: seq<Action>, s: State, x: Action)
    requires Run(Init(users), xs, s) && x.c < |s.conns| && s.conns[x.c].displaced
    ensures Sane(s) && Next(s, x).table == s.table && Next(s, x).conns[x.c].unregisters == 0
  {
    InitInv(users);
    RunKeepsInv(Init(users), xs, s);
    assert Unregisters(s, x.c);
  }
}
