/**
 Logins, logouts and verifications running concurrently on the two indexes, with time passing.
 A verification is two reads and a logout is a read and a script; anything may happen between.
 The indexes turn out to be one map from user to session, on which every call is atomic.
 */
module SessionProtocol {
  import opened Option
  import opened SessionStore

  datatype PC =
    | Idle
    | LoggingIn(u: UserId, sid: SessionId)
    | Verifying(sid: SessionId)
    | VerifyRead(sid: SessionId, u: UserId)
    | LoggingOut(sid: SessionId)
    | LogoutRead(sid: SessionId, u: UserId)
    | Answered(sid: SessionId, verdict: Verdict)
    | LoggedOut

  /** `issued` records every session id handed out so far, and to whom. */
  datatype State = State(x: Indexes, now: nat, issued: map<SessionId, UserId>, threads: seq<PC>)

  datatype Call = Login(user: UserId, fresh_: SessionId) | Verify(session: SessionId) | Logout(session: SessionId)

  datatype Action =
    | Tick(d: nat)
    | Begin(t: nat, call: Call)
    | Step(t: nat)
    | Finish(t: nat)
    | Purge(sids: set<SessionId>, users: set<UserId>)

  function Dead<K, T>(m: map<K, Timed<T>>, now: nat): set<K> {
    set k | k in m && m[k].expires <= now
  }

  predicate Enabled(s: State, a: Action) {
    match a
    case Tick(_) => true
    case Begin(t, call) => t < |s.threads| && s.threads[t].Idle? && (call.Login? ==> call.fresh_ !in s.issued)
    case Step(t) => t < |s.threads| &&
      (s.threads[t].LoggingIn? || s.threads[t].Verifying? || s.threads[t].VerifyRead? ||
       s.threads[t].LoggingOut? || s.threads[t].LogoutRead?)
    case Finish(t) => t < |s.threads| && (s.threads[t].Answered? || s.threads[t].LoggedOut?)
    case Purge(sids, users) => sids <= Dead(s.x.sess, s.now) && users <= Dead(s.x.user, s.now)
  }

  function Goto(s: State, t: nat, pc: PC): State
    requires t < |s.threads|
  {
    s.(threads := s.threads[t := pc])
  }

  function Next(ttl: nat, s: State, a: Action): State
    requires Enabled(s, a)
  {
    match a
    case Tick(d) => s.(now := s.now + d)
    case Purge(sids, users) => s.(x := Indexes(s.x.sess - sids, s.x.user - users))
    case Finish(t) => Goto(s, t, Idle)
    case Begin(t, call) =>
      (match call
       case Login(u, sid) => Goto(s, t, LoggingIn(u, sid)).(issued := s.issued[sid := u])
       case Verify(sid) => Goto(s, t, Verifying(sid))
       case Logout(sid) => Goto(s, t, LoggingOut(sid)))
    case Step(t) =>
      match s.threads[t]
      case LoggingIn(u, sid) => Goto(s, t, LoggedOut).(x := RefreshScript(s.x, s.now, ttl, u, sid))
      case Verifying(sid) =>
        var u := Live(s.x.sess, sid, s.now);
        Goto(s, t, if u.None? then Answered(sid, Invalid) else VerifyRead(sid, u.value))
      case VerifyRead(sid, u) => Goto(s, t, Answered(sid, Judge(sid, u, Live(s.x.user, u, s.now))))
      case LoggingOut(sid) =>
        var u := Live(s.x.sess, sid, s.now);
        Goto(s, t, if u.None? then LoggedOut else LogoutRead(sid, u.value))
      case LogoutRead(sid, u) => Goto(s, t, LoggedOut).(x := DeleteScript(s.x, s.now, sid, u))
      case _ => s
  }

  // ----- the one map

  /** User to current session: what is live in the user index. */
  function Current(s: State): map<UserId, Timed<SessionId>> {
    CurrentOf(s.x, s.now)
  }

  /** The atomic check: is this the current session of some user? */
  ghost predicate IsCurrent(s: State, sid: SessionId, u: UserId) {
    u in Current(s) && Current(s)[u].value == sid
  }

  ghost predicate UsersMirrored(x: Indexes, now: nat) {
    forall u :: u in x.user && now < x.user[u].expires ==>
      x.user[u].value in x.sess && x.sess[x.user[u].value] == Timed(u, x.user[u].expires)
  }

  ghost predicate SessionsMirrored(x: Indexes, now: nat) {
    forall sid :: sid in x.sess && now < x.sess[sid].expires ==>
      x.sess[sid].value in x.user && x.user[x.sess[sid].value] == Timed(sid, x.sess[sid].expires)
  }

  /** What is live in one index is live in the other, with the same expiry. */
  ghost predicate Mirrored(x: Indexes, now: nat) {
    UsersMirrored(x, now) && SessionsMirrored(x, now)
  }

  predicate IssuedTo(s: State, sid: SessionId, u: UserId) {
    sid in s.issued && s.issued[sid] == u
  }

  ghost predicate Attributed(s: State) {
    && (forall sid :: sid in s.x.sess ==> IssuedTo(s, sid, s.x.sess[sid].value))
    && (forall u :: u in s.x.user ==> IssuedTo(s, s.x.user[u].value, u))
    && (forall t :: 0 <= t < |s.threads| && (s.threads[t].VerifyRead? || s.threads[t].LogoutRead?) ==>
          IssuedTo(s, s.threads[t].sid, s.threads[t].u))
  }

  predicate IsNew(s: State, sid: SessionId, u: UserId) {
    IssuedTo(s, sid, u) && sid !in s.x.sess && (u in s.x.user ==> s.x.user[u].value != sid)
  }

  /** A session id on its way into the indexes is in neither yet, and on its way once. */
  ghost predicate Pending(s: State) {
    && (forall t :: 0 <= t < |s.threads| && s.threads[t].LoggingIn? ==>
          IsNew(s, s.threads[t].sid, s.threads[t].u))
    && (forall t, v :: 0 <= t < v < |s.threads| && s.threads[t].LoggingIn? && s.threads[v].LoggingIn? ==>
          s.threads[t].sid != s.threads[v].sid)
  }

  ghost predicate Inv(s: State) {
    Mirrored(s.x, s.now) && Attributed(s) && Pending(s)
  }

  predicate Initial(s: State) {
    s.x == Indexes(map[], map[]) && s.issued == map[] && forall t :: 0 <= t < |s.threads| ==> s.threads[t].Idle?
  }

  lemma InitialInv(s: State)
    requires Initial(s)
    ensures Inv(s)
  {
  }

  ghost predicate Owned(x: Indexes, issued: map<SessionId, UserId>) {
    && (forall sid :: sid in x.sess ==> sid in issued && issued[sid] == x.sess[sid].value)
    && (forall u :: u in x.user ==> x.user[u].value in issued && issued[x.user[u].value] == u)
  }

  lemma RefreshMirrors(x: Indexes, issued: map<SessionId, UserId>, now: nat, ttl: nat, u: UserId, sid: SessionId)
    requires Mirrored(x, now) && Owned(x, issued) && ttl > 0
    requires sid in issued && issued[sid] == u && sid !in x.sess
    ensures Mirrored(RefreshScript(x, now, ttl, u, sid), now)
    ensures Owned(RefreshScript(x, now, ttl, u, sid), issued)
  {
    var x' := RefreshScript(x, now, ttl, u, sid);
    forall v | v in x'.user && now < x'.user[v].expires
      ensures x'.user[v].value in x'.sess && x'.sess[x'.user[v].value] == Timed(v, x'.user[v].expires)
    {
      if v != u {
        assert x.sess[x.user[v].value].value == v;
        assert Live(x.user, u, now).Some? ==> x.sess[x.user[u].value].value == u;
      }
    }
    assert forall k :: k in x.sess && now < x.sess[k].expires && x.sess[k].value == u ==> Live(x.user, u, now) == Some(k);
  }

  lemma DeleteMirrors(x: Indexes, issued: map<SessionId, UserId>, now: nat, sid: SessionId, u: UserId)
    requires Mirrored(x, now) && Owned(x, issued) && sid in issued && issued[sid] == u
    ensures Mirrored(DeleteScript(x, now, sid, u), now)
    ensures Owned(DeleteScript(x, now, sid, u), issued)
  {
  }

  lemma AttributedStays(s: State, x': Indexes, t: nat)
    requires Attributed(s) && Owned(x', s.issued) && t < |s.threads|
    ensures Attributed(Goto(s, t, LoggedOut).(x := x'))
  {
  }

  lemma PendingAfterLogin(s: State, now: nat, ttl: nat, t: nat)
    requires Pending(s) && t < |s.threads| && s.threads[t].LoggingIn?
    ensures Pending(Goto(s, t, LoggedOut).(x := RefreshScript(s.x, now, ttl, s.threads[t].u, s.threads[t].sid)))
  {
    var s' := Goto(s, t, LoggedOut).(x := RefreshScript(s.x, now, ttl, s.threads[t].u, s.threads[t].sid));
    forall v | 0 <= v < |s.threads| && s'.threads[v].LoggingIn? ensures IsNew(s', s'.threads[v].sid, s'.threads[v].u) {
      assert IsNew(s, s.threads[v].sid, s.threads[v].u) && s.threads[v].sid != s.threads[t].sid;
    }
  }

  lemma PendingAfterLogout(s: State, now: nat, t: nat, sid: SessionId, u: UserId)
    requires Pending(s) && t < |s.threads|
    ensures Pending(Goto(s, t, LoggedOut).(x := DeleteScript(s.x, now, sid, u)))
  {
    var s' := Goto(s, t, LoggedOut).(x := DeleteScript(s.x, now, sid, u));
    forall v | 0 <= v < |s.threads| && s'.threads[v].LoggingIn? ensures IsNew(s', s'.threads[v].sid, s'.threads[v].u) {
      assert IsNew(s, s.threads[v].sid, s.threads[v].u);
    }
  }

  /** What is live in the user index of `x`. */
  function CurrentOf(x: Indexes, now: nat): map<UserId, Timed<SessionId>> {
    map u | u in x.user && now < x.user[u].expires :: x.user[u]
  }

  lemma RefreshSets(x: Indexes, now: nat, ttl: nat, u: UserId, sid: SessionId)
    requires ttl > 0
    ensures CurrentOf(RefreshScript(x, now, ttl, u, sid), now) == CurrentOf(x, now)[u := Timed(sid, now + ttl)]
  {
  }

  lemma DeleteUnsets(x: Indexes, now: nat, sid: SessionId, u: UserId)
    ensures CurrentOf(DeleteScript(x, now, sid, u), now)
         == if Live(x.user, u, now) == Some(sid) then CurrentOf(x, now) - {u} else CurrentOf(x, now)
  {
  }

  lemma LoginKeepsInv(ttl: nat, s: State, t: nat)
    requires Inv(s) && ttl > 0 && t < |s.threads| && s.threads[t].LoggingIn?
    ensures Inv(Next(ttl, s, Step(t)))
  {
    var pc := s.threads[t];
    assert IsNew(s, pc.sid, pc.u);
    RefreshMirrors(s.x, s.issued, s.now, ttl, pc.u, pc.sid);
    AttributedStays(s, RefreshScript(s.x, s.now, ttl, pc.u, pc.sid), t);
    PendingAfterLogin(s, s.now, ttl, t);
  }

  lemma LogoutKeepsInv(ttl: nat, s: State, t: nat)
    requires Inv(s) && t < |s.threads| && s.threads[t].LogoutRead?
    ensures Inv(Next(ttl, s, Step(t)))
  {
    var pc := s.threads[t];
    DeleteMirrors(s.x, s.issued, s.now, pc.sid, pc.u);
    AttributedStays(s, DeleteScript(s.x, s.now, pc.sid, pc.u), t);
    PendingAfterLogout(s, s.now, t, pc.sid, pc.u);
  }

  /** The login script replaces the user's current session, whatever it was. */
  lemma LoginStep(ttl: nat, s: State, t: nat)
    requires Inv(s) && ttl > 0 && t < |s.threads| && s.threads[t].LoggingIn?
    ensures var s' := Next(ttl, s, Step(t)); var pc := s.threads[t];
      Inv(s') && Current(s') == Current(s)[pc.u := Timed(pc.sid, s.now + ttl)]
  {
    LoginKeepsInv(ttl, s, t);
    RefreshSets(s.x, s.now, ttl, s.threads[t].u, s.threads[t].sid);
  }

  /** The logout script, however late, takes out exactly its own session. */
  lemma LogoutStep(ttl: nat, s: State, t: nat)
    requires Inv(s) && t < |s.threads| && s.threads[t].LogoutRead?
    ensures var s' := Next(ttl, s, Step(t)); var pc := s.threads[t];
      Inv(s') && Current(s') == if IsCurrent(s, pc.sid, pc.u) then Current(s) - {pc.u} else Current(s)
  {
    LogoutKeepsInv(ttl, s, t);
    DeleteUnsets(s.x, s.now, s.threads[t].sid, s.threads[t].u);
  }

  lemma BeginKeepsInv(ttl: nat, s: State, t: nat, call: Call)
    requires Inv(s) && Enabled(s, Begin(t, call))
    ensures Inv(Next(ttl, s, Begin(t, call)))
  {
    var s' := Next(ttl, s, Begin(t, call));
    if call.Login? {
      forall v | 0 <= v < |s.threads| && s'.threads[v].LoggingIn?
        ensures IsNew(s', s'.threads[v].sid, s'.threads[v].u) && (v != t ==> s'.threads[v].sid != call.fresh_)
      {
        assert v != t ==> IsNew(s, s.threads[v].sid, s.threads[v].u);
      }
    }
  }

  lemma NextKeepsInv(ttl: nat, s: State, a: Action)
    requires Inv(s) && Enabled(s, a) && ttl > 0
    ensures Inv(Next(ttl, s, a))
  {
    if a.Step? && s.threads[a.t].LoggingIn? {
      LoginStep(ttl, s, a.t);
    } else if a.Step? && s.threads[a.t].LogoutRead? {
      LogoutStep(ttl, s, a.t);
    } else if a.Begin? {
      BeginKeepsInv(ttl, s, a.t, a.call);
    } else {
      var s' := Next(ttl, s, a);
      forall v | 0 <= v < |s.threads| && s'.threads[v].LoggingIn? ensures IsNew(s', s'.threads[v].sid, s'.threads[v].u) {
        assert IsNew(s, s.threads[v].sid, s.threads[v].u);
      }
    }
  }

  ghost predicate Run(ttl: nat, s: State, xs: seq<Action>, s': State)
    decreases |xs|
  {
    if xs == [] then s' == s else Enabled(s, xs[0]) && Run(ttl, Next(ttl, s, xs[0]), xs[1..], s')
  }

  lemma {:induction false} RunKeepsInv(ttl: nat, s: State, xs: seq<Action>, s': State)
    requires Inv(s) && Run(ttl, s, xs, s') && ttl > 0
    ensures Inv(s')
    decreases |xs|
  {
    if xs != [] {
      NextKeepsInv(ttl, s, xs[0]);
      RunKeepsInv(ttl, Next(ttl, s, xs[0]), xs[1..], s');
    }
  }

  // ----- the main theorems

  function Without(cur: map<UserId, Timed<SessionId>>, sid: SessionId): map<UserId, Timed<SessionId>> {
    map u | u in cur && cur[u].value != sid :: cur[u]
  }

  lemma WithoutSession(s: State, sid: SessionId)
    requires Inv(s)
    ensures forall u :: IsCurrent(s, sid, u) ==> Without(Current(s), sid) == Current(s) - {u}
    ensures (forall u :: !IsCurrent(s, sid, u)) ==> Without(Current(s), sid) == Current(s)
  {
    OnlyTheOwnerHolds(s, sid);
    var cur, rest := Current(s), Without(Current(s), sid);
    assert forall v :: v in cur && v !in rest ==> IsCurrent(s, sid, v);
    if u :| IsCurrent(s, sid, u) {
      forall v ensures v in rest <==> v in cur && v != u {
        assert v in cur && cur[v].value == sid ==> IsCurrent(s, sid, v);
      }
      assert rest == cur - {u};
    } else {
      assert forall v :: v in cur ==> v in rest;
      assert rest == cur;
    }
  }

  /** A whole call done at one instant on the one map; a verification answers with the user, if any. */
  ghost predicate Performs(
    cur: map<UserId, Timed<SessionId>>, now: nat, ttl: nat, call: Call, cur': map<UserId, Timed<SessionId>>,
    answer: Option<UserId>)
  {
    match call
    case Login(u, sid) => cur' == cur[u := Timed(sid, now + ttl)] && answer == None
    case Logout(sid) => cur' == Without(cur, sid) && answer == None
    case Verify(sid) =>
      && cur' == cur
      && (if answer.Some? then answer.value in cur && cur[answer.value].value == sid
          else forall u :: u in cur ==> cur[u].value != sid)
  }

  function CallOf(pc: PC): Call
    requires !pc.Idle? && !pc.Answered? && !pc.LoggedOut?
  {
    match pc
    case LoggingIn(u, sid) => Login(u, sid)
    case Verifying(sid) => Verify(sid)
    case VerifyRead(sid, _) => Verify(sid)
    case LoggingOut(sid) => Logout(sid)
    case LogoutRead(sid, _) => Logout(sid)
  }

  function AnswerOf(pc: PC): Option<UserId> {
    if pc.Answered? && pc.verdict.Active? then Some(pc.verdict.user) else None
  }

  /**
   The step that ends a call performs the whole call at that instant, whichever verdict it gives and
   whatever happened since the call's first read; a first read that goes on changes nothing.
   */
  lemma CallsAreAtomic(ttl: nat, s0: State, xs: seq<Action>, s: State, t: nat)
    requires Initial(s0) && ttl > 0 && Run(ttl, s0, xs, s) && Enabled(s, Step(t))
    ensures var s' := Next(ttl, s, Step(t)); var pc, pc' := s.threads[t], s'.threads[t];
      if pc'.Answered? || pc'.LoggedOut?
      then Performs(Current(s), s.now, ttl, CallOf(pc), Current(s'), AnswerOf(pc'))
      else s'.x == s.x && CallOf(pc') == CallOf(pc)
  {
    InitialInv(s0);
    RunKeepsInv(ttl, s0, xs, s);
    var pc := s.threads[t];
    match pc
    case LoggingIn(_, _) => LoginStep(ttl, s, t);
    case LogoutRead(sid, u) =>
      LogoutStep(ttl, s, t);
      OnlyTheOwnerHolds(s, sid);
      WithoutSession(s, sid);
      assert forall v :: IsCurrent(s, sid, v) ==> v == u;
    case LoggingOut(sid) =>
      OnlyTheOwnerHolds(s, sid);
      WithoutSession(s, sid);
    case Verifying(sid) => OnlyTheOwnerHolds(s, sid);
    case VerifyRead(sid, u) => OnlyTheOwnerHolds(s, sid);
  }

  /** A session is current for at most the user it was issued to, and then its own entry is live. */
  lemma OnlyTheOwnerHolds(s: State, sid: SessionId)
    requires Inv(s)
    ensures forall u :: IsCurrent(s, sid, u) ==> IssuedTo(s, sid, u) && Live(s.x.sess, sid, s.now) == Some(u)
    ensures Live(s.x.sess, sid, s.now).Some? ==> IsCurrent(s, sid, Live(s.x.sess, sid, s.now).value)
  {
  }

  /** The first read finds a session only while it is current, so a later failure means that it ended in between. */
  lemma FirstReadFindsCurrent(ttl: nat, s0: State, xs: seq<Action>, s: State, t: nat)
    requires Initial(s0) && ttl > 0 && Run(ttl, s0, xs, s)
    requires t < |s.threads| && s.threads[t].Verifying?
    ensures var pc' := Next(ttl, s, Step(t)).threads[t]; var sid := s.threads[t].sid;
      if pc'.VerifyRead? then IsCurrent(s, sid, pc'.u) else pc' == Answered(sid, Invalid) && forall u :: !IsCurrent(s, sid, u)
  {
    InitialInv(s0);
    RunKeepsInv(ttl, s0, xs, s);
    OnlyTheOwnerHolds(s, s.threads[t].sid);
  }

  /**
   Each of the four outcomes of a check says what is the case at the instant of its last read. A success
   says that this is the user's one and only current session.
   */
  lemma VerdictIsExact(ttl: nat, s0: State, xs: seq<Action>, s: State, t: nat)
    requires Initial(s0) && ttl > 0 && Run(ttl, s0, xs, s)
    requires t < |s.threads| && (s.threads[t].Verifying? || s.threads[t].VerifyRead?)
    requires Next(ttl, s, Step(t)).threads[t].Answered?
    ensures var sid := s.threads[t].sid;
      match Next(ttl, s, Step(t)).threads[t].verdict
      case Active(u) => IsCurrent(s, sid, u) && forall other :: IsCurrent(s, other, u) ==> other == sid
      case Invalid => forall u :: !IsCurrent(s, sid, u)
      case ExpiredOrRevoked => (forall u :: !IsCurrent(s, sid, u)) && sid in s.issued && s.issued[sid] !in Current(s)
      case RevokedElsewhere => sid in s.issued && s.issued[sid] in Current(s) && Current(s)[s.issued[sid]].value != sid
  {
    InitialInv(s0);
    RunKeepsInv(ttl, s0, xs, s);
    var sid := s.threads[t].sid;
    OnlyTheOwnerHolds(s, sid);
    if s.threads[t].VerifyRead? {
      assert IssuedTo(s, sid, s.threads[t].u);
      assert forall u :: IsCurrent(s, sid, u) ==> u == s.threads[t].u;
    }
  }

  /** What a thread begins is the call it was asked for, and nothing is done yet. */
  lemma BegunIsTheCall(ttl: nat, s: State, t: nat, call: Call)
    requires Enabled(s, Begin(t, call))
    ensures var s' := Next(ttl, s, Begin(t, call)); var pc := s'.threads[t];
      && !pc.Idle? && !pc.Answered? && !pc.LoggedOut? && CallOf(pc) == call
      && s'.x == s.x && s'.now == s.now && (call.Login? ==> IssuedTo(s', call.fresh_, call.user))
  {
  }

  /** A session that nobody replaces or ends is current for the time to live, to the instant. */
  lemma LoginLasts(ttl: nat, s: State, t: nat, d: nat)
    requires Inv(s) && ttl > 0 && t < |s.threads| && s.threads[t].LoggingIn?
    ensures var pc := s.threads[t]; var s' := Next(ttl, Next(ttl, s, Step(t)), Tick(d));
      IsCurrent(s', pc.sid, pc.u) <==> d < ttl
  {
  }

  /** Time passing only lets sessions expire, in both indexes at once. */
  lemma ExpiryIsShared(ttl: nat, s: State, d: nat)
    requires Inv(s)
    ensures var s' := Next(ttl, s, Tick(d));
      && Mirrored(s'.x, s'.now)
      && Current(s') == map u | u in Current(s) && s.now + d < Current(s)[u].expires :: Current(s)[u]
  {
  }

  // ----- why login is one script: the same work in separate commands

  /** Revoking reads the old session, then deletes both entries one after the other, without looking again. */
  function RevokeSession(x: Indexes, sid: SessionId): Indexes {
    x.(sess := x.sess - {sid})
  }

  function RevokeUser(x: Indexes, u: UserId): Indexes {
    x.(user := x.user - {u})
  }

  function CreateBoth(x: Indexes, now: nat, ttl: nat, u: UserId, sid: SessionId): Indexes {
    Indexes(x.sess[sid := Timed(u, now + ttl)], x.user[u := Timed(sid, now + ttl)])
  }

  /** A login between another login's two deletions is thrown out at once, and leaves the indexes in disagreement. */
  lemma SeparateCommandsLoseALogin(x: Indexes, now: nat, ttl: nat, u: UserId, before: SessionId, mine: SessionId)
    requires Mirrored(x, now) && ttl > 0 && Live(x.user, u, now) == Some(before) && mine !in x.sess
    ensures var y := RevokeUser(CreateBoth(RevokeSession(x, before), now, ttl, u, mine), u);
      Live(y.sess, mine, now) == Some(u) && Live(y.user, u, now) == None && !Mirrored(y, now)
  {
    var y := RevokeUser(CreateBoth(RevokeSession(x, before), now, ttl, u, mine), u);
    assert mine in y.sess && now < y.sess[mine].expires && u !in y.user;
  }
}
