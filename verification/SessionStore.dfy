/** The two session indexes kept in Redis, with expiry, and the atomic scripts and reads on them. */
module SessionStore {
  import opened Option

  type UserId = int
  type SessionId = string

  datatype Timed<+T> = Timed(value: T, expires: nat)

  datatype Indexes = Indexes(sess: map<SessionId, Timed<UserId>>, user: map<UserId, Timed<SessionId>>)

  /** A key reads as absent from its expiry on. */
  function Live<K, T>(m: map<K, Timed<T>>, k: K, now: nat): Option<T> {
    if k in m && now < m[k].expires then Some(m[k].value) else None
  }

  /** The login script: drop the old session's entry, then overwrite both indexes. */
  function RefreshScript(x: Indexes, now: nat, ttl: nat, u: UserId, sid: SessionId): Indexes {
    var old_ := Live(x.user, u, now);
    var sess := if old_.Some? then x.sess - {old_.value} else x.sess;
    Indexes(sess[sid := Timed(u, now + ttl)], x.user[u := Timed(sid, now + ttl)])
  }

  /** The logout script: drop the session, and the user's entry only if it is still this session. */
  function DeleteScript(x: Indexes, now: nat, sid: SessionId, u: UserId): Indexes {
    Indexes(x.sess - {sid}, if Live(x.user, u, now) == Some(sid) then x.user - {u} else x.user)
  }

  datatype Verdict = Active(user: UserId) | Invalid | ExpiredOrRevoked | RevokedElsewhere

  function Judge(sid: SessionId, u: UserId, current: Option<SessionId>): Verdict {
    if current.None? then ExpiredOrRevoked
    else if current.value != sid then RevokedElsewhere
    else Active(u)
  }

  class Store {
    var sess: map<SessionId, Timed<UserId>>
    var user: map<UserId, Timed<SessionId>>
    const ttl: nat

    constructor (ttl: nat)
      ensures Contents() == Indexes(map[], map[]) && this.ttl == ttl
    {
      sess, user := map[], map[];
      this.ttl := ttl;
    }

    ghost function Contents(): Indexes
      reads this
    {
      Indexes(sess, user)
    }

    method RefreshSession(userID: UserId, sessionID: SessionId, now: nat)
      modifies this
      ensures Contents() == RefreshScript(old(Contents()), now, ttl, userID, sessionID)
    {
      if userID in user && now < user[userID].expires {
        sess := sess - {user[userID].value};
      }
      user := user[userID := Timed(sessionID, now + ttl)];
      sess := sess[sessionID := Timed(userID, now + ttl)];
    }

    /** Two reads; nothing else runs in between here. */
    method IsSessionActive(sessionID: SessionId, now: nat, later: nat) returns (v: Verdict)
      ensures v == match Live(sess, sessionID, now)
        case None => Invalid
        case Some(u) => Judge(sessionID, u, Live(user, u, later))
    {
      if sessionID !in sess || sess[sessionID].expires <= now {
        return Invalid;
      }
      var userID := sess[sessionID].value;
      if userID !in user || user[userID].expires <= later {
        return ExpiredOrRevoked;
      }
      if user[userID].value != sessionID {
        return RevokedElsewhere;
      }
      return Active(userID);
    }

    method DeleteSession(sessionID: SessionId, now: nat, later: nat)
      modifies this
      ensures Contents() == match Live(old(sess), sessionID, now)
        case None => old(Contents())
        case Some(u) => DeleteScript(old(Contents()), later, sessionID, u)
    {
      if sessionID !in sess || sess[sessionID].expires <= now {
        return;
      }
      var userID := sess[sessionID].value;
      sess := sess - {sessionID};
      if userID in user && later < user[userID].expires && user[userID].value == sessionID {
        user := user - {userID};
      }
    }
  }
}
