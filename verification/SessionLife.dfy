/** How long a session lives: from its login or its last refresh for a day, or until it is ended. */
module SessionLife {
  import opened Common
  import opened Db
  import opened Integrity
  import opened RefreshToken
  import opened Sessions

  /** 24 hours, in seconds. */
  const DAY := 86400

  /** The token of a login is accepted for a day, as long as nothing else happens and the user is active. */
  lemma {:induction false} LoginLives(
    w: World, userId: int, sessionToken: Bytes, secret: Bytes, now: int, newSecret: Bytes, later: int)
    requires Inv(w) && Enabled(w, Login(userId, sessionToken, secret, now))
    requires userId in w.db.users.rows && w.db.users.rows[userId].active
    ensures var (after, token) := CreateUserSession(w.db, userId, sessionToken, secret, now);
      && after == w.db.(sessions := after.sessions)
      && token == Some(GenerateRefreshToken(sessionToken, secret))
      && (RefreshSession(after, token.value, newSecret, later).1.Some? <==> later <= now + DAY)
  {
    hide Valid, UniqueTokens, Expects, DistinctSecrets, WellFormed, GenerateRefreshToken, ValidateRefreshToken,
         RefreshSession, NewSecret;
    var login := Login(userId, sessionToken, secret, now);
    NextKeepsInv(w, login);
    var u := Next(w, login);
    var id := w.db.sessions.next;
    assert IsSession(u.db, id, sessionToken) && u.issued[sessionToken] == [secret];
    LivesUntil(u, sessionToken, id, newSecret, later);
  }

  /** So is the token of a refresh, which changes nothing but its session's secret and expiry. */
  lemma {:induction false} RefreshLives(
    w: World, token: Bytes, newSecret: Bytes, now: int, nextSecret: Bytes, later: int)
    requires Inv(w) && Enabled(w, Refresh(token, newSecret, now)) && RefreshSession(w.db, token, newSecret, now).1.Some?
    ensures var (after, newToken) := RefreshSession(w.db, token, newSecret, now);
      && (RefreshSession(after, newToken.value, nextSecret, later).1.Some? <==> later <= now + DAY)
      && after == w.db.(sessions := after.sessions) && after.sessions.rows.Keys == w.db.sessions.rows.Keys
      && forall s :: s in w.db.sessions.rows ==>
           if w.db.sessions.rows[s].sessionToken == ValidateRefreshToken(token).value.sessionToken
           then after.sessions.rows[s] == w.db.sessions.rows[s].(tokenHash := Mac(newSecret), expiresAt := now + DAY)
           else after.sessions.rows[s] == w.db.sessions.rows[s]
  {
    AcceptedExactly(w, token, newSecret, now);
    hide Valid, Expects, DistinctSecrets, WellFormed, GenerateRefreshToken, ValidateRefreshToken, RefreshSession,
         NewSecret;
    var t := ValidateRefreshToken(token).value.sessionToken;
    var refresh := Refresh(token, newSecret, now);
    NextKeepsInv(w, refresh);
    var id := RefreshEffect(w.db, token, newSecret, now);
    var renewable :| Renewable(w.db, renewable, t, now);
    assert renewable == id;
    var u := Next(w, refresh);
    assert u.issued == w.issued[t := w.issued[t] + [newSecret]];
    assert IsSession(u.db, id, t);
    hide Next, Renewable, Inv;
    LivesUntil(u, t, id, nextSecret, later);
  }

  /** The last token of a session of an active user is accepted exactly until the session expires. */
  lemma {:induction false} LivesUntil(u: World, t: Bytes, id: int, newSecret: Bytes, later: int)
    requires Inv(u) && t in u.issued && IsSession(u.db, id, t)
    requires u.db.sessions.rows[id].userId in u.db.users.rows && u.db.users.rows[u.db.sessions.rows[id].userId].active
    ensures RefreshSession(u.db, GenerateRefreshToken(t, Last(u.issued[t])), newSecret, later).1.Some?
            <==> later <= u.db.sessions.rows[id].expiresAt
  {
    hide Valid, Expects, DistinctSecrets, GenerateRefreshToken, ValidateRefreshToken, RefreshSession;
    GoodTokenRoundTrip(t, Last(u.issued[t]));
    AcceptedExactly(u, GenerateRefreshToken(t, Last(u.issued[t])), newSecret, later);
    if later <= u.db.sessions.rows[id].expiresAt {
      assert Renewable(u.db, id, t, later);
    }
  }

  /** All sessions but one. */
  ghost predicate EndsOne(db: Database, after: Database, id: int) {
    id in db.sessions.rows && after == db.(sessions := db.sessions.(rows := db.sessions.rows - {id}))
  }

  /**
   * A refresh that is not accepted ends the session it names, if that has expired or its user is not
   * active any more; a token that names no session changes nothing.
   */
  lemma {:induction false} RefreshEnds(w: World, token: Bytes, newSecret: Bytes, now: int)
    requires Inv(w)
    ensures var (after, newToken) := RefreshSession(w.db, token, newSecret, now);
            var parsed := ValidateRefreshToken(token);
      && (parsed.Err? || !HasSession(w.db, parsed.value.sessionToken) ==> after == w.db && newToken.None?)
      && forall id :: parsed.Ok? && IsSession(w.db, id, parsed.value.sessionToken) ==>
           var session := w.db.sessions.rows[id];
           && (now > session.expiresAt ==> EndsOne(w.db, after, id) && newToken.None?)
           && (now <= session.expiresAt && parsed.value.secret == Last(w.issued[parsed.value.sessionToken])
               && !(session.userId in w.db.users.rows && w.db.users.rows[session.userId].active) ==>
                 EndsOne(w.db, after, id) && newToken.None?)
  {
    hide Valid, DistinctSecrets, ValidateRefreshToken, GenerateRefreshToken;
    var parsed := ValidateRefreshToken(token);
    if parsed.Ok? {
      FoundHasSession(w.db, parsed.value.sessionToken);
      forall id | IsSession(w.db, id, parsed.value.sessionToken)
        ensures SessionByToken(w.db, parsed.value.sessionToken) == Some(id)
      {
        TheSession(w.db, id, parsed.value.sessionToken);
      }
    }
  }

  /** The periodic sweep removes exactly the sessions that no refresh accepts any more because they expired. */
  lemma {:induction false} SweepInvisible(db: Database, now: int)
    ensures var after := Exec(db, Statement.DeleteExpiredSessions(now));
      && after == db.(sessions := after.sessions) && after.sessions.next == db.sessions.next
      && (forall id :: id in after.sessions.rows <==> id in db.sessions.rows && now <= db.sessions.rows[id].expiresAt)
      && (forall id :: id in after.sessions.rows ==> after.sessions.rows[id] == db.sessions.rows[id])
      && forall id, t, later :: later >= now ==> (Renewable(after, id, t, later) <==> Renewable(db, id, t, later))
  {
  }

  /** A logout ends the session its token names, and no other; whatever secret the token has. */
  lemma {:induction false} LogoutEnds(w: World, token: Bytes)
    requires Inv(w)
    ensures var after := Logout(w.db, token);
            var parsed := ValidateRefreshToken(token);
      && (parsed.Err? || !HasSession(w.db, parsed.value.sessionToken) ==> after == w.db)
      && forall id :: parsed.Ok? && IsSession(w.db, id, parsed.value.sessionToken) ==>
           EndsOne(w.db, after, id) && !HasSession(after, parsed.value.sessionToken)
  {
    hide Valid, DistinctSecrets, ValidateRefreshToken;
    var parsed := ValidateRefreshToken(token);
    if parsed.Ok? {
      FoundHasSession(w.db, parsed.value.sessionToken);
      forall id | IsSession(w.db, id, parsed.value.sessionToken)
        ensures SessionByToken(w.db, parsed.value.sessionToken) == Some(id)
      {
        TheSession(w.db, id, parsed.value.sessionToken);
      }
    }
  }
}
