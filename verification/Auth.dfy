/** The session service of backend/auth.go on the tables it changes. */
module Auth {
  import opened Common
  import opened Db
  import opened Store
  import opened RefreshToken
  import S = Sessions

  method CreateUserSession(db: DB, userId: int, sessionToken: S.Bytes, secret: S.Bytes, now: int)
      returns (token: Option<S.Bytes>)
    modifies db
    ensures (db.View(), token) == S.CreateUserSession(old(db.View()), userId, sessionToken, secret, now)
  {
    var refreshToken := GenerateRefreshToken(sessionToken, secret);
    var error := db.CreateSession(Session(userId, sessionToken, Mac(secret), now + S.REFRESH_TOKEN_DURATION));
    token := if error.None? then Some(refreshToken) else None;
  }

  method RefreshSession(db: DB, token: S.Bytes, newSecret: S.Bytes, now: int) returns (newToken: Option<S.Bytes>)
    modifies db
    ensures (db.View(), newToken) == S.RefreshSession(old(db.View()), token, newSecret, now)
  {
    hide ValidateRefreshToken, GenerateRefreshToken;
    newToken := None;
    var parsed := ValidateRefreshToken(token);
    if parsed.Err? {
      return;
    }
    var found := S.SessionByToken(db.View(), parsed.value.sessionToken);
    if found.None? {
      return;
    }
    var id := found.value;
    var session := db.sessions.rows[id];
    if now > session.expiresAt {
      var _ := db.DeleteSession(id);
      return;
    }
    if Mac(parsed.value.secret) != session.tokenHash {
      db.DeleteSessionsByUserID(session.userId);
      return;
    }
    if session.userId !in db.users.rows || !db.users.rows[session.userId].active {
      var _ := db.DeleteSession(id);
      return;
    }
    var rotated := GenerateRefreshToken(session.sessionToken, newSecret);
    var error := db.UpdateSession(id, Mac(newSecret), now + S.REFRESH_TOKEN_DURATION);
    if error.None? {
      newToken := Some(rotated);
    }
  }
}
