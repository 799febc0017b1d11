/** CreateUserSession and RefreshSession of backend/auth.go: sessions, their secrets and rotation. */
module Sessions {
  import opened Common
  import opened Db
  import opened Integrity
  import opened RefreshToken

  type Bytes = seq<Byte>

  /** One day, in seconds. */
  const REFRESH_TOKEN_DURATION := 24 * 3600

  /** GetSessionByToken. */
  ghost predicate IsSession(db: Database, id: int, sessionToken: Bytes) {
    id in db.sessions.rows && db.sessions.rows[id].sessionToken == sessionToken
  }

  ghost predicate HasSession(db: Database, sessionToken: Bytes) {
    exists id :: IsSession(db, id, sessionToken)
  }

  /** The session_token column is unique. */
  ghost predicate UniqueTokens(db: Database) {
    forall i, j :: i in db.sessions.rows && j in db.sessions.rows
      && db.sessions.rows[i].sessionToken == db.sessions.rows[j].sessionToken
      ==> i == j
  }

  function SessionIds(db: Database, sessionToken: Bytes): set<int> {
    set id | id in db.sessions.rows && db.sessions.rows[id].sessionToken == sessionToken
  }

  function SessionByToken(db: Database, sessionToken: Bytes): (r: Option<int>)
    ensures r.Some? ==> r.value in db.sessions.rows && db.sessions.rows[r.value].sessionToken == sessionToken
    ensures r.None? ==> forall id :: id in db.sessions.rows ==> db.sessions.rows[id].sessionToken != sessionToken
  {
    var ids := SessionIds(db, sessionToken);
    if |ids| == 0 then
      assert forall id :: id in db.sessions.rows && db.sessions.rows[id].sessionToken == sessionToken ==> id in ids;
      None
    else Some(Min(ids))
  }

  /** CreateUserSession with the session token and the secret that were drawn: the token for the cookie. */
  function CreateUserSession(db: Database, userId: int, sessionToken: Bytes, secret: Bytes,
      now: int): (Database, Option<Bytes>) {
    match Db.InsertSession(db, Session(userId, sessionToken, Mac(secret), now + REFRESH_TOKEN_DURATION))
    case Err(_) => (db, None)
    case Ok(after) => (after, Some(GenerateRefreshToken(sessionToken, secret)))
  }

  function Drop(db: Database, id: int): Database {
    Exec(db, Statement.DeleteSession(id))
  }

  /** RefreshSession with the secret drawn for the rotation: the new token, if the old one was accepted. */
  function RefreshSession(db: Database, token: Bytes, newSecret: Bytes, now: int): (Database, Option<Bytes>) {
    match ValidateRefreshToken(token)
    case Err(_) => (db, None)
    case Ok(parsed) =>
      match SessionByToken(db, parsed.sessionToken)
      case None => (db, None)
      case Some(id) =>
        var session := db.sessions.rows[id];
        if now > session.expiresAt then (Drop(db, id), None)
        else if Mac(parsed.secret) != session.tokenHash then (Db.DeleteSessionsByUser(db, session.userId), None)
        else if session.userId !in db.users.rows || !db.users.rows[session.userId].active then (Drop(db, id), None)
        else match Db.UpdateSession(db, id, Mac(newSecret), now + REFRESH_TOKEN_DURATION)
          case Err(_) => (db, None)
          case Ok(after) => (after, Some(GenerateRefreshToken(session.sessionToken, newSecret)))
  }

  /** revokeSessionFromCookie. */
  function Logout(db: Database, token: Bytes): Database {
    match ValidateRefreshToken(token)
    case Err(_) => db
    case Ok(parsed) =>
      match SessionByToken(db, parsed.sessionToken) case None => db case Some(id) => Drop(db, id)
  }

  // ------------------------------------------------------------------------------------ worlds

  /** The database, and for every session token ever issued the secrets issued for it, in order. */
  datatype World = World(db: Database, issued: map<Bytes, seq<Bytes>>)

  datatype Step =
    | Login(userId: int, sessionToken: Bytes, secret: Bytes, now: int)
    | Refresh(token: Bytes, newSecret: Bytes, now: int)
    | LogoutStep(token: Bytes)
    | Other(statement: Statement)

  /** rand.Text() and rand.Read(): well formed, and never drawn before. */
  predicate GoodToken(t: Bytes) {
    0 < |t| <= MAX_SESSION_TOKEN_LENGTH && COLON !in t
  }

  predicate NewSecret(w: World, secret: Bytes) {
    |secret| == SECRET_LENGTH && forall t, k :: t in w.issued && 0 <= k < |w.issued[t]| ==> w.issued[t][k] != secret
  }

  predicate Enabled(w: World, step: Step) {
    match step
    case Login(_, sessionToken, secret, _) => GoodToken(sessionToken) && sessionToken !in w.issued
      && NewSecret(w, secret)
    case Refresh(_, newSecret, _) => NewSecret(w, newSecret)
    case LogoutStep(_) => true
    case Other(st) => !st.InsertSession? && !st.UpdateSession?
  }

  function Next(w: World, step: Step): World {
    match step
    case Login(userId, sessionToken, secret, now) =>
      var (db, token) := CreateUserSession(w.db, userId, sessionToken, secret, now);
      World(db, if token.Some? then w.issued[sessionToken := [secret]] else w.issued)
    case Refresh(token, newSecret, now) =>
      var (db, newToken) := RefreshSession(w.db, token, newSecret, now);
      if newToken.None? || ValidateRefreshToken(token).Err? then World(db, w.issued)
      else
        var t := ValidateRefreshToken(token).value.sessionToken;
        World(db, w.issued[t := (if t in w.issued then w.issued[t] else []) + [newSecret]])
    case LogoutStep(token) => World(Logout(w.db, token), w.issued)
    case Other(st) => World(Exec(w.db, st), w.issued)
  }

  function Last(secrets: seq<Bytes>): Bytes
    requires secrets != []
  {
    secrets[|secrets| - 1]
  }

  /** Every session expects the last secret issued for its token. */
  ghost predicate Expects(db: Database, issued: map<Bytes, seq<Bytes>>) {
    forall id :: id in db.sessions.rows ==>
      var s := db.sessions.rows[id];
      s.sessionToken in issued && issued[s.sessionToken] != [] && s.tokenHash == Mac(Last(issued[s.sessionToken]))
  }

  /** No secret was issued twice. */
  ghost predicate DistinctSecrets(issued: map<Bytes, seq<Bytes>>) {
    forall t, u, i, j :: t in issued && u in issued && 0 <= i < |issued[t]| && 0 <= j < |issued[u]|
      && issued[t][i] == issued[u][j]
      ==> t == u && i == j
  }

  ghost predicate WellFormed(issued: map<Bytes, seq<Bytes>>) {
    forall t :: t in issued ==> GoodToken(t) && issued[t] != [] && forall k :: 0 <= k < |issued[t]| ==>
      |issued[t][k]| == SECRET_LENGTH
  }

  ghost predicate Inv(w: World) {
    Valid(w.db) && UniqueTokens(w.db) && Expects(w.db, w.issued) && DistinctSecrets(w.issued) && WellFormed(w.issued)
  }

  /** A database without sessions, before the first login. */
  lemma {:induction false} NoSessionsYet(db: Database)
    requires Valid(db) && db.sessions.rows == map[]
    ensures Inv(World(db, map[]))
  {
    hide Valid;
  }

  // ------------------------------------------------------------------------------ preservation

  /** No other statement adds a session or changes one. */
  ghost predicate SessionsShrink(db: Database, after: Database) {
    forall id :: id in after.sessions.rows ==> id in db.sessions.rows && after.sessions.rows[id] == db.sessions.rows[id]
  }

  lemma {:induction false} OthersShrink(db: Database, st: Statement)
    requires !st.InsertSession? && !st.UpdateSession?
    ensures SessionsShrink(db, Exec(db, st))
  {
    hide InsertHistory, Unassign, UnlinkIssues, IssueRefs, TasksOf, CommentsOf, HistoryOf;
    if st.UpdateIssuePositions? && Try(db, st).Ok? {
      PositionsKeepUsers(db, st.projectId, st.updates);
    }
    if st.UpdateTaskPositions? && Try(db, st).Ok? {
      TaskPositionsKeep(db, st.issueId, st.updates);
    }
  }

  lemma {:induction false} ShrinkKeepsInv(w: World, after: Database)
    requires Inv(w) && Valid(after) && SessionsShrink(w.db, after)
    ensures Inv(World(after, w.issued))
  {
    hide Valid;
  }

  lemma {:induction false} LoginKeepsInv(w: World, step: Step)
    requires Inv(w) && step.Login? && Enabled(w, step)
    ensures Inv(Next(w, step))
  {
    hide RefsValid, GenerateRefreshToken;
    SessionStatementValid(w.db, Statement.InsertSession(Session(step.userId, step.sessionToken, Mac(step.secret),
                                                                step.now + REFRESH_TOKEN_DURATION)));
  }

  lemma {:induction false} DeletesShrink(db: Database, id: int, userId: int)
    requires Valid(db)
    ensures Valid(Drop(db, id)) && SessionsShrink(db, Drop(db, id))
    ensures Valid(Db.DeleteSessionsByUser(db, userId)) && SessionsShrink(db, Db.DeleteSessionsByUser(db, userId))
  {
    hide Valid, SessionsShrink;
    ExecValid(db, Statement.DeleteSession(id));
    OthersShrink(db, Statement.DeleteSession(id));
    ExecValid(db, Statement.DeleteSessionsByUser(userId));
    OthersShrink(db, Statement.DeleteSessionsByUser(userId));
  }

  function Rotated(db: Database, id: int, newSecret: Bytes, expiresAt: int): Database
    requires id in db.sessions.rows
  {
    db.(sessions := db.sessions.Put(id, db.sessions.rows[id].(tokenHash := Mac(newSecret), expiresAt := expiresAt)))
  }

  lemma {:induction false} RotatedValid(db: Database, id: int, newSecret: Bytes, expiresAt: int)
    requires Valid(db) && id in db.sessions.rows
    ensures Valid(Rotated(db, id, newSecret, expiresAt))
    ensures Db.UpdateSession(db, id, Mac(newSecret), expiresAt) == Ok(Rotated(db, id, newSecret, expiresAt))
  {
    hide Valid;
    ExecValid(db, Statement.UpdateSession(id, Mac(newSecret), expiresAt));
  }

  /** What a refresh does to the sessions: nothing new unless it rotates the secret of one session. */
  lemma {:induction false} RefreshEffect(db: Database, token: Bytes, newSecret: Bytes, now: int) returns (id: int)
    requires Valid(db)
    ensures var (after, newToken) := RefreshSession(db, token, newSecret, now);
      && Valid(after)
      && (newToken.None? ==> SessionsShrink(db, after))
      && (newToken.Some? ==>
            && ValidateRefreshToken(token).Ok? && id in db.sessions.rows
            && db.sessions.rows[id].sessionToken == ValidateRefreshToken(token).value.sessionToken
            && after == Rotated(db, id, newSecret, now + REFRESH_TOKEN_DURATION))
  {
    assert SessionsShrink(db, db);
    hide Valid, SessionsShrink, GenerateRefreshToken, ValidateRefreshToken, Drop, Db.DeleteSessionsByUser, Rotated,
         Db.UpdateSession;
    id := 0;
    if ValidateRefreshToken(token).Ok? {
      var found := SessionByToken(db, ValidateRefreshToken(token).value.sessionToken);
      if found.Some? {
        id := found.value;
        DeletesShrink(db, id, db.sessions.rows[id].userId);
        RotatedValid(db, id, newSecret, now + REFRESH_TOKEN_DURATION);
      }
    }
  }

  lemma {:induction false} RotationKeepsInv(w: World, id: int, newSecret: Bytes, expiresAt: int)
    requires Inv(w) && id in w.db.sessions.rows && NewSecret(w, newSecret)
    requires Valid(Rotated(w.db, id, newSecret, expiresAt))
    ensures var t := w.db.sessions.rows[id].sessionToken;
      t in w.issued && Inv(World(Rotated(w.db, id, newSecret, expiresAt), w.issued[t := w.issued[t] + [newSecret]]))
  {
    hide Valid;
    var t := w.db.sessions.rows[id].sessionToken;
    assert Expects(Rotated(w.db, id, newSecret, expiresAt), w.issued[t := w.issued[t] + [newSecret]]);
    SecretsStayDistinct(w, t, newSecret);
  }

  lemma {:induction false} SecretsStayDistinct(w: World, t: Bytes, newSecret: Bytes)
    requires DistinctSecrets(w.issued) && WellFormed(w.issued) && t in w.issued && NewSecret(w, newSecret)
    ensures DistinctSecrets(w.issued[t := w.issued[t] + [newSecret]])
        && WellFormed(w.issued[t := w.issued[t] + [newSecret]])
  {
  }

  lemma {:induction false} NextKeepsInv(w: World, step: Step)
    requires Inv(w) && Enabled(w, step)
    ensures Inv(Next(w, step))
  {
    hide Valid, UniqueTokens, Expects, DistinctSecrets, WellFormed, NewSecret, RefreshSession, ValidateRefreshToken,
         SessionsShrink, Exec, GenerateRefreshToken;
    match step
    case Login(_, _, _, _) => LoginKeepsInv(w, step);
    case Refresh(token, newSecret, now) =>
      var id := RefreshEffect(w.db, token, newSecret, now);
      var (after, newToken) := RefreshSession(w.db, token, newSecret, now);
      if newToken.None? {
        ShrinkKeepsInv(w, after);
      } else {
        RotationKeepsInv(w, id, newSecret, now + REFRESH_TOKEN_DURATION);
      }
    case LogoutStep(token) => LogoutKeepsInv(w, token);
    case Other(st) =>
      ExecValid(w.db, st);
      OthersShrink(w.db, st);
      ShrinkKeepsInv(w, Exec(w.db, st));
  }

  lemma {:induction false} LogoutKeepsInv(w: World, token: Bytes)
    requires Inv(w)
    ensures Inv(World(Logout(w.db, token), w.issued)) && SessionsShrink(w.db, Logout(w.db, token))
  {
    hide Valid, UniqueTokens, Expects, DistinctSecrets, WellFormed, ValidateRefreshToken;
    if ValidateRefreshToken(token).Ok? {
      var found := SessionByToken(w.db, ValidateRefreshToken(token).value.sessionToken);
      if found.Some? {
        SessionStatementValid(w.db, Statement.DeleteSession(found.value));
      }
    }
    ShrinkKeepsInv(w, Logout(w.db, token));
  }

  // ---------------------------------------------------------------------------------- theorems

  /** The session a token names, if it can still be renewed. */
  ghost predicate Renewable(db: Database, id: int, sessionToken: Bytes, now: int) {
    && IsSession(db, id, sessionToken) && now <= db.sessions.rows[id].expiresAt
    && db.sessions.rows[id].userId in db.users.rows && db.users.rows[db.sessions.rows[id].userId].active
  }

  lemma {:induction false} TheSession(db: Database, id: int, sessionToken: Bytes)
    requires UniqueTokens(db) && IsSession(db, id, sessionToken)
    ensures SessionByToken(db, sessionToken) == Some(id)
  {
  }

  /**
   * A refresh is accepted exactly if the token carries the last secret issued for a session that
   * has not expired and whose user is active; it then issues the next secret of that session.
   */
  lemma {:induction false} AcceptedExactly(w: World, token: Bytes, newSecret: Bytes, now: int)
    requires Inv(w)
    ensures var (after, newToken) := RefreshSession(w.db, token, newSecret, now);
            var parsed := ValidateRefreshToken(token);
      && (newToken.Some? <==>
            && parsed.Ok? && parsed.value.sessionToken in w.issued
            && parsed.value.secret == Last(w.issued[parsed.value.sessionToken])
            && exists id :: Renewable(w.db, id, parsed.value.sessionToken, now))
      && (newToken.Some? ==> newToken.value == GenerateRefreshToken(parsed.value.sessionToken, newSecret))
  {
    hide Valid, DistinctSecrets, ValidateRefreshToken, GenerateRefreshToken;
    var parsed := ValidateRefreshToken(token);
    if parsed.Ok? {
      var t := parsed.value.sessionToken;
      var found := SessionByToken(w.db, t);
      if found.Some? {
        assert IsSession(w.db, found.value, t);
        assert RefreshSession(w.db, token, newSecret, now).1.Some? ==> Renewable(w.db, found.value, t, now);
        if id :| Renewable(w.db, id, t, now) {
          TheSession(w.db, id, t);
        }
      }
    }
  }

  /** The token just issued is accepted, while the session lives; round trip through the cookie. */
  lemma {:induction false} IssuedTokenAccepted(w: World, t: Bytes, newSecret: Bytes, now: int, id: int)
    requires Inv(w) && t in w.issued && Renewable(w.db, id, t, now)
    ensures RefreshSession(w.db, GenerateRefreshToken(t, Last(w.issued[t])), newSecret, now).1.Some?
  {
    hide Valid, UniqueTokens, Expects, DistinctSecrets, ValidateRefreshToken, GenerateRefreshToken, RefreshSession,
         Renewable;
    GoodTokenRoundTrip(t, Last(w.issued[t]));
    AcceptedExactly(w, GenerateRefreshToken(t, Last(w.issued[t])), newSecret, now);
  }

  /** Replaying any other secret of a session that has not expired deletes every session of its user. */
  lemma {:induction false} ReplayRevokesAll(w: World, t: Bytes, secret: Bytes, newSecret: Bytes, now: int, id: int)
    requires Inv(w) && IsSession(w.db, id, t) && now <= w.db.sessions.rows[id].expiresAt
    requires |secret| == SECRET_LENGTH && secret != Last(w.issued[t])
    ensures var (after, newToken) := RefreshSession(w.db, GenerateRefreshToken(t, secret), newSecret, now);
      && newToken.None?
      && (forall s :: s in after.sessions.rows <==>
            s in w.db.sessions.rows && w.db.sessions.rows[s].userId != w.db.sessions.rows[id].userId)
      && (forall s :: s in after.sessions.rows ==> after.sessions.rows[s] == w.db.sessions.rows[s])
  {
    hide Valid, DistinctSecrets, ValidateRefreshToken, GenerateRefreshToken;
    GoodTokenRoundTrip(t, secret);
    TheSession(w.db, id, t);
  }

  /** In particular every secret issued earlier for that session. */
  lemma {:induction false} EarlierSecretRevokesAll(w: World, t: Bytes, k: nat, newSecret: Bytes, now: int, id: int)
    requires Inv(w) && IsSession(w.db, id, t) && now <= w.db.sessions.rows[id].expiresAt
    requires t in w.issued && k + 1 < |w.issued[t]|
    ensures var (after, newToken) := RefreshSession(w.db, GenerateRefreshToken(t, w.issued[t][k]), newSecret, now);
      newToken.None? && SessionsOf(after, w.db.sessions.rows[id].userId) == {}
  {
    hide Valid, UniqueTokens, Expects, RefreshSession, GenerateRefreshToken;
    ReplayRevokesAll(w, t, w.issued[t][k], newSecret, now, id);
    var after := RefreshSession(w.db, GenerateRefreshToken(t, w.issued[t][k]), newSecret, now).0;
    var userId := w.db.sessions.rows[id].userId;
    assert forall s :: s in after.sessions.rows ==> after.sessions.rows[s].userId != userId;
  }

  ghost predicate Run(ws: seq<World>, steps: seq<Step>) {
    && |ws| == |steps| + 1
    && forall k :: 0 <= k < |steps| ==> Enabled(ws[k], steps[k]) && ws[k + 1] == Next(ws[k], steps[k])
  }

  lemma {:induction false} RunKeepsInv(ws: seq<World>, steps: seq<Step>, k: nat)
    requires Run(ws, steps) && k < |ws| && Inv(ws[0])
    ensures Inv(ws[k])
  {
    hide Inv, Next, Enabled;
    if k > 0 {
      RunKeepsInv(ws, steps, k - 1);
      NextKeepsInv(ws[k - 1], steps[k - 1]);
    }
  }

  lemma {:induction false} FoundHasSession(db: Database, t: Bytes)
    ensures SessionByToken(db, t).Some? ==> HasSession(db, t)
  {
    var found := SessionByToken(db, t);
    if found.Some? {
      assert IsSession(db, found.value, t);
    }
  }

  /** A session token that was issued and has no session stays without one. */
  ghost predicate Dead(w: World, t: Bytes) {
    t in w.issued && !HasSession(w.db, t)
  }

  lemma {:induction false} ShrinkStaysDead(w: World, after: Database, t: Bytes)
    requires Dead(w, t) && SessionsShrink(w.db, after)
    ensures Dead(World(after, w.issued), t)
  {
    if HasSession(after, t) {
      var id :| IsSession(after, id, t);
      assert IsSession(w.db, id, t);
    }
  }

  lemma {:induction false} NextStaysDead(w: World, step: Step, t: Bytes)
    requires Inv(w) && Enabled(w, step) && Dead(w, t)
    ensures Dead(Next(w, step), t)
  {
    hide Valid, UniqueTokens, Expects, DistinctSecrets, WellFormed, NewSecret, RefreshSession, ValidateRefreshToken,
         SessionsShrink, Exec, GenerateRefreshToken, Logout;
    match step
    case Login(userId, sessionToken, _, _) =>
      forall id ensures !IsSession(Next(w, step).db, id, t) {
        assert !IsSession(w.db, id, t);
      }
    case Refresh(token, newSecret, now) =>
      var id := RefreshEffect(w.db, token, newSecret, now);
      var (after, newToken) := RefreshSession(w.db, token, newSecret, now);
      if newToken.None? {
        ShrinkStaysDead(w, after, t);
      } else {
        forall s ensures !IsSession(after, s, t) {
          assert !IsSession(w.db, s, t);
        }
      }
    case LogoutStep(token) =>
      LogoutKeepsInv(w, token);
      ShrinkStaysDead(w, Logout(w.db, token), t);
    case Other(st) =>
      OthersShrink(w.db, st);
      ShrinkStaysDead(w, Exec(w.db, st), t);
  }

  /**
   * Over every run: once the session of an issued token is gone, no token string that names it,
   * whatever its secret, is accepted again.
   */
  lemma {:induction false} DeadForever(ws: seq<World>, steps: seq<Step>, t: Bytes, j: nat, k: nat)
    requires Run(ws, steps) && j <= k < |ws| && Inv(ws[0]) && Dead(ws[j], t)
    ensures Dead(ws[k], t)
    ensures forall token, newSecret, now ::
        ValidateRefreshToken(token).Ok? && ValidateRefreshToken(token).value.sessionToken == t ==>
      RefreshSession(ws[k].db, token, newSecret, now) == (ws[k].db, None)
  {
    hide Inv, Next, Enabled, ValidateRefreshToken;
    if j < k {
      DeadForever(ws, steps, t, j, k - 1);
      RunKeepsInv(ws, steps, k - 1);
      NextStaysDead(ws[k - 1], steps[k - 1], t);
    }
    FoundHasSession(ws[k].db, t);
  }
}
