/**
 * authFetch and renewSession of static/js/api.js in one tab, together with the server's sessions.
 * Assumed: the response to a refresh or a login that the server executed is not lost.
 */
module SessionClient {
  import opened Common
  import opened Db
  import opened RefreshToken
  import S = Sessions

  type Bytes = S.Bytes

  // ---------------------------------------------------------------------------------- requests

  /** What a fetch has met at the server so far: nothing, a 401, or its execution. */
  datatype Fetch = Sent | Unauthorized | Executed

  /** authFetch between its awaits: the first fetch, the one retry of a read, the replay after a renewal. */
  datatype Phase = First(fetch: Fetch) | Retry(fetch: Fetch) | Waiting | Replay(fetch: Fetch) | Done

  /** executions counts how often the server has executed this request. */
  datatype Call = Call(isRead: bool, phase: Phase, executions: nat)

  predicate InFlight(c: Call) {
    c.phase.First? || c.phase.Retry? || c.phase.Replay?
  }

  function WithFetch(p: Phase, f: Fetch): Phase
    requires p.First? || p.Retry? || p.Replay?
  {
    match p case First(_) => First(f) case Retry(_) => Retry(f) case Replay(_) => Replay(f)
  }

  /** The server takes the request: without a valid access token it answers 401 and does nothing. */
  function ServeCall(c: Call, authorized: bool): Call
    requires InFlight(c) && c.phase.fetch == Sent
  {
    if authorized then c.(phase := WithFetch(c.phase, Executed), executions := c.executions + 1)
    else c.(phase := WithFetch(c.phase, Unauthorized))
  }

  /** The answer arrives: a 401 asks for a renewal, except for the replay. */
  function AnswerCall(c: Call): Call
    requires InFlight(c) && c.phase.fetch != Sent
  {
    c.(phase := if c.phase.fetch == Unauthorized && !c.phase.Replay? then Waiting else Done)
  }

  /** rawFetch throws; a request still on its way may be executed later, which counts right away. */
  function FailCall(c: Call, late: bool): Call
    requires InFlight(c)
  {
    var executions := if c.phase.fetch == Sent && late then c.executions + 1 else c.executions;
    c.(phase := if c.phase.First? && c.isRead then Retry(Sent) else Done, executions := executions)
  }

  // ----------------------------------------------------------------------------------- renewal

  /** renewSession: the refresh with the cookie it was sent with, its answer, then perhaps a login. */
  datatype Renewal =
    | RefreshSent(token: Option<Bytes>)
    | RefreshAnswered(newToken: Option<Bytes>)
    | ReAuth
    | LoginAnswered(cookie: Bytes)

  /** The refresh cookie, the renewal in flight, the calls, and the session tokens this tab has had. */
  datatype Tab = Tab(jar: Option<Bytes>, inFlight: Option<Renewal>, calls: map<nat, Call>, mine: set<Bytes>)

  datatype World = World(server: S.World, tab: Tab)

  datatype Step =
    | Elsewhere(step: S.Step)
    | Begin(call: nat, isRead: bool)
    | Serve(call: nat, authorized: bool)
    | Answer(call: nat)
    | Fail(call: nat, late: bool)
    | ServeRefresh(newSecret: Bytes, now: int)
    | RefuseRefresh
    | FailRefresh
    | AnswerRefresh
    | ServeLogin(userId: int, sessionToken: Bytes, secret: Bytes, now: int)
    | AnswerLogin
    | Logout

  /** singleFlight: a renewal is started only if none is in flight. */
  function RenewSessionOnce(t: Tab): Tab {
    if t.inFlight.Some? then t else t.(inFlight := Some(RefreshSent(t.jar)))
  }

  /** A call that waited for the renewal is replayed, or fails. */
  function Resume(c: Call, renewed: bool): Call {
    if c.phase != Waiting then c else c.(phase := if renewed then Replay(Sent) else Done)
  }

  /** The shared renewal settles, for all calls that joined it. */
  function Settle(t: Tab, renewed: bool): Tab {
    t.(inFlight := None, calls := map c | c in t.calls :: Resume(t.calls[c], renewed))
  }

  /** Steps of other clients: they hold no token of this tab's sessions. */
  predicate Foreign(t: Tab, step: S.Step) {
    match step
    case Login(_, _, _, _) => true
    case Refresh(token, _, _) => ValidateRefreshToken(token).Err?
      || ValidateRefreshToken(token).value.sessionToken !in t.mine
    case LogoutStep(token) => true
    case Other(_) => true
  }

  predicate Enabled(w: World, step: Step) {
    var t := w.tab;
    match step
    case Elsewhere(st) => S.Enabled(w.server, st) && Foreign(t, st)
    case Begin(c, _) => c !in t.calls
    case Serve(c, _) => c in t.calls && InFlight(t.calls[c]) && t.calls[c].phase.fetch == Sent
    case Answer(c) => c in t.calls && InFlight(t.calls[c]) && t.calls[c].phase.fetch != Sent
    case Fail(c, _) => c in t.calls && InFlight(t.calls[c])
    case ServeRefresh(newSecret, _) => t.inFlight.Some? && t.inFlight.value.RefreshSent?
      && S.NewSecret(w.server, newSecret)
    case RefuseRefresh => t.inFlight.Some? && t.inFlight.value.RefreshSent?
    case FailRefresh => t.inFlight.Some? && t.inFlight.value.RefreshSent?
    case AnswerRefresh => t.inFlight.Some? && t.inFlight.value.RefreshAnswered?
    case ServeLogin(userId, sessionToken, secret, now) =>
      && t.inFlight == Some(ReAuth) && S.Enabled(w.server, S.Login(userId, sessionToken, secret, now))
    case AnswerLogin => t.inFlight.Some? && t.inFlight.value.LoginAnswered?
    case Logout => true
  }

  function ServeRefreshNext(w: World, newSecret: Bytes, now: int): World
    requires w.tab.inFlight.Some? && w.tab.inFlight.value.RefreshSent?
  {
    match w.tab.inFlight.value.token
    case None => w.(tab := w.tab.(inFlight := Some(RefreshAnswered(None))))
    case Some(token) =>
      World(S.Next(w.server, S.Refresh(token, newSecret, now)),
            w.tab.(inFlight := Some(RefreshAnswered(S.RefreshSession(w.server.db, token, newSecret, now).1))))
  }

  function ServeLoginNext(w: World, userId: int, sessionToken: Bytes, secret: Bytes, now: int): World {
    var token := S.CreateUserSession(w.server.db, userId, sessionToken, secret, now).1;
    World(S.Next(w.server, S.Login(userId, sessionToken, secret, now)),
          if token.None? then w.tab
          else w.tab.(inFlight := Some(LoginAnswered(token.value)), mine := w.tab.mine + {sessionToken}))
  }

  function Next(w: World, step: Step): World
    requires Enabled(w, step)
  {
    var t := w.tab;
    match step
    case Elsewhere(st) => World(S.Next(w.server, st), t)
    case Begin(c, isRead) => w.(tab := t.(calls := t.calls[c := Call(isRead, First(Sent), 0)]))
    case Serve(c, authorized) => w.(tab := t.(calls := t.calls[c := ServeCall(t.calls[c], authorized)]))
    case Answer(c) =>
      var answered := AnswerCall(t.calls[c]);
      var u := t.(calls := t.calls[c := answered]);
      w.(tab := if answered.phase == Waiting then RenewSessionOnce(u) else u)
    case Fail(c, late) => w.(tab := t.(calls := t.calls[c := FailCall(t.calls[c], late)]))
    case ServeRefresh(newSecret, now) => ServeRefreshNext(w, newSecret, now)
    case RefuseRefresh => w.(tab := t.(inFlight := Some(ReAuth)))
    case FailRefresh => w.(tab := Settle(t, false))
    case AnswerRefresh =>
      var newToken := t.inFlight.value.newToken;
      w.(tab := if newToken.Some? then Settle(t.(jar := newToken), true) else t.(jar := None, inFlight := Some(ReAuth)))
    case ServeLogin(userId, sessionToken, secret, now) => ServeLoginNext(w, userId, sessionToken, secret, now)
    case AnswerLogin => w.(tab := Settle(t.(jar := Some(t.inFlight.value.cookie)), true))
    case Logout =>
      if t.jar.None? then w
      else World(S.Next(w.server, S.LogoutStep(t.jar.value)), t.(jar := None))
  }

  // --------------------------------------------------------------------------------- invariant

  /** The token carries the last secret issued for a session of this tab. */
  ghost predicate Latest(w: World, token: Bytes) {
    exists t ::
      && t in w.tab.mine && t in w.server.issued && w.server.issued[t] != []
      && token == GenerateRefreshToken(t, S.Last(w.server.issued[t]))
  }

  /** Whatever the tab would present next is the latest; the cookie is behind only while an answer is on its way. */
  ghost predicate CookieFresh(w: World) {
    match w.tab.inFlight
    case Some(RefreshSent(token)) => (w.tab.jar.Some? ==> Latest(w, w.tab.jar.value))
      && (token.Some? ==> Latest(w, token.value))
    case Some(RefreshAnswered(newToken)) => newToken.Some? ==> Latest(w, newToken.value)
    case Some(LoginAnswered(token)) => Latest(w, token)
    case _ => w.tab.jar.Some? ==> Latest(w, w.tab.jar.value)
  }

  predicate CallSound(c: Call) {
    match c.phase
    case First(f) => c.executions == (if f == Executed then 1 else 0)
    case Retry(f) => c.isRead && c.executions <= (if f == Executed then 2 else 1)
    case Waiting => c.executions <= (if c.isRead then 1 else 0)
    case Replay(f) => c.executions <= (if c.isRead then 1 else 0) + (if f == Executed then 1 else 0)
    case Done => c.executions <= (if c.isRead then 2 else 1)
  }

  ghost predicate CallsSound(t: Tab) {
    forall c :: c in t.calls ==> CallSound(t.calls[c])
  }

  ghost predicate Inv(w: World) {
    S.Inv(w.server) && CookieFresh(w) && CallsSound(w.tab)
  }

  // ------------------------------------------------------------------------------ preservation

  lemma {:induction false} LatestKept(w: World, u: World, token: Bytes)
    requires Latest(w, token) && w.tab.mine <= u.tab.mine
    requires forall t :: t in w.tab.mine && t in w.server.issued ==>
        t in u.server.issued && u.server.issued[t] == w.server.issued[t]
    ensures Latest(u, token)
  {
    var t :| t in w.tab.mine && t in w.server.issued && w.server.issued[t] != []
             && token == GenerateRefreshToken(t, S.Last(w.server.issued[t]));
    assert t in u.server.issued;
  }

  /** Other clients' steps issue nothing for this tab's sessions. */
  lemma {:induction false} ForeignKeepsIssued(w: World, step: S.Step)
    requires S.Enabled(w.server, step) && Foreign(w.tab, step)
    ensures forall t :: t in w.tab.mine && t in w.server.issued ==>
      t in S.Next(w.server, step).issued && S.Next(w.server, step).issued[t] == w.server.issued[t]
  {
    hide S.RefreshSession, S.CreateUserSession, S.Logout, ValidateRefreshToken, S.NewSecret;
  }

  lemma {:induction false} CookieKept(w: World, u: World)
    requires CookieFresh(w) && u.tab.inFlight == w.tab.inFlight && w.tab.mine <= u.tab.mine
    requires u.tab.jar == w.tab.jar || u.tab.jar.None?
    requires forall t :: t in w.tab.mine && t in w.server.issued ==>
        t in u.server.issued && u.server.issued[t] == w.server.issued[t]
    ensures CookieFresh(u)
  {
    hide Latest;
    if w.tab.jar.Some? && Latest(w, w.tab.jar.value) {
      LatestKept(w, u, w.tab.jar.value);
    }
    match w.tab.inFlight
    case Some(RefreshSent(token)) => if token.Some? { LatestKept(w, u, token.value); }
    case Some(RefreshAnswered(newToken)) => if newToken.Some? { LatestKept(w, u, newToken.value); }
    case Some(LoginAnswered(token)) => LatestKept(w, u, token);
    case _ =>
  }

  /** The step the whole protocol is about: the token presented is the latest, so the answer is too. */
  lemma {:induction false} RefreshKeepsCookie(w: World, newSecret: Bytes, now: int)
    requires Inv(w) && Enabled(w, ServeRefresh(newSecret, now))
    ensures CookieFresh(ServeRefreshNext(w, newSecret, now))
  {
    hide S.Inv, S.RefreshSession, ValidateRefreshToken, GenerateRefreshToken, S.NewSecret;
    var presented := w.tab.inFlight.value.token;
    if presented.Some? {
      var token := presented.value;
      var newToken := S.RefreshSession(w.server.db, token, newSecret, now).1;
      if newToken.Some? {
        S.AcceptedExactly(w.server, token, newSecret, now);
        var t := LatestNames(w, token);
        var u := ServeRefreshNext(w, newSecret, now);
        assert u.server.issued[t] == w.server.issued[t] + [newSecret];
        assert S.Last(u.server.issued[t]) == newSecret;
        assert Latest(u, newToken.value);
      }
    }
  }

  /** A latest token parses to its session token and the last secret issued for it. */
  lemma {:induction false} LatestNames(w: World, token: Bytes) returns (t: Bytes)
    requires S.Inv(w.server) && Latest(w, token)
    ensures t in w.tab.mine && t in w.server.issued && w.server.issued[t] != []
    ensures ValidateRefreshToken(token) == Ok(Parsed(t, S.Last(w.server.issued[t])))
  {
    hide S.UniqueTokens, S.Expects, S.DistinctSecrets, Valid, ValidateRefreshToken, GenerateRefreshToken;
    t :| t in w.tab.mine && t in w.server.issued && w.server.issued[t] != []
         && token == GenerateRefreshToken(t, S.Last(w.server.issued[t]));
    GoodTokenRoundTrip(t, S.Last(w.server.issued[t]));
  }

  lemma {:induction false} LoginKeepsCookie(w: World, userId: int, sessionToken: Bytes, secret: Bytes, now: int)
    requires Inv(w) && Enabled(w, ServeLogin(userId, sessionToken, secret, now))
    ensures CookieFresh(ServeLoginNext(w, userId, sessionToken, secret, now))
  {
    hide S.Inv, GenerateRefreshToken, S.NewSecret, InsertSession;
    var u := ServeLoginNext(w, userId, sessionToken, secret, now);
    if S.CreateUserSession(w.server.db, userId, sessionToken, secret, now).1.Some? {
      assert S.Last(u.server.issued[sessionToken]) == secret;
      assert Latest(u, GenerateRefreshToken(sessionToken, secret));
    } else {
      CookieKept(w, u);
    }
  }

  /** Steps that leave the server and the cookie's worth alone. */
  lemma {:induction false} TabStepKeepsCookie(w: World, step: Step)
    requires CookieFresh(w) && Enabled(w, step)
    requires step.Begin? || step.Serve? || step.Answer? || step.Fail? || step.RefuseRefresh? || step.FailRefresh?
             || step.AnswerRefresh? || step.AnswerLogin?
    ensures CookieFresh(Next(w, step))
  {
    var u := Next(w, step);
    forall token | Latest(w, token) ensures Latest(u, token) {
      LatestKept(w, u, token);
    }
  }

  lemma {:induction false} CallsStaySound(w: World, step: Step)
    requires CallsSound(w.tab) && Enabled(w, step)
    ensures CallsSound(Next(w, step).tab)
  {
    hide S.Next, S.RefreshSession, S.CreateUserSession, ValidateRefreshToken, S.NewSecret;
  }

  lemma {:induction false} ServerStaysSound(w: World, step: Step)
    requires S.Inv(w.server) && Enabled(w, step)
    ensures S.Inv(Next(w, step).server)
  {
    hide S.Inv, S.Next, S.RefreshSession, S.CreateUserSession, ValidateRefreshToken, S.NewSecret;
    match step
    case Elsewhere(st) => S.NextKeepsInv(w.server, st);
    case ServeRefresh(newSecret, now) =>
      if w.tab.inFlight.value.token.Some? {
        S.NextKeepsInv(w.server, S.Refresh(w.tab.inFlight.value.token.value, newSecret, now));
      }
    case ServeLogin(userId, sessionToken, secret, now) =>
      S.NextKeepsInv(w.server, S.Login(userId, sessionToken, secret, now));
    case Logout => if w.tab.jar.Some? { S.NextKeepsInv(w.server, S.LogoutStep(w.tab.jar.value)); }
    case _ =>
  }

  lemma {:induction false} NextKeepsInv(w: World, step: Step)
    requires Inv(w) && Enabled(w, step)
    ensures Inv(Next(w, step))
  {
    hide S.Inv, CookieFresh, CallsSound, S.Next, S.RefreshSession, S.CreateUserSession, ValidateRefreshToken,
         S.NewSecret, ServeRefreshNext, ServeLoginNext;
    ServerStaysSound(w, step);
    CallsStaySound(w, step);
    match step
    case Elsewhere(st) => ForeignKeepsIssued(w, st); CookieKept(w, Next(w, step));
    case ServeRefresh(newSecret, now) => RefreshKeepsCookie(w, newSecret, now);
    case ServeLogin(userId, sessionToken, secret, now) => LoginKeepsCookie(w, userId, sessionToken, secret, now);
    case Logout => LogoutKeepsCookie(w);
    case _ => TabStepKeepsCookie(w, step);
  }

  lemma {:induction false} LogoutKeepsCookie(w: World)
    requires CookieFresh(w)
    ensures CookieFresh(Next(w, Logout))
  {
    hide Latest, S.Logout;
    CookieKept(w, Next(w, Logout));
  }

  // ---------------------------------------------------------------------------------- theorems

  ghost predicate Run(ws: seq<World>, steps: seq<Step>) {
    && |ws| == |steps| + 1
    && forall k :: 0 <= k < |steps| ==> Enabled(ws[k], steps[k]) && ws[k + 1] == Next(ws[k], steps[k])
  }

  lemma {:induction false} RunKeepsInv(ws: seq<World>, steps: seq<Step>, k: nat)
    requires Run(ws, steps) && k < |ws| && Inv(ws[0])
    ensures Inv(ws[k])
  {
    hide Inv, Next, Enabled;
    if k > 0 {
      RunKeepsInv(ws, steps, k - 1);
      NextKeepsInv(ws[k - 1], steps[k - 1]);
    }
  }

  /** A tab that has just been loaded, with no cookie yet. */
  lemma {:induction false} FreshTabSound(server: S.World)
    requires S.Inv(server)
    ensures Inv(World(server, Tab(None, None, map[], {})))
  {
    hide S.Inv;
  }

  /** The branch of RefreshSession that takes a token for a stolen one. */
  ghost predicate ReuseDetected(db: Database, token: Bytes, now: int) {
    && ValidateRefreshToken(token).Ok?
    && exists id ::
         && S.IsSession(db, id, ValidateRefreshToken(token).value.sessionToken)
         && now <= db.sessions.rows[id].expiresAt
         && db.sessions.rows[id].tokenHash != Mac(ValidateRefreshToken(token).value.secret)
  }

  /** In every run the tab never presents a rotated-away secret, so reuse detection never fires for it. */
  lemma {:induction false} ReuseNeverDetected(ws: seq<World>, steps: seq<Step>, k: nat, now: int)
    requires Run(ws, steps) && k < |ws| && Inv(ws[0])
    requires ws[k].tab.inFlight.Some? && ws[k].tab.inFlight.value.RefreshSent? && ws[k].tab.inFlight.value.token.Some?
    ensures !ReuseDetected(ws[k].server.db, ws[k].tab.inFlight.value.token.value, now)
  {
    hide ValidateRefreshToken, GenerateRefreshToken, S.UniqueTokens, S.DistinctSecrets, Valid, Next, Enabled;
    RunKeepsInv(ws, steps, k);
    var t := LatestNames(ws[k], ws[k].tab.inFlight.value.token.value);
  }

  /** In every run the server executes a request that is no read at most once, and a read at most twice. */
  lemma {:induction false} ExecutedAtMost(ws: seq<World>, steps: seq<Step>, k: nat, c: nat)
    requires Run(ws, steps) && k < |ws| && Inv(ws[0]) && c in ws[k].tab.calls
    ensures ws[k].tab.calls[c].executions <= if ws[k].tab.calls[c].isRead then 2 else 1
  {
    hide CookieFresh, S.Inv, Next, Enabled;
    RunKeepsInv(ws, steps, k);
    assert CallSound(ws[k].tab.calls[c]);
  }
}
