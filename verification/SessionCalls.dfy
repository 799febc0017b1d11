/**
 * What becomes of every call of the tab: when it waits, when it is replayed, and why it may end
 * without an execution.
 */
module SessionCalls {
  import opened Common
  import opened Db
  import opened RefreshToken
  import opened SessionClient
  import S = Sessions

  // --------------------------------------------------------------------------- waiting and replay

  /** The shared renewal has brought a cookie: the refresh was accepted, or the user has logged in again. */
  predicate Renews(w: World, step: Step) {
    (step.AnswerRefresh? && w.tab.inFlight.Some? && w.tab.inFlight.value.RefreshAnswered?
      && w.tab.inFlight.value.newToken.Some?)
    || step.AnswerLogin?
  }

  /** It settles without one: the refresh could not reach the server. */
  predicate GivesUp(step: Step) {
    step.FailRefresh?
  }

  predicate Waits(w: World, c: nat) {
    c in w.tab.calls && w.tab.calls[c].phase == Waiting
  }

  /**
   * A call that waits goes on waiting until the renewal settles; then it is sent again, for the one
   * replay, or ends if there is no cookie. Nothing else about it changes.
   */
  lemma {:induction false} WaitingEnds(w: World, step: Step, c: nat)
    requires Enabled(w, step) && Waits(w, c)
    ensures var calls := Next(w, step).tab.calls;
      && c in calls
      && calls[c] == Call(w.tab.calls[c].isRead,
                          if Renews(w, step) then Replay(Sent) else if GivesUp(step) then Done else Waiting,
                          w.tab.calls[c].executions)
  {
    hide S.Next, S.RefreshSession, S.CreateUserSession, ValidateRefreshToken, S.NewSecret;
  }

  /** No other call is touched by a renewal. */
  lemma {:induction false} OthersNotTouched(w: World, step: Step, c: nat)
    requires Enabled(w, step) && c in w.tab.calls && !Waits(w, c)
    requires !(step.Serve? || step.Answer? || step.Fail?) || step.call != c
    ensures c in Next(w, step).tab.calls && Next(w, step).tab.calls[c] == w.tab.calls[c]
  {
    hide S.Next, S.RefreshSession, S.CreateUserSession, ValidateRefreshToken, S.NewSecret;
  }

  /** While a call waits, a renewal is in flight. */
  ghost predicate Awaited(t: Tab) {
    (exists c :: c in t.calls && t.calls[c].phase == Waiting) ==> t.inFlight.Some?
  }

  lemma {:induction false} NextAwaited(w: World, step: Step)
    requires Enabled(w, step) && Awaited(w.tab)
    ensures Awaited(Next(w, step).tab)
  {
    hide S.Next, S.RefreshSession, S.CreateUserSession, ValidateRefreshToken, S.NewSecret;
    var t, u := w.tab, Next(w, step).tab;
    if c :| c in u.calls && u.calls[c].phase == Waiting && u.inFlight.None? {
      if c in t.calls && t.calls[c].phase == Waiting {
        WaitingEnds(w, step, c);
        assert t.inFlight.Some?;
      }
    }
  }

  /** So no call waits for nothing: in every run, whenever one waits, something about the renewal can happen. */
  lemma {:induction false} WaitingIsAwaited(ws: seq<World>, steps: seq<Step>, k: nat, c: nat)
    requires Run(ws, steps) && k < |ws| && Awaited(ws[0].tab) && Waits(ws[k], c)
    ensures ws[k].tab.inFlight.Some?
    ensures Enabled(ws[k], FailRefresh) || Enabled(ws[k], AnswerRefresh) || Enabled(ws[k], AnswerLogin)
            || ws[k].tab.inFlight == Some(ReAuth)
  {
    RunAwaited(ws, steps, k);
  }

  lemma {:induction false} RunAwaited(ws: seq<World>, steps: seq<Step>, k: nat)
    requires Run(ws, steps) && k < |ws| && Awaited(ws[0].tab)
    ensures Awaited(ws[k].tab)
  {
    hide Awaited, Next, Enabled;
    if k > 0 {
      RunAwaited(ws, steps, k - 1);
      NextAwaited(ws[k - 1], steps[k - 1]);
    }
  }

  /** The first 401 of a call makes it wait, for the renewal in flight or for one with the cookie of now. */
  lemma {:induction false} UnauthorizedWaits(w: World, c: nat)
    requires Enabled(w, Answer(c)) && w.tab.calls[c].phase.fetch == Unauthorized && !w.tab.calls[c].phase.Replay?
    ensures var u := Next(w, Answer(c)).tab;
      && Waits(Next(w, Answer(c)), c)
      && u.inFlight == (if w.tab.inFlight.Some? then w.tab.inFlight else Some(RefreshSent(w.tab.jar)))
      && u.jar == w.tab.jar
  {
  }

  /** A refresh that is refused asks the user to log in; the calls wait for that. */
  lemma {:induction false} RefusedAsksLogin(w: World, step: Step)
    requires Enabled(w, step) && (step.RefuseRefresh? || (step.AnswerRefresh? && !Renews(w, step)))
    ensures Next(w, step).tab.inFlight == Some(ReAuth)
    ensures Next(w, step).tab.calls == w.tab.calls
  {
  }

  /** Once renewed, the cookie is the latest token of a session of this tab. */
  lemma {:induction false} RenewedCookie(w: World, step: Step)
    requires Inv(w) && Enabled(w, step) && Renews(w, step)
    ensures Next(w, step).tab.jar.Some? && Latest(Next(w, step), Next(w, step).tab.jar.value)
    ensures Next(w, step).tab.inFlight.None?
  {
    hide S.Inv, S.Next, GenerateRefreshToken;
    NextKeepsInv(w, step);
  }

  /** The session that this token carries the last secret of can still be renewed. */
  ghost predicate Renewable(w: World, token: Bytes, now: int) {
    exists t, id ::
      && t in w.server.issued && w.server.issued[t] != []
      && token == GenerateRefreshToken(t, S.Last(w.server.issued[t]))
      && S.Renewable(w.server.db, id, t, now)
  }

  /** A refresh of a live session with the latest cookie brings a new cookie: nobody has to log in again. */
  lemma {:induction false} LiveSessionRenews(w: World, newSecret: Bytes, now: int)
    requires Inv(w) && Enabled(w, ServeRefresh(newSecret, now)) && w.tab.inFlight.value.token.Some?
    requires Renewable(w, w.tab.inFlight.value.token.value, now)
    ensures var u := Next(w, ServeRefresh(newSecret, now));
      Enabled(u, AnswerRefresh) && Renews(u, AnswerRefresh)
  {
    hide S.Inv, S.Next, GenerateRefreshToken, S.RefreshSession, ValidateRefreshToken, S.NewSecret, S.Renewable,
         CookieFresh, CallsSound;
    var t, id :|
      && t in w.server.issued && w.server.issued[t] != []
      && w.tab.inFlight.value.token.value == GenerateRefreshToken(t, S.Last(w.server.issued[t]))
      && S.Renewable(w.server.db, id, t, now);
    S.IssuedTokenAccepted(w.server, t, newSecret, now, id);
  }

  /** A logout ends the session of the cookie at the server and forgets the cookie. */
  lemma {:induction false} LogoutForgets(w: World)
    requires S.Inv(w.server)
    ensures var u := Next(w, Logout);
      && u.tab.jar.None? && u.tab.calls == w.tab.calls && u.tab.inFlight == w.tab.inFlight
      && (w.tab.jar.Some? ==> u.server.db == S.Logout(w.server.db, w.tab.jar.value))
      && (w.tab.jar.None? ==> u.server == w.server)
  {
    hide S.Logout;
  }

  // ------------------------------------------------------------------------- calls never executed

  /** Why a call may end without having been executed. */
  predicate Excuse(w: World, step: Step, c: nat)
    requires Enabled(w, step) && c in w.tab.calls
  {
    var call := w.tab.calls[c];
    || (step.Fail? && step.call == c && !(call.isRead && call.phase.First?))
    || (step.FailRefresh? && call.phase == Waiting)
    || (step == Answer(c) && call.phase == Replay(Unauthorized))
  }

  /** A request that the server has executed has been executed at least once. */
  ghost predicate Counted(t: Tab) {
    forall c :: c in t.calls && InFlight(t.calls[c]) && t.calls[c].phase.fetch == Executed ==> t.calls[c].executions > 0
  }

  lemma {:induction false} NextCounted(w: World, step: Step)
    requires Enabled(w, step) && Counted(w.tab)
    ensures Counted(Next(w, step).tab)
  {
    hide S.Next, S.RefreshSession, S.CreateUserSession, ValidateRefreshToken, S.NewSecret;
  }

  lemma {:induction false} RunCounted(ws: seq<World>, steps: seq<Step>, k: nat)
    requires Run(ws, steps) && k < |ws| && Counted(ws[0].tab)
    ensures Counted(ws[k].tab)
  {
    hide Counted, Next, Enabled;
    if k > 0 {
      RunCounted(ws, steps, k - 1);
      NextCounted(ws[k - 1], steps[k - 1]);
    }
  }

  predicate Unexecuted(t: Tab, c: nat) {
    c in t.calls && t.calls[c].phase == Done && t.calls[c].executions == 0
  }

  /** The step that ends a call that was never executed has an excuse. */
  lemma {:induction false} EndsWithExcuse(w: World, step: Step, c: nat)
    requires Enabled(w, step) && Counted(w.tab) && Unexecuted(Next(w, step).tab, c) && !Unexecuted(w.tab, c)
    ensures c in w.tab.calls && Excuse(w, step, c)
  {
    hide S.Next, S.RefreshSession, S.CreateUserSession, ValidateRefreshToken, S.NewSecret;
    if c in w.tab.calls {
      if Waits(w, c) {
        WaitingEnds(w, step, c);
      } else if !(step.Serve? || step.Answer? || step.Fail?) || step.call != c {
        OthersNotTouched(w, step, c);
      }
    }
  }

  /**
   * In every run of a tab that starts without calls: a call that ended with the server never having
   * executed it met a fetch that failed, for a read its second at least, a renewal that could not
   * reach the server, or a second 401 on its replay.
   */
  lemma {:induction false} DroppedWithExcuse(ws: seq<World>, steps: seq<Step>, k: nat, c: nat) returns (i: nat)
    requires Run(ws, steps) && k < |ws| && ws[0].tab.calls == map[] && Unexecuted(ws[k].tab, c)
    ensures i < k && c in ws[i].tab.calls && Excuse(ws[i], steps[i], c)
  {
    hide Next, Enabled, Excuse;
    i := 0;
    if k > 0 {
      RunCounted(ws, steps, k - 1);
      if Unexecuted(ws[k - 1].tab, c) {
        i := DroppedWithExcuse(ws, steps, k - 1, c);
      } else {
        i := k - 1;
        EndsWithExcuse(ws[k - 1], steps[k - 1], c);
      }
    }
  }

  /** A call on its way can always go on: it reaches the server, is answered, or fails. */
  lemma {:induction false} CallsGoOn(w: World, c: nat)
    requires c in w.tab.calls && InFlight(w.tab.calls[c])
    ensures var call := w.tab.calls[c];
      if call.phase.fetch == Sent then Enabled(w, Serve(c, true)) && Enabled(w, Serve(c, false))
        else Enabled(w, Answer(c))
    ensures Enabled(w, Fail(c, false))
  {
  }

  /**
   * A fetch is answered by the server, with a 401 if it is not authorized. A call ends with any other
   * answer, and with every answer to its replay; if a fetch fails, a read is sent a second time.
   */
  lemma {:induction false} CallSteps(w: World, c: nat, authorized: bool, late: bool)
    ensures Enabled(w, Serve(c, authorized)) ==>
      var call, next := w.tab.calls[c], Next(w, Serve(c, authorized)).tab.calls[c];
      && InFlight(next) && next.phase.fetch == (if authorized then Executed else Unauthorized)
      && next.isRead == call.isRead && (next.phase.First? <==> call.phase.First?)
      && (next.phase.Replay? <==> call.phase.Replay?)
    ensures Enabled(w, Answer(c)) && (w.tab.calls[c].phase.fetch == Executed || w.tab.calls[c].phase.Replay?) ==>
      Next(w, Answer(c)).tab.calls[c] == w.tab.calls[c].(phase := Done)
    ensures Enabled(w, Fail(c, late)) ==>
      var call, next := w.tab.calls[c], Next(w, Fail(c, late)).tab.calls[c];
      next.isRead == call.isRead && next.phase == if call.isRead && call.phase.First? then Retry(Sent) else Done
  {
  }

  /** The server executes what it authorizes, exactly then and exactly once. */
  lemma {:induction false} ExecutionsCount(w: World, step: Step, c: nat)
    requires Enabled(w, step) && c in w.tab.calls
    ensures c in Next(w, step).tab.calls
    ensures Next(w, step).tab.calls[c].executions == w.tab.calls[c].executions
            + if step == Serve(c, true) || (step == Fail(c, true) && w.tab.calls[c].phase.fetch == Sent) then 1 else 0
  {
    hide S.Next, S.RefreshSession, S.CreateUserSession, ValidateRefreshToken, S.NewSecret;
  }
}
