/**
 * static/js/api.js as an object: the state authFetch and renewSession share, and the code between
 * two awaits as methods; each takes the step of SessionClient that its ensures names.
 */
module ApiClient {
  import opened Common
  import opened SessionClient

  class Api {
    var jar: Option<Bytes>
    var inFlight: Option<Renewal>
    var calls: map<nat, Call>
    ghost var mine: set<Bytes>

    constructor ()
      ensures View() == Tab(None, None, map[], {})
    {
      jar, inFlight, calls, mine := None, None, map[], {};
    }

    ghost function View(): Tab
      reads this
    {
      Tab(jar, inFlight, calls, mine)
    }

    /** singleFlight(renewSession): a call while one is in flight shares it. */
    method RenewSessionOnce()
      modifies this`inFlight
      ensures View() == SessionClient.RenewSessionOnce(old(View()))
      ensures old(inFlight).Some? ==> inFlight == old(inFlight)
    {
      if inFlight.None? {
        inFlight := Some(RefreshSent(jar));
      }
    }

    /** The renewal's finally, and what the calls that awaited it do next. */
    method Settle(renewed: bool)
      modifies this`inFlight, this`calls
      ensures View() == SessionClient.Settle(old(View()), renewed)
    {
      inFlight := None;
      ResumeAll(renewed);
    }

    method ResumeAll(renewed: bool)
      modifies this`calls
      ensures calls == map c | c in old(calls) :: Resume(old(calls)[c], renewed)
    {
      hide Resume;
      ghost var before := calls;
      var todo := calls.Keys;
      while todo != {}
        invariant todo <= calls.Keys == before.Keys
        invariant forall c :: c in todo ==> calls[c] == before[c]
        invariant forall c :: c in before.Keys - todo ==> calls[c] == Resume(before[c], renewed)
        decreases |todo|
      {
        var c :| c in todo;
        todo := todo - {c};
        calls := calls[c := Resume(calls[c], renewed)];
      }
    }

    /** authFetch once a fetch has an answer. */
    method FetchAnswered(c: nat)
      requires c in calls && InFlight(calls[c]) && calls[c].phase.fetch != Sent
      modifies this`inFlight, this`calls
      ensures View() ==
        var answered := AnswerCall(old(calls)[c]);
        var u := old(View()).(calls := old(calls)[c := answered]);
        if answered.phase == Waiting then SessionClient.RenewSessionOnce(u) else u
    {
      var call := calls[c];
      if call.phase.fetch == Unauthorized && !call.phase.Replay? {
        calls := calls[c := call.(phase := Waiting)];
        RenewSessionOnce();
      } else {
        calls := calls[c := call.(phase := Done)];
      }
    }

    /** authFetch once rawFetch has thrown: only a read is sent a second time. */
    method FetchFailed(c: nat)
      requires c in calls && InFlight(calls[c])
      modifies this`calls
      ensures View() == old(View()).(calls := old(calls)[c := FailCall(old(calls)[c], false)])
    {
      var call := calls[c];
      if call.phase.First? && call.isRead {
        calls := calls[c := call.(phase := Retry(Sent))];
      } else {
        calls := calls[c := call.(phase := Done)];
      }
    }

    /** renewSession once the refresh has an answer. */
    method RefreshAnswered(newToken: Option<Bytes>)
      requires inFlight == Some(Renewal.RefreshAnswered(newToken))
      modifies this
      ensures View() == if newToken.Some? then SessionClient.Settle(old(View()).(jar := newToken), true)
                        else old(View()).(jar := None, inFlight := Some(ReAuth))
    {
      jar := newToken;
      if newToken.Some? {
        Settle(true);
      } else {
        inFlight := Some(ReAuth);
      }
    }
  }
}
