/** What the token refresh leaves behind: the stored tokens, the tokens on the wire, and how each request ends. */
module TokenOutcomes {
  import opened PyText
  import opened TokenRefresh

  // ----- The stored tokens

  /** The tokens an event stores: those granted, none when a refresh is denied or a 401 ends the session, and those of a
      login or logout. */
  function Stores(s: State, e: Event): Option<(string, string)> {
    match e
    case RefreshEnds(_, Granted(access, refresh)) => Some((access, refresh))
    case RefreshEnds(_, Denied) => Some(("", ""))
    case TokensChange(access, refresh) => Some((access, refresh))
    case Respond(id, Unauthorized) =>
      if id in s.requests && !s.requests[id].retry && (s.refresh == "" || s.requests[id].login) then Some(("", "")) else None
    case _ => None
  }

  lemma {:induction false} WakeAllStores(s: State, ids: seq<nat>, token: string)
    requires forall k | 0 <= k < |ids| :: ids[k] in s.requests
    ensures var r := WakeAll(s, ids, token);
            r.access == s.access && r.refresh == s.refresh && r.leaders == s.leaders && r.epoch == s.epoch
    decreases |ids|
  {
    if ids != [] { WakeAllStores(s, ids[..|ids| - 1], token); }
  }

  /** What an event does to the two stored tokens. */
  lemma {:induction false} StepStores(s: State, e: Event)
    requires Inv(s) && Enabled(s, e)
    ensures var t := Step(s, e);
            (t.access, t.refresh) == match Stores(s, e) case Some(pair) => pair case None => (s.access, s.refresh)
  {
    hide Times, WireRight, ReleasesRight, WakeAll;
    if e.RefreshEnds? {
      match e.grant
      case Granted(access, refresh) => WakeAllStores(s.(access := access, refresh := refresh), s.queue, access);
      case Denied =>
    }
  }

  /** In every run the stored pair is the one that the last such event stored, or none at the start. */
  lemma {:induction false} StoredPair(states: seq<State>, events: seq<Event>, k: nat)
    requires IsRun(states, events) && k < |states|
    ensures var pair := (states[k].access, states[k].refresh);
            || (exists i | 0 <= i < k :: LastStored(states, events, i, k, pair))
            || (pair == ("", "") && forall i | 0 <= i < k :: Stores(states[i], events[i]).None?)
    decreases k
  {
    hide Step, Inv, Enabled, Stores;
    if k == 0 {
      StartEmpty();
    } else {
      var n := k - 1;
      StoredPair(states, events, n);
      RunInv(states, events, n);
      assert Next(states[n], events[n], states[n + 1]);
      StepStores(states[n], events[n]);
      var pair := (states[k].access, states[k].refresh);
      if Stores(states[n], events[n]).Some? {
        assert LastStored(states, events, n, k, pair);
      } else if i :| 0 <= i < n && LastStored(states, events, i, n, (states[n].access, states[n].refresh)) {
        assert LastStored(states, events, i, k, pair);
      }
    }
  }

  ghost predicate LastStored(states: seq<State>, events: seq<Event>, i: nat, k: nat, pair: (string, string))
    requires |states| == |events| + 1 && i < k < |states|
  {
    Stores(states[i], events[i]) == Some(pair) && forall m | i < m < k :: Stores(states[m], events[m]).None?
  }

  lemma StartEmpty()
    ensures START.access == "" && START.refresh == ""
  {
  }

  // ----- The tokens on the wire

  lemma {:induction false} RetriesCarry(s: State, ids: seq<nat>, token: string)
    requires token != "" ==> s.access == token
    ensures forall k | 0 <= k < |Retries(s, ids, token)| :: Retries(s, ids, token)[k].token == s.access
    ensures token == "" ==> Retries(s, ids, token) == []
    decreases |ids|
  {
    if ids != [] { RetriesCarry(s, ids[..|ids| - 1], token); }
  }

  ghost predicate Carries(wire: seq<Sent>, from: nat, token: string) {
    from <= |wire| && forall k | from <= k < |wire| :: wire[k].token == token
  }

  /** Whatever an event sends carries the access token that is stored behind it: a new request the one stored before, a
      request sent again the refreshed one. */
  lemma {:induction false} SentWithStored(s: State, e: Event)
    requires Inv(s) && Enabled(s, e)
    ensures var t := Step(s, e);
            s.wire <= t.wire && Carries(t.wire, |s.wire|, t.access)
  {
    hide Times, WireRight, ReleasesRight, WakeAll, Retries, Notes;
    if e.RefreshEnds? {
      assert Queued(s) && e.leader in s.requests;
      var base := match e.grant
        case Granted(access, refresh) => s.(access := access, refresh := refresh)
        case Denied => s;
      var token := if e.grant.Granted? then e.grant.access else "";
      WakeAllWire(base, s.queue, token);
      RetriesCarry(base, s.queue, token);
      WakeAllStores(base, s.queue, token);
    }
  }

  // ----- How a request ends

  /** What an answer does to its own request and to all others. */
  lemma {:induction false} RespondOutcome(s: State, id: nat, answer: Answer)
    requires Inv(s) && Enabled(s, Respond(id, answer))
    ensures var t, r := Step(s, Respond(id, answer)), s.requests[id];
            && t.requests.Keys == s.requests.Keys
            && (forall other | other in s.requests && other != id :: t.requests[other] == s.requests[other])
            && t.requests[id].login == r.login
            && t.requests[id].phase ==
                 match answer
                 case Success => Settled(true)
                 case OtherError => Settled(false)
                 case Unauthorized =>
                   if r.retry || s.refresh == "" || r.login then Settled(false)
                   else if |s.leaders| == 1 then Waiting(s.epoch)
                   else Refreshing
  {
    hide Times, WireRight, ReleasesRight, WaitersRight;
  }

  /** An event that settles a request: a success is the only one that settles it with true. */
  lemma {:induction false} SettledStep(s: State, e: Event, id: nat, ok: bool)
    requires Inv(s) && Enabled(s, e) && id in Step(s, e).requests && Step(s, e).requests[id].phase == Settled(ok)
    requires !(id in s.requests && s.requests[id].phase == Settled(ok))
    ensures ok <==> e == Respond(id, Answer.Success)
  {
    hide Times, WireRight, ReleasesRight, WakeAll;
    match e
    case Respond(other, answer) => RespondOutcome(s, other, answer);
    case RefreshEnds(leader, grant) => RefreshEndsRequests(s, leader, grant);
    case _ =>
  }

  /** A settled request is never touched again. */
  lemma {:induction false} SettledStays(s: State, e: Event, id: nat)
    requires Inv(s) && Enabled(s, e) && id in s.requests && s.requests[id].phase.Settled?
    ensures id in Step(s, e).requests && Step(s, e).requests[id] == s.requests[id]
  {
    hide Times, WireRight, ReleasesRight, WakeAll;
    match e
    case Respond(other, answer) => RespondOutcome(s, other, answer);
    case RefreshEnds(leader, grant) =>
      RefreshEndsRequests(s, leader, grant);
      assert s.requests[leader].phase.Refreshing?;
    case _ =>
  }

  /** In every run a request is settled with success if and only if a success was its answer. */
  lemma {:induction false} SettledExactly(states: seq<State>, events: seq<Event>, k: nat, id: nat)
    requires IsRun(states, events) && k < |states|
    requires id in states[k].requests && states[k].requests[id].phase.Settled?
    ensures states[k].requests[id].phase.ok <==> exists i | 0 <= i < k :: events[i] == Respond(id, Answer.Success)
    decreases k
  {
    hide Step, Inv, Enabled;
    RunInv(states, events, k);
    if k > 0 {
      var n := k - 1;
      var s, e, ok := states[n], events[n], states[k].requests[id].phase.ok;
      RunInv(states, events, n);
      assert Next(s, e, states[n + 1]);
      if id in s.requests && s.requests[id].phase.Settled? {
        SettledStays(s, e, id);
        SettledExactly(states, events, n, id);
        NotAgain(s, e, id);
      } else {
        SettledStep(s, e, id, ok);
        forall i | 0 <= i < n ensures events[i] != Respond(id, Answer.Success) {
          if events[i] == Respond(id, Answer.Success) { SuccessSettles(states, events, i, n, id); }
        }
      }
    } else {
      NothingAtStart();
    }
  }

  lemma NothingAtStart()
    ensures START.requests == map[]
  {
  }

  lemma NotAgain(s: State, e: Event, id: nat)
    requires Enabled(s, e) && id in s.requests && s.requests[id].phase.Settled?
    ensures e != Respond(id, Answer.Success)
  {
  }

  lemma {:induction false} SuccessSettles(states: seq<State>, events: seq<Event>, i: nat, k: nat, id: nat)
    requires IsRun(states, events) && i < k < |states| && events[i] == Respond(id, Answer.Success)
    ensures id in states[k].requests && states[k].requests[id].phase == Settled(true)
    decreases k
  {
    hide Step, Inv, Enabled;
    var n := k - 1;
    RunInv(states, events, n);
    assert Next(states[n], events[n], states[n + 1]);
    if i < n {
      SuccessSettles(states, events, i, n, id);
      SettledStays(states[n], events[n], id);
    } else {
      InFlightBefore(states[n], id);
      RespondOutcome(states[n], id, Answer.Success);
    }
  }

  lemma InFlightBefore(s: State, id: nat)
    requires Enabled(s, Respond(id, Answer.Success))
    ensures id in s.requests
  {
  }
}
