/** The response interceptor's single-flight token refresh. Requests, answers and refresh
    results arrive in any order; one synchronous segment of the script is one step. */
module TokenRefresh {
  import opened PyText

  /** `Waiting` carries the number of the refresh the request queued behind. */
  datatype Phase = InFlight | Waiting(epoch: nat) | Refreshing | Settled(ok: bool)

  /** `login`: a login, register or refresh address; `retry`: the flag on the config. */
  datatype Request = Request(login: bool, retry: bool, phase: Phase)

  datatype Answer = Success | Unauthorized | OtherError

  datatype Grant = Granted(access: string, refresh: string) | Denied

  /** A request put on the wire, with the token in its Authorization header. */
  datatype Sent = Sent(id: nat, token: string)

  datatype Release = Release(id: nat, epoch: nat, retried: bool)

  datatype State = State(
    busy: bool,                  // a refresh has been started and not ended
    queue: seq<nat>,             // requests whose callbacks wait for it
    access: string,              // stored tokens; "" when absent
    refresh: string,
    requests: map<nat, Request>,
    leaders: seq<nat>,           // refresh calls in flight, by the request that started them
    epoch: nat,                  // refreshes started so far
    wire: seq<Sent>,
    released: seq<Release>)

  datatype Event =
    | Issue(id: nat, login: bool)
    | Respond(id: nat, answer: Answer)
    | RefreshEnds(leader: nat, grant: Grant)
    | TokensChange(access: string, refresh: string)

  const START := State(false, [], "", "", map[], [], 0, [], [])

  predicate Enabled(s: State, e: Event) {
    match e
    case Issue(id, _) => id !in s.requests
    case Respond(id, _) => id in s.requests && s.requests[id].phase.InFlight?
    case RefreshEnds(leader, _) => leader in s.leaders
    case TokensChange(_, _) => true
  }

  /** The request interceptor prefers the stored token to the one on the config. */
  function Header(s: State, own: string): string { if s.access != "" then s.access else own }

  function Send(s: State, id: nat, r: Request, own: string): State {
    s.(requests := s.requests[id := r.(phase := InFlight)], wire := s.wire + [Sent(id, Header(s, own))])
  }

  function Settle(s: State, id: nat, ok: bool): State
    requires id in s.requests
  {
    s.(requests := s.requests[id := s.requests[id].(phase := Settled(ok))])
  }

  function OnUnauthorized(s: State, id: nat): State
    requires id in s.requests
  {
    var r := s.requests[id];
    if r.retry then Settle(s, id, false)
    else if s.refresh == "" || r.login then Settle(s, id, false).(access := "", refresh := "")
    else if s.busy then
      s.(queue := s.queue + [id], requests := s.requests[id := r.(phase := Waiting(s.epoch))])
    else
      s.(busy := true, leaders := s.leaders + [id], epoch := s.epoch + 1,
         requests := s.requests[id := r.(retry := true, phase := Refreshing)])
  }

  /** One callback of the waiter list, called with the new token or with "". */
  function Wake(s: State, id: nat, token: string): State
    requires id in s.requests
  {
    var r := s.requests[id];
    var note := Release(id, if r.phase.Waiting? then r.phase.epoch else 0, token != "");
    (if token != "" then Send(s, id, r.(retry := true), token) else Settle(s, id, false))
      .(released := s.released + [note])
  }

  /** The callbacks of `ids`, in order. */
  function WakeAll(s: State, ids: seq<nat>, token: string): (r: State)
    requires forall k | 0 <= k < |ids| :: ids[k] in s.requests
    ensures r.requests.Keys == s.requests.Keys
  {
    if ids == [] then s
    else Wake(WakeAll(s, ids[..|ids| - 1], token), ids[|ids| - 1], token)
  }

  function OnRefreshEnds(s: State, leader: nat, grant: Grant): State
    requires Queued(s) && leader in s.requests
  {
    match grant
    case Granted(access, refresh) =>
      var woken := WakeAll(s.(access := access, refresh := refresh), s.queue, access);
      Send(woken, leader, woken.requests[leader], access)
        .(busy := false, queue := [], leaders := Without(s.leaders, leader))
    case Denied =>
      Settle(WakeAll(s, s.queue, ""), leader, false)
        .(busy := false, queue := [], access := "", refresh := "", leaders := Without(s.leaders, leader))
  }

  function Without(ids: seq<nat>, id: nat): seq<nat> {
    if ids == [] then [] else if ids[0] == id then ids[1..] else [ids[0]] + Without(ids[1..], id)
  }

  ghost predicate Queued(s: State) { forall k | 0 <= k < |s.queue| :: s.queue[k] in s.requests }

  ghost predicate LeadersKnown(s: State) { forall k | 0 <= k < |s.leaders| :: s.leaders[k] in s.requests }

  function Step(s: State, e: Event): State
    requires Enabled(s, e) && Queued(s) && LeadersKnown(s)
  {
    match e
    case Issue(id, login) => Send(s, id, Request(login, false, InFlight), "")
    case Respond(id, answer) =>
      if answer.Unauthorized? then OnUnauthorized(s, id) else Settle(s, id, answer.Success?)
    case RefreshEnds(leader, grant) => OnRefreshEnds(s, leader, grant)
    case TokensChange(access, refresh) => s.(access := access, refresh := refresh)
  }

  // ----- The invariant

  function Times(wire: seq<Sent>, id: nat): nat {
    if wire == [] then 0 else Times(wire[..|wire| - 1], id) + if wire[|wire| - 1].id == id then 1 else 0
  }

  /** How often a request has been sent, read off its flag and phase. */
  ghost predicate SentRight(r: Request, times: nat) {
    match r.phase
    case InFlight => times == if r.retry then 2 else 1
    case Waiting(_) => !r.retry && times == 1
    case Refreshing => r.retry && times == 1
    case Settled(_) => 1 <= times <= 2
  }

  /** One refresh at most, and it is the one the flag stands for. */
  ghost predicate SingleFlight(s: State) {
    && (s.busy <==> |s.leaders| == 1) && |s.leaders| <= 1
    && (forall id | id in s.requests :: s.requests[id].phase.Refreshing? <==> id in s.leaders)
    && LeadersKnown(s)
  }

  /** The waiter list holds exactly the waiting requests, each once, all behind the refresh
      in flight; it is empty when there is none. */
  ghost predicate WaitersRight(s: State) {
    && Queued(s)
    && (s.queue != [] ==> s.busy)
    && (forall id | id in s.requests :: s.requests[id].phase.Waiting? <==> id in s.queue)
    && (forall k | 0 <= k < |s.queue| :: s.requests[s.queue[k]].phase == Waiting(s.epoch))
    && (forall j, k | 0 <= j < k < |s.queue| :: s.queue[j] != s.queue[k])
  }

  ghost predicate WireRight(s: State) {
    && (forall id | id in s.requests :: SentRight(s.requests[id], Times(s.wire, id)))
    && (forall id | id !in s.requests :: Times(s.wire, id) == 0)
  }

  /** Nobody is released twice, and whoever was released waits no more and never will. */
  ghost predicate ReleasesRight(s: State) {
    && (forall j, k | 0 <= j < k < |s.released| :: s.released[j].id != s.released[k].id)
    && (forall k | 0 <= k < |s.released| ::
          var r := s.released[k];
          && r.id in s.requests
          && (s.requests[r.id].phase.Settled? || (s.requests[r.id].phase.InFlight? && s.requests[r.id].retry)))
  }

  ghost predicate Inv(s: State) {
    SingleFlight(s) && WaitersRight(s) && WireRight(s) && ReleasesRight(s)
  }

  lemma StartInv()
    ensures Inv(START)
  {
  }

  // ----- Waking the waiters

  ghost predicate Distinct(ids: seq<nat>) { forall j, k | 0 <= j < k < |ids| :: ids[j] != ids[k] }

  function Woken(r: Request, token: string): Request {
    if token != "" then r.(retry := true, phase := InFlight) else r.(phase := Settled(false))
  }

  function Note(s: State, id: nat, token: string): Release
    requires id in s.requests
  {
    Release(id, if s.requests[id].phase.Waiting? then s.requests[id].phase.epoch else 0, token != "")
  }

  function Notes(s: State, ids: seq<nat>, token: string): seq<Release>
    requires forall k | 0 <= k < |ids| :: ids[k] in s.requests
  {
    if ids == [] then [] else Notes(s, ids[..|ids| - 1], token) + [Note(s, ids[|ids| - 1], token)]
  }

  function Retries(s: State, ids: seq<nat>, token: string): seq<Sent> {
    if ids == [] || token == "" then []
    else Retries(s, ids[..|ids| - 1], token) + [Sent(ids[|ids| - 1], Header(s, token))]
  }

  /** One callback: its request is sent again or rejected, and its release is noted. */
  lemma WakeOne(s: State, id: nat, token: string)
    requires id in s.requests
    ensures Wake(s, id, token)
         == s.(requests := s.requests[id := Woken(s.requests[id], token)],
               wire := s.wire + (if token != "" then [Sent(id, Header(s, token))] else []),
               released := s.released + [Note(s, id, token)])
  {
    assert s.wire + [] == s.wire;
  }

  lemma {:induction false} WakeAllRequests(s: State, ids: seq<nat>, token: string)
    requires (forall k | 0 <= k < |ids| :: ids[k] in s.requests) && Distinct(ids)
    ensures var r := WakeAll(s, ids, token);
            && (forall id | id in s.requests ::
                  r.requests[id] == if id in ids then Woken(s.requests[id], token) else s.requests[id])
            && r == s.(requests := r.requests, wire := r.wire, released := r.released)
    decreases |ids|
  {
    hide Wake, Woken, Note, Header;
    if ids != [] {
      var front, last := ids[..|ids| - 1], ids[|ids| - 1];
      WakeAllRequests(s, front, token);
      WakeOne(WakeAll(s, front, token), last, token);
      LastOf(ids);
      hide Distinct;
    }
  }

  lemma LastOf(ids: seq<nat>)
    requires ids != [] && Distinct(ids)
    ensures var front, last := ids[..|ids| - 1], ids[|ids| - 1];
            last !in front && Distinct(front) && forall id :: id in ids <==> id in front || id == last
  {
    assert ids == ids[..|ids| - 1] + [ids[|ids| - 1]];
  }

  lemma {:induction false} WakeAllWire(s: State, ids: seq<nat>, token: string)
    requires (forall k | 0 <= k < |ids| :: ids[k] in s.requests) && Distinct(ids)
    ensures WakeAll(s, ids, token).wire == s.wire + Retries(s, ids, token)
    decreases |ids|
  {
    hide Wake, Woken, Note;
    if ids == [] {
      assert s.wire + [] == s.wire;
    } else {
      var front, last := ids[..|ids| - 1], ids[|ids| - 1];
      WakeAllWire(s, front, token);
      WakeAllRequests(s, front, token);
      WakeOne(WakeAll(s, front, token), last, token);
      assert s.wire + Retries(s, front, token) + [] == s.wire + Retries(s, front, token);
    }
  }

  lemma {:induction false} WakeAllNotes(s: State, ids: seq<nat>, token: string)
    requires (forall k | 0 <= k < |ids| :: ids[k] in s.requests) && Distinct(ids)
    ensures WakeAll(s, ids, token).released == s.released + Notes(s, ids, token)
    decreases |ids|
  {
    hide Wake, Woken, Header;
    if ids == [] {
      assert s.released + [] == s.released;
    } else {
      var front, last := ids[..|ids| - 1], ids[|ids| - 1];
      WakeAllNotes(s, front, token);
      WakeAllRequests(s, front, token);
      WakeOne(WakeAll(s, front, token), last, token);
      assert last !in front;
    }
  }

  /** Calling the callbacks in order touches each waiter once and nobody else. */
  lemma {:induction false} WakeAllClosed(s: State, ids: seq<nat>, token: string)
    requires (forall k | 0 <= k < |ids| :: ids[k] in s.requests) && Distinct(ids)
    ensures var r := WakeAll(s, ids, token);
            && (forall id | id in s.requests ::
                  r.requests[id] == if id in ids then Woken(s.requests[id], token) else s.requests[id])
            && r == s.(requests := r.requests, wire := s.wire + Retries(s, ids, token),
                       released := s.released + Notes(s, ids, token))
  {
    hide WakeAll, Woken, Retries, Notes;
    WakeAllRequests(s, ids, token);
    WakeAllWire(s, ids, token);
    WakeAllNotes(s, ids, token);
  }

  lemma {:induction false} NotesAre(s: State, ids: seq<nat>, token: string)
    requires forall k | 0 <= k < |ids| :: ids[k] in s.requests
    ensures |Notes(s, ids, token)| == |ids|
    ensures forall k | 0 <= k < |ids| :: Notes(s, ids, token)[k] == Note(s, ids[k], token)
    decreases |ids|
  {
    if ids != [] { NotesAre(s, ids[..|ids| - 1], token); }
  }

  lemma {:induction false} RetriesAre(s: State, ids: seq<nat>, token: string)
    ensures |Retries(s, ids, token)| == if token == "" then 0 else |ids|
    ensures token != "" ==> forall k | 0 <= k < |ids| :: Retries(s, ids, token)[k] == Sent(ids[k], Header(s, token))
    decreases |ids|
  {
    if ids != [] { RetriesAre(s, ids[..|ids| - 1], token); }
  }

  lemma {:induction false} TimesJoin(a: seq<Sent>, b: seq<Sent>, id: nat)
    ensures Times(a + b, id) == Times(a, id) + Times(b, id)
    decreases |b|
  {
    if b == [] {
      assert a + b == a;
    } else {
      TimesJoin(a, b[..|b| - 1], id);
      assert (a + b)[..|a + b| - 1] == a + b[..|b| - 1];
    }
  }

  lemma {:induction false} TimesEach(ids: seq<nat>, wire: seq<Sent>, id: nat)
    requires |wire| == |ids| && Distinct(ids) && forall k | 0 <= k < |ids| :: wire[k].id == ids[k]
    ensures Times(wire, id) == if id in ids then 1 else 0
    decreases |ids|
  {
    if ids != [] {
      var front, last := ids[..|ids| - 1], ids[|ids| - 1];
      TimesEach(front, wire[..|ids| - 1], id);
      assert last !in front && ids == front + [last];
    }
  }

  lemma {:induction false} WakeAllTimes(s: State, ids: seq<nat>, token: string, id: nat)
    requires (forall k | 0 <= k < |ids| :: ids[k] in s.requests) && Distinct(ids)
    ensures Times(WakeAll(s, ids, token).wire, id) ==
              Times(s.wire, id) + if token != "" && id in ids then 1 else 0
  {
    hide WakeAll, Retries;
    WakeAllClosed(s, ids, token);
    RetriesAre(s, ids, token);
    TimesJoin(s.wire, Retries(s, ids, token), id);
    if token != "" { TimesEach(ids, Retries(s, ids, token), id); }
  }

  lemma {:induction false} TimesSnoc(wire: seq<Sent>, m: Sent, id: nat)
    ensures Times(wire + [m], id) == Times(wire, id) + if m.id == id then 1 else 0
  {
    assert (wire + [m])[..|wire|] == wire;
  }

  // ----- Every step keeps the invariant

  lemma {:induction false} IssueInv(s: State, id: nat, login: bool)
    requires Inv(s) && id !in s.requests
    ensures Inv(Step(s, Issue(id, login)))
  {
    hide Times;
    forall x { TimesSnoc(s.wire, Sent(id, Header(s, "")), x); }
  }

  lemma {:induction false} RespondInv(s: State, id: nat, answer: Answer)
    requires Inv(s) && id in s.requests && s.requests[id].phase.InFlight?
    ensures Inv(Step(s, Respond(id, answer)))
  {
    hide Times;
    var r := s.requests[id];
    assert id !in s.queue && id !in s.leaders;
    if answer.Unauthorized? && !r.retry && s.refresh != "" && !r.login {
      if s.busy { JoinQueueInv(s, id); } else { BecomeLeaderInv(s, id); }
    } else {
      SettleInv(s, id, answer.Success?);
    }
  }

  lemma {:induction false} JoinQueueInv(s: State, id: nat)
    requires Inv(s) && id in s.requests && s.requests[id].phase.InFlight? && !s.requests[id].retry && s.busy
    ensures Inv(s.(queue := s.queue + [id], requests := s.requests[id := s.requests[id].(phase := Waiting(s.epoch))]))
  {
    hide Times;
    assert id !in s.queue && id !in s.leaders;
  }

  lemma {:induction false} BecomeLeaderInv(s: State, id: nat)
    requires Inv(s) && id in s.requests && s.requests[id].phase.InFlight? && !s.requests[id].retry && !s.busy
    ensures Inv(s.(busy := true, leaders := s.leaders + [id], epoch := s.epoch + 1,
                   requests := s.requests[id := s.requests[id].(retry := true, phase := Refreshing)]))
  {
    hide Times;
    assert s.leaders == [] && s.queue == [] && s.leaders + [id] == [id];
  }

  lemma {:induction false} SettleInv(s: State, id: nat, ok: bool)
    requires Inv(s) && id in s.requests && s.requests[id].phase.InFlight?
    ensures Inv(Settle(s, id, ok))
  {
    hide Times;
    assert id !in s.queue && id !in s.leaders;
  }

  lemma {:induction false} RefreshEndsTimes(s: State, leader: nat, grant: Grant, x: nat)
    requires Inv(s) && leader in s.leaders
    ensures Times(Step(s, RefreshEnds(leader, grant)).wire, x) == Times(s.wire, x)
              + (if grant.Granted? && grant.access != "" && x in s.queue then 1 else 0)
              + (if grant.Granted? && x == leader then 1 else 0)
  {
    hide Times, WakeAll, WireRight, ReleasesRight;
    var token := if grant.Granted? then grant.access else "";
    var base := if grant.Granted? then s.(access := grant.access, refresh := grant.refresh) else s;
    var w := WakeAll(base, s.queue, token);
    WakeAllTimes(base, s.queue, token, x);
    if grant.Granted? { TimesSnoc(w.wire, Sent(leader, Header(w, token)), x); }
  }

  lemma {:induction false} RefreshEndsInv(s: State, leader: nat, grant: Grant)
    requires Inv(s) && leader in s.leaders
    ensures Inv(Step(s, RefreshEnds(leader, grant)))
  {
    RefreshEndsFlight(s, leader, grant);
    RefreshEndsWire(s, leader, grant);
    RefreshEndsNotes(s, leader, grant);
  }

  lemma {:induction false} RefreshEndsFlight(s: State, leader: nat, grant: Grant)
    requires Inv(s) && leader in s.leaders
    ensures SingleFlight(Step(s, RefreshEnds(leader, grant))) && WaitersRight(Step(s, RefreshEnds(leader, grant)))
  {
    hide Times, WakeAll, Step, WireRight, ReleasesRight;
    RefreshEndsRequests(s, leader, grant);
    RefreshEndsReleases(s, leader, grant);
    assert s.leaders == [leader] && leader !in s.queue;
  }

  lemma {:induction false} RefreshEndsNotes(s: State, leader: nat, grant: Grant)
    requires Inv(s) && leader in s.leaders
    ensures ReleasesRight(Step(s, RefreshEnds(leader, grant)))
  {
    hide Times, WakeAll, Step, WireRight;
    var t := Step(s, RefreshEnds(leader, grant));
    RefreshEndsRequests(s, leader, grant);
    RefreshEndsReleases(s, leader, grant);
    forall k | 0 <= k < |s.released|
      ensures var id := s.released[k].id;
              id in s.requests && id !in s.queue && t.requests[id] == s.requests[id]
    {
      assert s.leaders == [leader];
    }
    hide SingleFlight;
    forall j, k | 0 <= j < k < |t.released| ensures t.released[j].id != t.released[k].id {}
  }

  lemma {:induction false} RefreshEndsRequests(s: State, leader: nat, grant: Grant)
    requires Inv(s) && leader in s.leaders
    ensures var t := Step(s, RefreshEnds(leader, grant));
            var token := if grant.Granted? then grant.access else "";
            && t.requests.Keys == s.requests.Keys
            && forall id | id in s.requests ::
                 t.requests[id] ==
                   if id in s.queue then Woken(s.requests[id], token)
                   else if id == leader then s.requests[id].(phase := if grant.Granted? then InFlight else Settled(false))
                   else s.requests[id]
  {
    hide Times, WakeAll, WireRight, ReleasesRight;
    var token := if grant.Granted? then grant.access else "";
    var base := if grant.Granted? then s.(access := grant.access, refresh := grant.refresh) else s;
    WakeAllClosed(base, s.queue, token);
    assert s.leaders == [leader] && leader !in s.queue;
  }

  lemma {:induction false} RefreshEndsWire(s: State, leader: nat, grant: Grant)
    requires Inv(s) && leader in s.leaders
    ensures WireRight(Step(s, RefreshEnds(leader, grant)))
  {
    hide Times, WakeAll, Step, ReleasesRight;
    RefreshEndsRequests(s, leader, grant);
    forall x { RefreshEndsTimes(s, leader, grant, x); }
    assert s.leaders == [leader] && leader !in s.queue;
  }

  /** The end of a refresh releases all waiters, in order, each once, with the outcome of
      that refresh; the leader is retried or rejected; nobody else is touched. */
  lemma {:induction false} RefreshEndsReleases(s: State, leader: nat, grant: Grant)
    requires Inv(s) && leader in s.leaders
    ensures var t := Step(s, RefreshEnds(leader, grant));
            var retried := grant.Granted? && grant.access != "";
            && t.queue == [] && !t.busy && t.leaders == []
            && t.released == s.released
                 + seq(|s.queue|, k requires 0 <= k < |s.queue| => Release(s.queue[k], s.epoch, retried))
            && (forall id | id in s.queue :: t.requests[id].phase == if retried then InFlight else Settled(false))
            && (retried ==>
                  t.access == grant.access && forall k | |s.wire| <= k < |t.wire| :: t.wire[k].token == grant.access)
            && (t.access, t.refresh) == (if grant.Granted? then (grant.access, grant.refresh) else ("", ""))
            && t.requests[leader].phase == (if grant.Granted? then InFlight else Settled(false))
            && (forall id | id in s.requests && id !in s.queue && id != leader :: t.requests[id] == s.requests[id])
  {
    hide Times, WakeAll, Notes, Retries;
    var token := if grant.Granted? then grant.access else "";
    var base := if grant.Granted? then s.(access := grant.access, refresh := grant.refresh) else s;
    WakeAllClosed(base, s.queue, token);
    NotesAre(base, s.queue, token);
    RetriesAre(base, s.queue, token);
    assert s.leaders == [leader] && leader !in s.queue;
    assert Notes(base, s.queue, token)
        == seq(|s.queue|, k requires 0 <= k < |s.queue| => Release(s.queue[k], s.epoch, token != ""));
    var t, w := Step(s, RefreshEnds(leader, grant)), WakeAll(base, s.queue, token);
    if token != "" {
      assert t.wire == s.wire + (Retries(base, s.queue, token) + [Sent(leader, Header(w, token))]);
    }
  }

  lemma {:induction false} StepInv(s: State, e: Event)
    requires Inv(s) && Enabled(s, e)
    ensures Inv(Step(s, e))
  {
    hide Times;
    match e
    case Issue(id, login) => IssueInv(s, id, login);
    case Respond(id, answer) => RespondInv(s, id, answer);
    case RefreshEnds(leader, grant) => RefreshEndsInv(s, leader, grant);
    case TokensChange(_, _) =>
  }

  // ----- Whole runs

  ghost predicate Next(s: State, e: Event, t: State) {
    Enabled(s, e) && Queued(s) && LeadersKnown(s) && t == Step(s, e)
  }

  /** The states passed through from the start when the events happen one by one. */
  ghost predicate IsRun(states: seq<State>, events: seq<Event>) {
    && |states| == |events| + 1 && states[0] == START
    && forall k | 0 <= k < |events| :: Next(states[k], events[k], states[k + 1])
  }

  lemma {:induction false} RunInv(states: seq<State>, events: seq<Event>, k: nat)
    requires IsRun(states, events) && k < |states|
    ensures Inv(states[k])
  {
    hide Step, Inv, START;
    if k == 0 {
      StartInv();
    } else {
      RunInv(states, events, k - 1);
      assert Next(states[k - 1], events[k - 1], states[k - 1 + 1]);
      StepInv(states[k - 1], events[k - 1]);
    }
  }

  /** In every interleaving at most one refresh is in flight, nobody waits when none is,
      and no request goes on the wire more than twice. */
  lemma {:induction false} RunSafe(states: seq<State>, events: seq<Event>, k: nat)
    requires IsRun(states, events) && k < |states|
    ensures |states[k].leaders| <= 1
    ensures states[k].leaders == [] ==> states[k].queue == []
    ensures forall id :: Times(states[k].wire, id) <= 2
  {
    hide Step, Times;
    RunInv(states, events, k);
  }

  /** One step in the life of a waiter: it goes on waiting for the same refresh, or that
      refresh has just ended and released it with its own outcome. */
  lemma {:induction false} WaiterStep(s: State, e: Event, id: nat)
    requires Inv(s) && Enabled(s, e) && id in s.requests && s.requests[id].phase.Waiting?
    ensures var t := Step(s, e);
            && id in t.requests && s.requests[id].phase == Waiting(s.epoch)
            && (t.requests[id].phase == s.requests[id].phase
                || (e.RefreshEnds?
                    && Release(id, s.epoch, e.grant.Granted? && e.grant.access != "") in t.released))
  {
    hide Times, WireRight, WakeAll, Retries, Notes;
    assert id in s.queue;
    if e.RefreshEnds? {
      RefreshEndsReleases(s, e.leader, e.grant);
      RefreshEndsRequests(s, e.leader, e.grant);
      var k :| 0 <= k < |s.queue| && s.queue[k] == id;
      var t := Step(s, e);
      hide Step, Inv;
      assert t.released[|s.released| + k] == Release(id, s.epoch, e.grant.Granted? && e.grant.access != "");
    } else if e.Respond? {
      assert e.id != id;
    }
  }

  lemma {:induction false} ReleasedStays(s: State, e: Event)
    requires Inv(s) && Enabled(s, e)
    ensures s.released <= Step(s, e).released
  {
    hide Times, WireRight, WakeAll;
    if e.RefreshEnds? { RefreshEndsReleases(s, e.leader, e.grant); }
  }

  /** No wake-up is lost or doubled: a request that waits behind refresh number p either
      still waits, with that refresh in flight, or was released exactly once, by it. */
  lemma {:induction false} WaiterFate(states: seq<State>, events: seq<Event>, j: nat, k: nat, id: nat, p: nat)
    requires IsRun(states, events) && j <= k < |states|
    requires id in states[j].requests && states[j].requests[id].phase == Waiting(p)
    ensures id in states[k].requests
    ensures || (states[k].requests[id].phase == Waiting(p) && states[k].epoch == p && |states[k].leaders| == 1)
            || (exists r :: r in states[k].released && r.id == id && r.epoch == p
                  && forall q | q in states[k].released && q.id == id :: q == r)
    decreases k
  {
    hide Step, Times, WireRight;
    RunInv(states, events, k);
    if j < k {
      var s, e := states[k - 1], events[k - 1];
      assert Next(s, e, states[k - 1 + 1]);
      RunInv(states, events, k - 1);
      WaiterFate(states, events, j, k - 1, id, p);
      ReleasedStays(s, e);
      if s.requests[id].phase == Waiting(p) {
        WaiterStep(s, e, id);
      } else {
        RequestsStay(s, e, id);
      }
    }
  }

  lemma {:induction false} RequestsStay(s: State, e: Event, id: nat)
    requires Inv(s) && Enabled(s, e) && id in s.requests
    ensures id in Step(s, e).requests
  {
    hide Times, WireRight, WakeAll;
    if e.RefreshEnds? { RefreshEndsRequests(s, e.leader, e.grant); }
  }

  // ----- Progress

  function Rank(r: Request): nat {
    match r.phase
    case InFlight => if r.retry then 1 else 3
    case Waiting(_) => 2
    case Refreshing => 2
    case Settled(_) => 0
  }

  /** What all requests together still have before them. */
  ghost function Work(requests: map<nat, Request>): nat {
    if requests == map[] then 0
    else
      var id :| id in requests;
      Rank(requests[id]) + Work(requests - {id})
  }

  lemma {:induction false} WorkWithout(requests: map<nat, Request>, id: nat)
    requires id in requests
    ensures Work(requests) == Rank(requests[id]) + Work(requests - {id})
    decreases |requests|
  {
    var first :| first in requests && Work(requests) == Rank(requests[first]) + Work(requests - {first});
    if first != id {
      WorkWithout(requests - {first}, id);
      WorkWithout(requests - {id}, first);
      assert requests - {first} - {id} == requests - {id} - {first};
    }
  }

  /** If no rank grows and one shrinks, the work shrinks. */
  lemma {:induction false} WorkShrinks(a: map<nat, Request>, b: map<nat, Request>)
    requires a.Keys == b.Keys && forall id | id in a :: Rank(b[id]) <= Rank(a[id])
    ensures Work(b) <= Work(a)
    ensures (exists id :: id in a && Rank(b[id]) < Rank(a[id])) ==> Work(b) < Work(a)
    decreases |a|
  {
    if a == map[] {
      assert b == map[];
    } else {
      var id :| id in a && ((exists x :: x in a && Rank(b[x]) < Rank(a[x])) ==> Rank(b[id]) < Rank(a[id]));
      WorkWithout(a, id);
      WorkWithout(b, id);
      WorkShrinks(a - {id}, b - {id});
    }
  }

  /** Every answer and every end of a refresh reduces the work; only a new request adds to
      it, by three. So a run has at most three such events for each request issued. */
  lemma {:induction false} StepWork(s: State, e: Event)
    requires Inv(s) && Enabled(s, e)
    ensures e.Respond? || e.RefreshEnds? ==> Work(Step(s, e).requests) < Work(s.requests)
    ensures e.Issue? ==> Work(Step(s, e).requests) == Work(s.requests) + 3
    ensures e.TokensChange? ==> Work(Step(s, e).requests) == Work(s.requests)
  {
    hide Times, WakeAll, Work;
    var t := Step(s, e);
    match e
    case Issue(id, _) =>
      WorkWithout(t.requests, id);
      assert t.requests - {id} == s.requests;
    case Respond(id, _) =>
      RespondRank(s, id, e.answer);
      WorkShrinks(s.requests, t.requests);
    case RefreshEnds(leader, grant) =>
      RefreshEndsRequests(s, leader, grant);
      WorkShrinks(s.requests, t.requests);
      assert leader in s.requests && leader !in s.queue;
      assert Rank(t.requests[leader]) < Rank(s.requests[leader]);
    case TokensChange(_, _) =>
  }

  lemma {:induction false} RespondRank(s: State, id: nat, answer: Answer)
    requires Inv(s) && id in s.requests && s.requests[id].phase.InFlight?
    ensures var t := Step(s, Respond(id, answer));
            && t.requests == s.requests[id := t.requests[id]] && t.requests.Keys == s.requests.Keys
            && Rank(t.requests[id]) < Rank(s.requests[id])
  {
  }

  function Count(events: seq<Event>, which: Event -> bool): nat {
    if events == [] then 0
    else Count(events[..|events| - 1], which) + if which(events[|events| - 1]) then 1 else 0
  }

  function IsIssue(): Event -> bool { (e: Event) => e.Issue? }

  function IsAnswer(): Event -> bool { (e: Event) => e.Respond? || e.RefreshEnds? }

  /** A whole run needs at most three answers for each request issued. */
  lemma {:induction false} RunBounded(states: seq<State>, events: seq<Event>)
    requires IsRun(states, events)
    ensures Work(states[|events|].requests) + Count(events, IsAnswer()) <= 3 * Count(events, IsIssue())
    decreases |events|
  {
    hide Step, Inv, Enabled, Work, START;
    if events == [] {
      NoWork();
    } else {
      var n := |events| - 1;
      assert IsRun(states[..n + 1], events[..n]) by {
        assert forall k | 0 <= k < n :: Next(states[k], events[k], states[k + 1]);
      }
      RunBounded(states[..n + 1], events[..n]);
      assert Next(states[n], events[n], states[n + 1]);
      RunInv(states, events, n);
      StepWork(states[n], events[n]);
    }
  }

  lemma NoWork()
    ensures Work(START.requests) == 0
  {
  }

  /** Nothing hangs: when no answer is outstanding and no refresh is in flight, every
      request has been settled. */
  lemma {:induction false} Quiescent(states: seq<State>, events: seq<Event>)
    requires IsRun(states, events)
    requires var s := states[|events|];
             s.leaders == [] && forall id | id in s.requests :: !s.requests[id].phase.InFlight?
    ensures forall id | id in states[|events|].requests :: states[|events|].requests[id].phase.Settled?
  {
    hide Step, Times;
    RunInv(states, events, |events|);
  }

  // ----- The script

  /** The module's variables, the storage and the requests under way, as the callbacks
      change them. */
  class Client {
    var refreshing: bool             // `oe` in the script
    var waiters: seq<nat>            // `Ae`
    var accessToken: string
    var refreshToken: string
    var requests: map<nat, Request>
    /** Bookkeeping of the model, not read by the script: refreshes started so far. */
    var epoch: nat
    ghost var leaders: seq<nat>
    ghost var wire: seq<Sent>
    ghost var released: seq<Release>

    ghost function View(): State
      reads this
    {
      State(refreshing, waiters, accessToken, refreshToken, requests, leaders, epoch, wire, released)
    }

    constructor ()
      ensures View() == START
    {
      refreshing, waiters, accessToken, refreshToken, requests := false, [], "", "", map[];
      leaders, epoch, wire, released := [], 0, [], [];
    }

    method Issue(id: nat, login: bool)
      requires Inv(View()) && id !in requests
      modifies this
      ensures View() == Step(old(View()), Event.Issue(id, login)) && Inv(View())
    {
      StepInv(View(), Event.Issue(id, login));
      SendRequest(id, Request(login, false, InFlight), "");
    }

    /** `n(config)`: through the request interceptor onto the wire. */
    method SendRequest(id: nat, r: Request, own: string)
      modifies this`requests, this`wire
      ensures View() == Send(old(View()), id, r, own)
    {
      wire := wire + [Sent(id, if accessToken != "" then accessToken else own)];
      requests := requests[id := r.(phase := InFlight)];
    }

    method Reject(id: nat)
      requires id in requests
      modifies this`requests
      ensures View() == Settle(old(View()), id, false)
    {
      requests := requests[id := requests[id].(phase := Settled(false))];
    }

    /** The response interceptor for a 401 answer, up to its first wait. */
    method Unauthorized(id: nat)
      requires Inv(View()) && id in requests && requests[id].phase.InFlight?
      modifies this
      ensures View() == Step(old(View()), Respond(id, Answer.Unauthorized)) && Inv(View())
      ensures (accessToken, refreshToken) ==
                if !old(requests)[id].retry && (old(refreshToken) == "" || old(requests)[id].login) then ("", "")
                else old((accessToken, refreshToken))
    {
      StepInv(View(), Respond(id, Answer.Unauthorized));
      var config := requests[id];
      if config.retry {
        Reject(id);
      } else if refreshToken == "" || config.login {
        accessToken, refreshToken := "", "";
        Reject(id);
      } else if refreshing {
        requests := requests[id := config.(phase := Waiting(epoch))];
        waiters := waiters + [id];
      } else {
        requests := requests[id := config.(retry := true, phase := Refreshing)];
        refreshing := true;
        leaders, epoch := leaders + [id], epoch + 1;
      }
    }

    /** The response interceptor for any answer. */
    method Received(id: nat, answer: Answer)
      requires Inv(View()) && id in requests && requests[id].phase.InFlight?
      modifies this
      ensures View() == Step(old(View()), Respond(id, answer)) && Inv(View())
      ensures answer.Success? ==> requests[id].phase == Settled(true)
      ensures answer.OtherError? ==> requests[id].phase == Settled(false)
    {
      match answer {
        case Unauthorized =>
          Unauthorized(id);
        case _ =>
          StepInv(View(), Respond(id, answer));
          requests := requests[id := requests[id].(phase := Settled(answer.Success?))];
      }
    }

    /** A login, a logout or the session store's own refresh. */
    method ChangeTokens(access: string, refresh: string)
      requires Inv(View())
      modifies this`accessToken, this`refreshToken
      ensures View() == Step(old(View()), TokensChange(access, refresh)) && Inv(View())
    {
      StepInv(View(), TokensChange(access, refresh));
      accessToken, refreshToken := access, refresh;
    }

    /** One callback of the waiter list. */
    method WakeWaiter(id: nat, token: string)
      requires id in requests
      modifies this`requests, this`wire, this`released
      ensures View() == Wake(old(View()), id, token)
    {
      released := released + [Note(View(), id, token)];
      if token != "" {
        SendRequest(id, requests[id].(retry := true), token);
      } else {
        Reject(id);
      }
    }

    /** `Ue`: calls the callbacks in the order they came, then empties the list. */
    method WakeWaiters(token: string)
      requires Queued(View())
      modifies this`requests, this`wire, this`released, this`waiters
      ensures View() == WakeAll(old(View()), old(waiters), token).(queue := [])
    {
      hide Wake;
      ghost var s0 := View();
      for k := 0 to |waiters|
        invariant waiters == old(waiters) && View() == WakeAll(s0, waiters[..k], token)
      {
        assert waiters[..k + 1][..k] == waiters[..k];
        WakeWaiter(waiters[k], token);
      }
      assert waiters[..|waiters|] == waiters;
      waiters := [];
    }

    /** The continuation of the leader once its refresh call has ended. */
    method RefreshEnded(leader: nat, grant: Grant)
      requires Inv(View()) && leader in leaders
      modifies this
      ensures View() == Step(old(View()), RefreshEnds(leader, grant)) && Inv(View())
      ensures (accessToken, refreshToken) == match grant case Granted(a, r) => (a, r) case Denied => ("", "")
    {
      StepInv(View(), RefreshEnds(leader, grant));
      hide WakeAll, Without, WaitersRight, WireRight, ReleasesRight, SingleFlight;
      match grant {
        case Granted(access, refresh) =>
          accessToken, refreshToken := access, refresh;
          WakeWaiters(access);
          SendRequest(leader, requests[leader], access);
          refreshing := false;
        case Denied =>
          WakeWaiters("");
          refreshing := false;
          accessToken, refreshToken := "", "";
          Reject(leader);
      }
      leaders := Without(leaders, leader);
    }
  }
}
