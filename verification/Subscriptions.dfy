/** The subscriptions store: which responses may still change it. Fetches, clears, answers
    and their clean-ups interleave in any order. */
module Subscriptions {
  import opened PyText

  const FRESH_MS := 60000

  type Data = seq<string>

  datatype State = State(
    generation: nat,          // the module's counter
    list: Data,
    loaded: bool,
    stamp: Option<int>,       // when the list was last stored
    loading: bool,
    pending: Option<nat>,     // the promise handed to unforced callers
    sent: set<nat>,           // fetches without an answer
    answered: set<nat>,       // fetches whose clean-up has not run
    stored: seq<nat>)         // generations whose answer was stored, oldest first

  datatype Event =
    | Fetch(force: bool, now: int)
    | Answer(fetch: nat, data: Data, now: int)
    | Fail(fetch: nat)
    | Finish(fetch: nat)
    | Clear
    | Invalidate

  const START := State(0, [], false, None, false, None, {}, {}, [])

  predicate Enabled(s: State, e: Event) {
    match e
    case Answer(n, _, _) => n in s.sent
    case Fail(n) => n in s.sent
    case Finish(n) => n in s.answered
    case _ => true
  }

  /** The cached list is recent enough for an unforced caller. */
  predicate Fresh(s: State, now: int) { s.loaded && s.stamp.Some? && now - s.stamp.value < FRESH_MS }

  /** Whether a call goes to the network at all. */
  predicate Issues(s: State, e: Event) { e.Fetch? && (e.force || (!Fresh(s, e.now) && s.pending.None?)) }

  function Step(s: State, e: Event): State {
    match e
    case Fetch(force, now) =>
      if Issues(s, e) then
        var n := s.generation + 1;
        s.(generation := n, loading := true, pending := Some(n), sent := s.sent + {n})
      else s
    case Answer(n, data, now) =>
      var t := s.(sent := s.sent - {n}, answered := s.answered + {n});
      if n == s.generation then t.(list := data, loaded := true, stamp := Some(now), stored := s.stored + [n]) else t
    case Fail(n) => s.(sent := s.sent - {n}, answered := s.answered + {n})
    case Finish(n) =>
      var t := s.(answered := s.answered - {n});
      if s.pending == Some(n) then t.(loading := false, pending := None) else t
    case Clear =>
      s.(generation := s.generation + 1, pending := None, list := [], loaded := false, stamp := None)
    case Invalidate => s.(stamp := None)
  }

  // ----- The invariant

  ghost predicate Inv(s: State) {
    && (forall n | n in s.sent :: n <= s.generation && n !in s.stored && n !in s.answered)
    && (forall n | n in s.answered :: n <= s.generation)
    && (forall n | n in s.stored :: n <= s.generation)
    && (forall i, j | 0 <= i < j < |s.stored| :: s.stored[i] < s.stored[j])
    && (s.pending.Some? ==> s.pending.value == s.generation && (s.generation in s.sent || s.generation in s.answered))
    && (s.loaded ==> s.stored != [])
    && (!s.loaded ==> s.list == [] && s.stamp.None?)
  }

  lemma {:induction false} StepInv(s: State, e: Event)
    requires Inv(s) && Enabled(s, e)
    ensures Inv(Step(s, e))
  {
    var t := Step(s, e);
    if e.Answer? && e.fetch == s.generation {
      assert forall i | 0 <= i < |s.stored| :: s.stored[i] in s.stored && s.stored[i] != e.fetch;
    }
  }

  ghost predicate IsRun(states: seq<State>, events: seq<Event>) {
    && |states| == |events| + 1 && states[0] == START
    && forall k | 0 <= k < |events| :: Enabled(states[k], events[k]) && states[k + 1] == Step(states[k], events[k])
  }

  lemma {:induction false} RunInv(states: seq<State>, events: seq<Event>, k: nat)
    requires IsRun(states, events) && k < |states|
    ensures Inv(states[k])
  {
    hide Step;
    if k > 0 {
      RunInv(states, events, k - 1);
      assert states[k - 1 + 1] == Step(states[k - 1], events[k - 1]);
      StepInv(states[k - 1], events[k - 1]);
    }
  }

  lemma {:induction false} GenerationGrows(states: seq<State>, events: seq<Event>, j: nat, k: nat)
    requires IsRun(states, events) && j <= k < |states|
    ensures states[j].generation <= states[k].generation
    decreases k
  {
    if j < k {
      GenerationGrows(states, events, j, k - 1);
      assert states[k - 1 + 1] == Step(states[k - 1], events[k - 1]);
    }
  }

  /** The events that outdate whatever is in flight: a clear, a forced call, and an unforced one that finds neither a
      fresh list nor a pending fetch. */
  predicate Outdates(s: State, e: Event) {
    match e
    case Clear => true
    case Fetch(force, now) => force || (s.pending.None? && !Fresh(s, now))
    case _ => false
  }

  /** A response is stored exactly when nothing has outdated its fetch: no clear and no
      newer fetch, forced or not, happened between the call and the answer. */
  lemma {:induction false} StoredIffCurrent(states: seq<State>, events: seq<Event>, j: nat, k: nat)
    requires IsRun(states, events) && j < k < |events|
    requires events[j].Fetch? && Outdates(states[j], events[j])
    requires events[k].Answer? && events[k].fetch == states[j + 1].generation
    ensures states[k + 1].stored != states[k].stored <==>
              forall i | j < i < k :: !Outdates(states[i], events[i])
  {
    hide Fresh;
    var n := events[k].fetch;
    assert states[k + 1] == Step(states[k], events[k]);
    assert states[k + 1].stored != states[k].stored <==> n == states[k].generation;
    StillCurrent(states, events, j + 1, k);
  }

  lemma {:induction false} StillCurrent(states: seq<State>, events: seq<Event>, j: nat, k: nat)
    requires IsRun(states, events) && j <= k < |states|
    ensures states[j].generation == states[k].generation <==> forall i | j <= i < k :: !Outdates(states[i], events[i])
    decreases k
  {
    if j < k {
      var s, e := states[k - 1], events[k - 1];
      GenerationGrows(states, events, j, k - 1);
      StillCurrent(states, events, j, k - 1);
      assert states[k - 1 + 1] == Step(s, e);
      assert Step(s, e).generation == s.generation + if Outdates(s, e) then 1 else 0;
      assert (forall i | j <= i < k :: !Outdates(states[i], events[i])) <==>
             !Outdates(s, e) && forall i | j <= i < k - 1 :: !Outdates(states[i], events[i]);
    }
  }

  /** Over a whole run the generations of stored results strictly increase. */
  lemma {:induction false} StoredInOrder(states: seq<State>, events: seq<Event>, k: nat)
    requires IsRun(states, events) && k < |states|
    ensures forall i, j | 0 <= i < j < |states[k].stored| :: states[k].stored[i] < states[k].stored[j]
  {
    RunInv(states, events, k);
  }

  /** The answer at event i is what the store shows at state k. */
  ghost predicate ShownFrom(states: seq<State>, events: seq<Event>, i: nat, k: nat)
    requires |states| == |events| + 1 && i < k < |states|
  {
    && events[i].Answer? && events[i].data == states[k].list
    && states[k].stamp == (if exists m | i < m < k :: events[m].Invalidate? then None else Some(events[i].now))
    && states[i + 1].stored == states[k].stored == states[i].stored + [events[i].fetch]
    && forall m | i < m < k :: !events[m].Clear?
  }

  /** What the store shows: nothing after a clear, and otherwise the data of the last
      stored answer, which no clear has followed. */
  lemma {:induction false} ListIsLastStored(states: seq<State>, events: seq<Event>, k: nat)
    requires IsRun(states, events) && k < |states|
    ensures !states[k].loaded ==> states[k].list == []
    ensures states[k].loaded ==> exists i | 0 <= i < k :: ShownFrom(states, events, i, k)
    decreases k
  {
    RunInv(states, events, k);
    if k > 0 && states[k].loaded {
      var s, e := states[k - 1], events[k - 1];
      assert states[k - 1 + 1] == Step(s, e);
      if e.Answer? && e.fetch == s.generation {
        assert ShownFrom(states, events, k - 1, k);
      } else {
        ListIsLastStored(states, events, k - 1);
        var i :| 0 <= i < k - 1 && ShownFrom(states, events, i, k - 1);
        assert ShownFrom(states, events, i, k);
      }
    }
  }

  /** Unforced callers share: while a fetch is pending none of them starts another, and the
      promise they get is that of the newest fetch. */
  lemma {:induction false} PendingIsShared(states: seq<State>, events: seq<Event>, k: nat, now: int)
    requires IsRun(states, events) && k < |states| && states[k].pending.Some?
    ensures Step(states[k], Fetch(false, now)) == states[k]
    ensures states[k].pending.value == states[k].generation
  {
    RunInv(states, events, k);
  }

  // ----- Which calls start a fetch

  /** The next generation is sent and becomes the pending one; nothing else changes but the loading flag. */
  ghost predicate Starts(s: State, t: State) {
    && t.generation == s.generation + 1 && t.generation !in s.sent && t.sent == s.sent + {t.generation}
    && t.pending == Some(t.generation) && t.loading
    && t.list == s.list && t.loaded == s.loaded && t.stamp == s.stamp
    && t.answered == s.answered && t.stored == s.stored
  }

  /** A forced call always starts a fetch, also over a pending one; an unforced call does exactly when nothing is pending
      and the cached list is not fresh, and changes nothing otherwise. */
  lemma {:induction false} FetchStarts(s: State, now: int)
    requires Inv(s)
    ensures Starts(s, Step(s, Fetch(true, now)))
    ensures s.pending.None? && !Fresh(s, now) ==> Starts(s, Step(s, Fetch(false, now)))
    ensures s.pending.Some? || Fresh(s, now) ==> Step(s, Fetch(false, now)) == s
  {
    assert s.generation + 1 !in s.sent;
  }

  /** Events behind which no earlier fetch may be stored, whatever the state. */
  predicate Cuts(e: Event) { e.Clear? || (e.Fetch? && e.force) }

  /** In every run: what event j sent is not stored when a clear or a forced call comes between it and its answer. */
  lemma {:induction false} CutOff(states: seq<State>, events: seq<Event>, j: nat, i: nat, k: nat)
    requires IsRun(states, events) && j < i < k < |events| && Cuts(events[i])
    requires events[k].Answer? && events[k].fetch in states[j + 1].sent && events[k].fetch !in states[j].sent
    ensures var s, t := states[k], states[k + 1];
            t.list == s.list && t.stored == s.stored && t.loaded == s.loaded && t.stamp == s.stamp
  {
    RunInv(states, events, j);
    RunInv(states, events, j + 1);
    assert states[j + 1] == Step(states[j], events[j]) && states[i + 1] == Step(states[i], events[i]);
    assert states[k + 1] == Step(states[k], events[k]);
    assert events[k].fetch <= states[j + 1].generation;
    GenerationGrows(states, events, j + 1, i);
    assert states[i + 1].generation == states[i].generation + 1;
    GenerationGrows(states, events, i + 1, k);
  }

  // ----- The loading flag

  ghost predicate Started(states: seq<State>, events: seq<Event>, i: nat)
    requires |states| == |events| + 1 && i < |events|
  {
    states[i + 1].sent != states[i].sent && events[i].Fetch?
  }

  /** A clear has dropped the pending fetch, and none has been started since. */
  ghost predicate Dropped(states: seq<State>, events: seq<Event>, i: nat, k: nat)
    requires |states| == |events| + 1 && i < k < |states|
  {
    events[i].Clear? && states[i].pending.Some? && forall m | i < m < k :: !Started(states, events, m)
  }

  lemma {:induction false} StartedStep(s: State, e: Event)
    requires Inv(s) && Enabled(s, e) && e.Fetch?
    ensures Step(s, e).sent != s.sent <==> Issues(s, e)
  {
    assert s.generation + 1 !in s.sent;
  }

  lemma {:induction false} DroppedNone(states: seq<State>, events: seq<Event>, i: nat, k: nat)
    requires IsRun(states, events) && i < k < |states| && Dropped(states, events, i, k)
    ensures states[k].pending.None?
    decreases k
  {
    hide Issues;
    var n := k - 1;
    RunInv(states, events, n);
    assert states[n + 1] == Step(states[n], events[n]);
    if i < n {
      assert Dropped(states, events, i, n) && !Started(states, events, n);
      DroppedNone(states, events, i, n);
      if events[n].Fetch? { StartedStep(states[n], events[n]); }
    }
  }

  /** The store shows that it is loading exactly while a fetch is pending, or from a clear that dropped a pending one on
      until the next fetch is started. */
  lemma {:induction false} LoadingExactly(states: seq<State>, events: seq<Event>, k: nat)
    requires IsRun(states, events) && k < |states|
    ensures states[k].loading <==>
              states[k].pending.Some? || exists i | 0 <= i < k :: Dropped(states, events, i, k)
    decreases k
  {
    hide Issues;
    if k > 0 {
      var n := k - 1;
      var s, e := states[n], events[n];
      RunInv(states, events, n);
      LoadingExactly(states, events, n);
      assert states[n + 1] == Step(s, e);
      if e.Fetch? { StartedStep(s, e); }
      if i :| 0 <= i < n && Dropped(states, events, i, n) && !Started(states, events, n) {
        assert Dropped(states, events, i, k);
      }
      if e.Clear? && s.pending.Some? { assert Dropped(states, events, n, k); }
      if i :| 0 <= i < k && Dropped(states, events, i, k) {
        DroppedNone(states, events, i, k);
        if i < n {
          assert Dropped(states, events, i, n) && !Started(states, events, n);
          DroppedNone(states, events, i, n);
        }
      }
    }
  }

  /** So the flag can stay on although nothing is under way: a clear while a fetch is pending, and then its answer. */
  lemma {:induction false} LoadingStuck() returns (states: seq<State>, events: seq<Event>)
    ensures IsRun(states, events)
    ensures var s := states[|events|]; s.loading && s.pending.None? && s.sent == {} && s.answered == {}
  {
    var s1 := START.(generation := 1, loading := true, pending := Some(1), sent := {1});
    var s2 := s1.(generation := 2, pending := None);
    var s3 := s2.(sent := {}, answered := {1});
    var s4 := s3.(answered := {});
    states := [START, s1, s2, s3, s4];
    events := [Fetch(false, 0), Clear, Answer(1, [], 5), Finish(1)];
    assert {} + {1} == {1} && {1} - {1} == {};
    assert Step(START, events[0]) == s1 && Step(s1, events[1]) == s2;
    assert Step(s2, events[2]) == s3 && Step(s3, events[3]) == s4;
  }

  // ----- The store

  class Store {
    var generation: nat              // `ye` in the script
    var list: Data
    var loaded: bool
    var loading: bool
    var lastFetch: Option<int>
    var pending: Option<nat>
    ghost var sent: set<nat>
    ghost var answered: set<nat>
    ghost var stored: seq<nat>

    ghost function View(): State
      reads this
    {
      State(generation, list, loaded, lastFetch, loading, pending, sent, answered, stored)
    }

    constructor ()
      ensures View() == START
    {
      generation, list, loaded, loading, lastFetch, pending := 0, [], false, false, None, None;
      sent, answered, stored := {}, {}, [];
    }

    /** Returns the promise handed to the caller, or None when the cached list is. */
    method FetchActive(force: bool, now: int) returns (promise: Option<nat>)
      requires Inv(View())
      modifies this
      ensures View() == Step(old(View()), Fetch(force, now)) && Inv(View())
      ensures force ==> promise == Some(generation) && Starts(old(View()), View())
      ensures !force && old(Fresh(View(), now)) ==> promise == None && View() == old(View())
      ensures !force && !old(Fresh(View(), now)) && old(pending).Some? ==> promise == old(pending) && View() == old(View())
      ensures !force && !old(Fresh(View(), now)) && old(pending).None? ==>
                promise == Some(generation) && Starts(old(View()), View())
    {
      StepInv(View(), Fetch(force, now));
      FetchStarts(View(), now);
      if !force && loaded && lastFetch.Some? && now - lastFetch.value < FRESH_MS {
        return None;
      }
      if pending.Some? && !force {
        return pending;
      }
      generation := generation + 1;
      loading := true;
      sent := sent + {generation};
      pending := Some(generation);
      promise := pending;
    }

    method OnAnswer(fetch: nat, data: Data, now: int)
      requires Inv(View()) && fetch in sent
      modifies this
      ensures View() == Step(old(View()), Answer(fetch, data, now)) && Inv(View())
    {
      StepInv(View(), Answer(fetch, data, now));
      sent, answered := sent - {fetch}, answered + {fetch};
      if fetch == generation {
        list, loaded, lastFetch := data, true, Some(now);
        stored := stored + [fetch];
      }
    }

    method OnFinish(fetch: nat)
      requires Inv(View()) && fetch in answered
      modifies this
      ensures View() == Step(old(View()), Finish(fetch)) && Inv(View())
    {
      StepInv(View(), Finish(fetch));
      answered := answered - {fetch};
      if pending == Some(fetch) {
        loading, pending := false, None;
      }
    }

    method ClearAll()
      requires Inv(View())
      modifies this
      ensures View() == Step(old(View()), Clear) && Inv(View())
    {
      StepInv(View(), Clear);
      generation := generation + 1;
      pending, list, loaded, lastFetch := None, [], false, None;
    }

    method InvalidateCache()
      requires Inv(View())
      modifies this
      ensures View() == Step(old(View()), Invalidate) && Inv(View())
    {
      StepInv(View(), Invalidate);
      lastFetch := None;
    }
  }
}
