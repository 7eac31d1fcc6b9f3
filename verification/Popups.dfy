/** The announcement popups: a queue, a set of ids already shown, and delayed timers that
    fetches, dismissals and resets do not cancel. */
module Popups {
  import opened PyText

  datatype Announcement = Announcement(id: int, popup: bool, read: bool)

  datatype State = State(
    list: seq<Announcement>,
    queue: seq<Announcement>,
    current: Option<Announcement>,
    seen: set<int>,
    timers: nat,              // delayed calls that have not fired
    shown: seq<int>)          // ids put on the screen since the last reset, oldest first

  datatype Event =
    | Fetched(answer: seq<Announcement>)
    | Dismiss
    | Timer
    | MarkedRead(id: int)
    | MarkedAll
    | Reset

  const START := State([], [], None, {}, 0, [])

  const LIST_MAX := 20

  predicate Enabled(s: State, e: Event) { e.Timer? ==> s.timers > 0 }

  predicate Queued(queue: seq<Announcement>, id: int) { exists k | 0 <= k < |queue| :: queue[k].id == id }

  /** Unread popups that have not been shown, in list order. */
  function Wanted(list: seq<Announcement>, seen: set<int>): seq<Announcement> {
    if list == [] then []
    else
      var a := list[|list| - 1];
      Wanted(list[..|list| - 1], seen) + if a.popup && !a.read && a.id !in seen then [a] else []
  }

  function Enqueue(queue: seq<Announcement>, more: seq<Announcement>): seq<Announcement> {
    if more == [] then queue
    else
      var q, a := Enqueue(queue, more[..|more| - 1]), more[|more| - 1];
      if Queued(q, a.id) then q else q + [a]
  }

  /** Shows the head of the queue; an empty queue takes the popup off the screen. */
  function ShowNext(s: State): State {
    if s.queue == [] then s.(current := None)
    else
      var a := s.queue[0];
      s.(queue := s.queue[1..], current := Some(a), seen := s.seen + {a.id}, shown := s.shown + [a.id])
  }

  function Sync(s: State): State {
    var wanted := Wanted(s.list, s.seen);
    if wanted == [] then s
    else
      var t := s.(queue := Enqueue(s.queue, wanted));
      if t.current.None? then ShowNext(t) else t
  }

  /** The store keeps the first entries of an answer. */
  function Listing(answer: seq<Announcement>): seq<Announcement> {
    if |answer| <= LIST_MAX then answer else answer[..LIST_MAX]
  }

  /** The first entry with that id is marked. */
  function MarkFirst(list: seq<Announcement>, id: int): seq<Announcement> {
    if list == [] then []
    else if list[0].id == id then [list[0].(read := true)] + list[1..]
    else [list[0]] + MarkFirst(list[1..], id)
  }

  function MarkEvery(list: seq<Announcement>): (r: seq<Announcement>)
    ensures |r| == |list| && forall k | 0 <= k < |r| :: r[k] == list[k].(read := true)
  {
    if list == [] then [] else [list[0].(read := true)] + MarkEvery(list[1..])
  }

  function Step(s: State, e: Event): State {
    match e
    case Fetched(answer) => Sync(s.(list := Listing(answer)))
    case Dismiss =>
      if s.current.None? then s
      else s.(current := None, timers := s.timers + if s.queue != [] then 1 else 0)
    case Timer => ShowNext(s).(timers := if s.timers > 0 then s.timers - 1 else 0)
    case MarkedRead(id) => s.(list := MarkFirst(s.list, id))
    case MarkedAll => s.(list := MarkEvery(s.list))
    case Reset => s.(list := [], queue := [], current := None, seen := {}, shown := [])
  }

  // ----- The invariant

  ghost predicate DistinctIds(queue: seq<Announcement>) {
    forall i, j | 0 <= i < j < |queue| :: queue[i].id != queue[j].id
  }

  ghost predicate Inv(s: State) {
    && DistinctIds(s.queue)
    && (forall k | 0 <= k < |s.queue| :: s.queue[k].id !in s.seen)
    && (forall k | 0 <= k < |s.shown| :: s.shown[k] in s.seen)
    && (forall i, j | 0 <= i < j < |s.shown| :: s.shown[i] != s.shown[j])
    && (s.current.Some? ==> s.shown != [] && s.shown[|s.shown| - 1] == s.current.value.id)
    && (s.queue != [] ==> s.current.Some? || s.timers > 0)
  }

  lemma {:induction false} WantedUnseen(list: seq<Announcement>, seen: set<int>)
    ensures forall k | 0 <= k < |Wanted(list, seen)| :: Wanted(list, seen)[k].id !in seen
    decreases |list|
  {
    if list != [] { WantedUnseen(list[..|list| - 1], seen); }
  }

  lemma {:induction false} EnqueueKeeps(queue: seq<Announcement>, more: seq<Announcement>, seen: set<int>)
    requires DistinctIds(queue) && forall k | 0 <= k < |queue| :: queue[k].id !in seen
    requires forall k | 0 <= k < |more| :: more[k].id !in seen
    ensures var q := Enqueue(queue, more);
            DistinctIds(q) && queue <= q && forall k | 0 <= k < |q| :: q[k].id !in seen
    ensures more != [] ==> Enqueue(queue, more) != []
    decreases |more|
  {
    if more != [] { EnqueueKeeps(queue, more[..|more| - 1], seen); }
  }

  lemma {:induction false} ShowNextInv(s: State)
    requires Inv(s.(current := None, timers := s.timers + 1))
    ensures Inv(ShowNext(s))
  {
  }

  lemma {:induction false} SyncInv(s: State)
    requires Inv(s)
    ensures Inv(Sync(s))
  {
    hide Wanted, Enqueue;
    var wanted := Wanted(s.list, s.seen);
    WantedUnseen(s.list, s.seen);
    EnqueueKeeps(s.queue, wanted, s.seen);
    if wanted != [] {
      var t := s.(queue := Enqueue(s.queue, wanted));
      if t.current.None? { ShowNextInv(t); }
    }
  }

  lemma {:induction false} StepInv(s: State, e: Event)
    requires Inv(s) && Enabled(s, e)
    ensures Inv(Step(s, e))
  {
    hide Sync, ShowNext, MarkFirst, MarkEvery;
    match e
    case Fetched(answer) => SyncInv(s.(list := Listing(answer)));
    case Timer =>
      ShowNextInv(s);
      TimerLeaves(s);
    case _ =>
  }

  /** After a timer either nothing is queued or a popup is on the screen. */
  lemma TimerLeaves(s: State)
    ensures var t := ShowNext(s);
            (t.queue != [] ==> t.current.Some?) && t.timers == s.timers
  {
  }

  ghost predicate IsRun(states: seq<State>, events: seq<Event>) {
    && |states| == |events| + 1 && states[0] == START
    && forall k | 0 <= k < |events| :: Enabled(states[k], events[k]) && states[k + 1] == Step(states[k], events[k])
  }

  lemma {:induction false} RunInv(states: seq<State>, events: seq<Event>, k: nat)
    requires IsRun(states, events) && k < |states|
    ensures Inv(states[k])
  {
    hide Step;
    if k > 0 {
      RunInv(states, events, k - 1);
      assert states[k - 1 + 1] == Step(states[k - 1], events[k - 1]);
      StepInv(states[k - 1], events[k - 1]);
    }
  }

  /** Between resets no announcement is shown twice, none waits that was already shown, and
      none waits twice; and a waiting announcement is never stuck: something is on the
      screen to be dismissed, or a timer is due. */
  lemma {:induction false} ShownOnce(states: seq<State>, events: seq<Event>, k: nat)
    requires IsRun(states, events) && k < |states|
    ensures var s := states[k];
            && (forall i, j | 0 <= i < j < |s.shown| :: s.shown[i] != s.shown[j])
            && DistinctIds(s.queue)
            && (forall i, j | 0 <= i < |s.shown| && 0 <= j < |s.queue| :: s.shown[i] != s.queue[j].id)
            && (s.queue != [] ==> s.current.Some? || s.timers > 0)
  {
    RunInv(states, events, k);
  }

  // ----- How a popup leaves the screen

  /** A popup leaves the screen exactly when it is dismissed, the store is reset, or a timer
      fires while it is shown: timers do not look at the screen. */
  lemma {:induction false} LeavesScreen(s: State, e: Event)
    requires Inv(s) && Enabled(s, e) && s.current.Some?
    ensures Step(s, e).current != s.current <==> e.Dismiss? || e.Reset? || e.Timer?
  {
    hide Wanted, Enqueue, MarkFirst, MarkEvery;
    if e.Timer? && s.queue != [] {
      assert s.shown[|s.shown| - 1] in s.seen && s.queue[0].id !in s.seen;
    }
  }

  /** A fetch that brings up a popup while a timer is due. */
  predicate Overlaps(s: State, e: Event) {
    e.Fetched? && s.timers > 0 && s.current.None? && Wanted(Listing(e.answer), s.seen) != []
  }

  /** A timer is due only while the screen is free, and never two of them. */
  predicate Calm(s: State) { s.timers > 0 ==> s.current.None? && s.timers == 1 }

  lemma {:induction false} StepCalm(s: State, e: Event)
    requires Inv(s) && Enabled(s, e) && Calm(s) && !Overlaps(s, e)
    ensures Calm(Step(s, e))
  {
    hide Wanted, Enqueue, MarkFirst, MarkEvery, Inv;
  }

  lemma {:induction false} OverlapShows(s: State, e: Event)
    requires Inv(s) && Overlaps(s, e)
    ensures Step(s, e).timers > 0 && Step(s, e).current.Some?
  {
    hide Wanted, Enqueue;
    var wanted := Wanted(Listing(e.answer), s.seen);
    WantedUnseen(Listing(e.answer), s.seen);
    EnqueueKeeps(s.queue, wanted, s.seen);
  }

  lemma {:induction false} RunCalm(states: seq<State>, events: seq<Event>, k: nat)
    requires IsRun(states, events) && k < |states|
    requires forall i | 0 <= i < k :: !Overlaps(states[i], events[i])
    ensures Calm(states[k])
  {
    hide Step, Overlaps, Inv, Enabled;
    if k > 0 {
      RunCalm(states, events, k - 1);
      RunInv(states, events, k - 1);
      assert states[k - 1 + 1] == Step(states[k - 1], events[k - 1]) && Enabled(states[k - 1], events[k - 1]);
      StepCalm(states[k - 1], events[k - 1]);
    }
  }

  /** A timer is due while a popup is shown, in some state of a run, exactly when some fetch brings up a popup between a
      dismissal and its timer. */
  lemma {:induction false} TimerMeetsPopup(states: seq<State>, events: seq<Event>)
    requires IsRun(states, events)
    ensures (exists k | 0 <= k < |states| :: states[k].timers > 0 && states[k].current.Some?) <==>
              exists k | 0 <= k < |events| :: Overlaps(states[k], events[k])
  {
    hide Step, Overlaps, Inv, Enabled;
    if k :| 0 <= k < |events| && Overlaps(states[k], events[k]) {
      RunInv(states, events, k);
      OverlapShows(states[k], events[k]);
      assert states[k + 1] == Step(states[k], events[k]);
    } else {
      forall k | 0 <= k < |states| ensures Calm(states[k]) { RunCalm(states, events, k); }
    }
  }

  /** In a run without such a fetch at most one timer is due, no timer fires while a popup is shown, and a popup leaves
      the screen only when it is dismissed or the store is reset. */
  lemma {:induction false} CalmRun(states: seq<State>, events: seq<Event>, k: nat)
    requires IsRun(states, events) && k < |events|
    requires forall i | 0 <= i < |events| :: !Overlaps(states[i], events[i])
    ensures states[k].timers <= 1 && (events[k].Timer? ==> states[k].current.None?)
    ensures states[k].current.Some? && states[k + 1].current != states[k].current ==>
              events[k].Dismiss? || events[k].Reset?
  {
    hide Step, Overlaps, Inv;
    RunCalm(states, events, k);
    RunInv(states, events, k);
    assert states[k + 1] == Step(states[k], events[k]) && Enabled(states[k], events[k]);
    if states[k].current.Some? { LeavesScreen(states[k], events[k]); }
  }

  // ----- What counts as shown, and what a fetch brings

  ghost predicate Appears(s: State, t: State, id: int) {
    t.current.Some? && t.current.value.id == id && t.current != s.current
  }

  /** Event i puts the announcement on the screen. */
  ghost predicate PutsUp(states: seq<State>, events: seq<Event>, i: nat, id: int)
    requires |states| == |events| + 1 && i < |events|
  {
    Appears(states[i], states[i + 1], id)
  }

  /** It was put on the screen, and no reset has come since. */
  ghost predicate ShownSince(states: seq<State>, events: seq<Event>, i: nat, k: nat, id: int)
    requires |states| == |events| + 1 && i < k < |states|
  {
    PutsUp(states, events, i, id) && forall m | i < m < k :: !events[m].Reset?
  }

  lemma {:induction false} SyncShows(s: State, id: int)
    requires Inv(s)
    ensures var t := Sync(s);
            id in t.seen <==> id in s.seen || (t.current.Some? && t.current.value.id == id && t.current != s.current)
  {
    hide Wanted, Enqueue;
    WantedUnseen(s.list, s.seen);
    EnqueueKeeps(s.queue, Wanted(s.list, s.seen), s.seen);
  }

  lemma {:induction false} StepShows(s: State, e: Event, id: int)
    requires Inv(s) && Enabled(s, e)
    ensures var t := Step(s, e);
            if e.Reset? then t.seen == {} && t.queue == [] && t.current.None?
            else id in t.seen <==> id in s.seen || (t.current.Some? && t.current.value.id == id && t.current != s.current)
  {
    hide Sync, MarkFirst, MarkEvery;
    match e
    case Fetched(answer) => SyncShows(s.(list := Listing(answer)), id);
    case Timer =>
      if s.current.Some? { assert s.shown[|s.shown| - 1] in s.seen; }
    case _ =>
  }

  /** In every run an announcement counts as shown exactly when it was put on the screen and no reset has come since: a
      reset lets every one be shown again. */
  lemma {:induction false} SeenExactly(states: seq<State>, events: seq<Event>, k: nat, id: int)
    requires IsRun(states, events) && k < |states|
    ensures id in states[k].seen <==> exists i | 0 <= i < k :: ShownSince(states, events, i, k, id)
    decreases k
  {
    hide Step, Inv, Enabled;
    if k > 0 {
      var n := k - 1;
      var s, e := states[n], events[n];
      RunInv(states, events, n);
      SeenExactly(states, events, n, id);
      assert states[n + 1] == Step(s, e) && Enabled(s, e);
      StepShows(s, e, id);
      if PutsUp(states, events, n, id) { assert ShownSince(states, events, n, k, id); }
      if i :| 0 <= i < n && ShownSince(states, events, i, n, id) && !e.Reset? {
        assert ShownSince(states, events, i, k, id);
      }
      if i :| 0 <= i < k && ShownSince(states, events, i, k, id) {
        if i < n { assert ShownSince(states, events, i, n, id) && !e.Reset?; }
      }
    }
  }

  lemma {:induction false} WantedExactly(list: seq<Announcement>, seen: set<int>, a: Announcement)
    ensures a in Wanted(list, seen) <==> a in list && a.popup && !a.read && a.id !in seen
    decreases |list|
  {
    if list != [] {
      var n := |list| - 1;
      WantedExactly(list[..n], seen, a);
      assert list == list[..n] + [list[n]];
    }
  }

  lemma {:induction false} EnqueueHas(queue: seq<Announcement>, more: seq<Announcement>, id: int)
    ensures Queued(Enqueue(queue, more), id) <==> Queued(queue, id) || Queued(more, id)
    decreases |more|
  {
    if more != [] {
      var n := |more| - 1;
      EnqueueHas(queue, more[..n], id);
      QueuedSnoc(Enqueue(queue, more[..n]), more[n], id);
      QueuedSnoc(more[..n], more[n], id);
      assert more == more[..n] + [more[n]];
    }
  }

  lemma QueuedSnoc(queue: seq<Announcement>, a: Announcement, id: int)
    ensures Queued(queue + [a], id) <==> Queued(queue, id) || a.id == id
  {
    assert (queue + [a])[|queue|] == a;
    if k :| 0 <= k < |queue| && queue[k].id == id { assert (queue + [a])[k].id == id; }
  }

  /** On the screen or waiting. */
  predicate Present(s: State, id: int) { (s.current.Some? && s.current.value.id == id) || Queued(s.queue, id) }

  /** One of the first entries of the answer is an unread popup with that id. */
  ghost predicate Offers(answer: seq<Announcement>, id: int) {
    exists k | 0 <= k < |answer| && k < LIST_MAX :: answer[k].id == id && answer[k].popup && !answer[k].read
  }

  lemma OffersWanted(answer: seq<Announcement>, seen: set<int>, id: int)
    ensures Queued(Wanted(Listing(answer), seen), id) <==> Offers(answer, id) && id !in seen
  {
    hide Wanted;
    var list := Listing(answer);
    var wanted := Wanted(list, seen);
    if Offers(answer, id) && id !in seen {
      var k :| 0 <= k < |answer| && k < LIST_MAX && answer[k].id == id && answer[k].popup && !answer[k].read;
      assert list[k] == answer[k];
      WantedExactly(list, seen, answer[k]);
      var j :| 0 <= j < |wanted| && wanted[j] == answer[k];
      assert wanted[j].id == id;
    }
    if j :| 0 <= j < |wanted| && wanted[j].id == id {
      WantedExactly(list, seen, wanted[j]);
      var k :| 0 <= k < |list| && list[k] == wanted[j];
      assert answer[k] == wanted[j];
    }
  }

  /** After a fetch an announcement is on the screen or waits exactly when it did before or the answer offers it as an
      unread popup that has not been shown. */
  lemma {:induction false} FetchBrings(s: State, answer: seq<Announcement>, id: int)
    requires Inv(s)
    ensures Present(Step(s, Fetched(answer)), id) <==> Present(s, id) || (Offers(answer, id) && id !in s.seen)
  {
    hide Wanted, Enqueue, Inv;
    var wanted := Wanted(Listing(answer), s.seen);
    OffersWanted(answer, s.seen, id);
    EnqueueHas(s.queue, wanted, id);
    var queue := Enqueue(s.queue, wanted);
    if wanted != [] && s.current.None? {
      assert queue != [] by { EnqueueHas(s.queue, wanted, wanted[0].id); assert Queued(wanted, wanted[0].id); }
      assert queue == [queue[0]] + queue[1..];
      HeadOrRest(queue, id);
    }
  }

  lemma HeadOrRest(queue: seq<Announcement>, id: int)
    requires queue != []
    ensures Queued(queue, id) <==> queue[0].id == id || Queued(queue[1..], id)
  {
    if k :| 0 <= k < |queue| && queue[k].id == id && k > 0 { assert queue[1..][k - 1].id == id; }
    if k :| 0 <= k < |queue| - 1 && queue[1..][k].id == id { assert queue[k + 1].id == id; }
  }

  // ----- The queue after a fetch, and what comes on the screen

  predicate Offered(a: Announcement, seen: set<int>) { a.popup && !a.read && a.id !in seen }

  /** The k-th entry joins the queue: it is an unread popup not shown before, does not wait yet, and is the first such
      entry with its id. */
  predicate Arrives(queue: seq<Announcement>, list: seq<Announcement>, seen: set<int>, k: nat)
    requires k < |list|
  {
    && Offered(list[k], seen) && !Queued(queue, list[k].id)
    && forall j | 0 <= j < k && list[j].id == list[k].id :: !Offered(list[j], seen)
  }

  ghost function Arrivals(queue: seq<Announcement>, list: seq<Announcement>, seen: set<int>): seq<nat> {
    if list == [] then []
    else
      var n := |list| - 1;
      Arrivals(queue, list[..n], seen) + if Arrives(queue, list, seen, n) then [n] else []
  }

  ghost predicate Upwards(ks: seq<nat>, n: nat) {
    (forall i, j | 0 <= i < j < |ks| :: ks[i] < ks[j]) && forall i | 0 <= i < |ks| :: ks[i] < n
  }

  function At(list: seq<Announcement>, ks: seq<nat>): (r: seq<Announcement>)
    requires forall i | 0 <= i < |ks| :: ks[i] < |list|
    ensures |r| == |ks| && forall i | 0 <= i < |r| :: r[i] == list[ks[i]]
  {
    seq(|ks|, i requires 0 <= i < |ks| => list[ks[i]])
  }

  lemma ArrivesFront(queue: seq<Announcement>, list: seq<Announcement>, seen: set<int>, n: nat, k: nat)
    requires k < n <= |list|
    ensures Arrives(queue, list[..n], seen, k) <==> Arrives(queue, list, seen, k)
  {
    assert forall j | 0 <= j < n :: list[..n][j] == list[j];
  }

  lemma {:induction false} ArrivalsExactly(queue: seq<Announcement>, list: seq<Announcement>, seen: set<int>)
    ensures var ks := Arrivals(queue, list, seen);
            Upwards(ks, |list|) && forall k | 0 <= k < |list| :: k in ks <==> Arrives(queue, list, seen, k)
    decreases |list|
  {
    hide Arrives;
    if list != [] {
      var n := |list| - 1;
      ArrivalsExactly(queue, list[..n], seen);
      forall k | 0 <= k < n ensures Arrives(queue, list[..n], seen, k) <==> Arrives(queue, list, seen, k) {
        ArrivesFront(queue, list, seen, n, k);
      }
    }
  }

  lemma {:induction false} QueueGrows(queue: seq<Announcement>, list: seq<Announcement>, seen: set<int>)
    ensures Upwards(Arrivals(queue, list, seen), |list|)
    ensures Enqueue(queue, Wanted(list, seen)) == queue + At(list, Arrivals(queue, list, seen))
    decreases |list|
  {
    ArrivalsExactly(queue, list, seen);
    hide Wanted, Enqueue, Arrives;
    if list == [] {
      Empty(seen);
      EmptyQueue(queue);
    } else {
      var n, a := |list| - 1, list[|list| - 1];
      var front := list[..n];
      assert front + [a] == list;
      QueueGrows(queue, front, seen);
      WantedSnoc(front, a, seen);
      var ks, wanted := Arrivals(queue, front, seen), Wanted(front, seen);
      AtFront(list, ks, n);
      ArrivalsSnoc(queue, list, seen);
      hide Arrivals, At;
      assert wanted + [] == wanted;
      if Offered(a, seen) {
        EnqueueSnoc(queue, wanted, a);
        EnqueueHas(queue, wanted, a.id);
        WaitsAlready(queue, list, seen);
      }
      AtSnoc(queue, list, ks, n);
    }
  }

  lemma AtSnoc(queue: seq<Announcement>, list: seq<Announcement>, ks: seq<nat>, n: nat)
    requires n < |list| && forall i | 0 <= i < |ks| :: ks[i] < |list|
    ensures queue + At(list, ks + [n]) == queue + At(list, ks) + [list[n]]
  {
    assert At(list, ks + [n]) == At(list, ks) + [list[n]];
  }

  lemma AtFront(list: seq<Announcement>, ks: seq<nat>, n: nat)
    requires n <= |list| && forall i | 0 <= i < |ks| :: ks[i] < n
    ensures At(list[..n], ks) == At(list, ks)
  {
  }

  lemma ArrivalsSnoc(queue: seq<Announcement>, list: seq<Announcement>, seen: set<int>)
    requires list != []
    ensures var n := |list| - 1;
            && Arrivals(queue, list, seen)
                 == Arrivals(queue, list[..n], seen) + (if Arrives(queue, list, seen, n) then [n] else [])
            && (!Arrives(queue, list, seen, n) ==> Arrivals(queue, list, seen) == Arrivals(queue, list[..n], seen))
            && (Arrives(queue, list, seen, n) ==> Offered(list[n], seen))
  {
    var ks := Arrivals(queue, list[..|list| - 1], seen);
    assert ks + [] == ks;
  }

  /** The last entry joins the queue unless one with its id waits or joins before it. */
  lemma WaitsAlready(queue: seq<Announcement>, list: seq<Announcement>, seen: set<int>)
    requires list != [] && Offered(list[|list| - 1], seen)
    ensures var n := |list| - 1;
            Arrives(queue, list, seen, n) <==>
              !Queued(queue, list[n].id) && !Queued(Wanted(list[..n], seen), list[n].id)
  {
    hide Wanted;
    var n := |list| - 1;
    var wanted, id := Wanted(list[..n], seen), list[n].id;
    if j :| 0 <= j < |wanted| && wanted[j].id == id {
      WantedExactly(list[..n], seen, wanted[j]);
      var k :| 0 <= k < n && list[..n][k] == wanted[j];
      assert list[k].id == id && Offered(list[k], seen);
    }
    if j :| 0 <= j < n && list[j].id == id && Offered(list[j], seen) {
      assert list[..n][j] == list[j];
      WantedExactly(list[..n], seen, list[j]);
      var k :| 0 <= k < |wanted| && wanted[k] == list[j];
      assert wanted[k].id == id;
    }
  }

  /** What waits after an event, behind what the event puts on the screen. */
  function Line(s: State, t: State): seq<Announcement> {
    (if t.current.Some? && t.current != s.current then [t.current.value] else []) + t.queue
  }

  /** A fetch puts the new announcements behind those that wait, each once and in the order of the answer. It shows the
      first of the queue exactly when the screen is free and the answer has an unread popup that was not shown. */
  lemma {:induction false} FetchExactly(s: State, answer: seq<Announcement>)
    requires Inv(s)
    ensures var t, list := Step(s, Fetched(answer)), Listing(answer);
            && t.list == list && Upwards(Arrivals(s.queue, list, s.seen), |list|)
            && (forall k | 0 <= k < |list| ::
                  k in Arrivals(s.queue, list, s.seen) <==> Arrives(s.queue, list, s.seen, k))
            && Line(s, t) == s.queue + At(list, Arrivals(s.queue, list, s.seen))
            && (t.current != s.current <==> s.current.None? && exists k | 0 <= k < |list| :: Offered(list[k], s.seen))
            && (s.current.Some? ==> t.current == s.current) && t.timers == s.timers
  {
    var list := Listing(answer);
    ArrivalsExactly(s.queue, list, s.seen);
    QueueGrows(s.queue, list, s.seen);
    AnyWanted(list, s.seen);
    SyncLine(s.(list := list));
    hide Wanted, Enqueue, Arrives, Arrivals, Inv, Upwards, Sync, At, Listing;
  }

  lemma AnyWanted(list: seq<Announcement>, seen: set<int>)
    ensures Wanted(list, seen) != [] <==> exists k | 0 <= k < |list| :: Offered(list[k], seen)
  {
    hide Wanted;
    var wanted := Wanted(list, seen);
    if wanted != [] {
      WantedExactly(list, seen, wanted[0]);
      var k :| 0 <= k < |list| && list[k] == wanted[0];
      assert Offered(list[k], seen);
    }
    if k :| 0 <= k < |list| && Offered(list[k], seen) { WantedExactly(list, seen, list[k]); }
  }

  lemma SyncLine(s: State)
    requires Inv(s)
    ensures var t, wanted := Sync(s), Wanted(s.list, s.seen);
            && t.list == s.list && Line(s, t) == Enqueue(s.queue, wanted) && t.timers == s.timers
            && (t.current != s.current <==> s.current.None? && wanted != [])
            && (s.current.Some? ==> t.current == s.current)
  {
    var wanted := Wanted(s.list, s.seen);
    WantedUnseen(s.list, s.seen);
    EnqueueKeeps(s.queue, wanted, s.seen);
    EmptyQueue(s.queue);
    hide Wanted, Enqueue, Inv;
  }

  /** What the other events put on the screen: a timer the next that waits, all others nothing. */
  lemma {:induction false} ScreenExactly(s: State, e: Event)
    requires Inv(s) && Enabled(s, e) && !e.Fetched?
    ensures var t := Step(s, e);
            && (e.Timer? ==> Line(s.(current := None), t) == s.queue && (t.current.Some? <==> s.queue != []))
            && (e.Dismiss? || e.Reset? ==> t.current.None?)
            && (e.MarkedRead? || e.MarkedAll? ==> t.current == s.current)
            && (!e.Timer? ==> t.queue == if e.Reset? then [] else s.queue)
  {
    hide MarkFirst, MarkEvery;
  }

  ghost function Fired(events: seq<Event>, k: nat): set<nat>
    requires k <= |events|
  {
    set i: nat | i < k && events[i].Timer?
  }

  /** Dismissals behind which something waits. */
  ghost function Started(states: seq<State>, events: seq<Event>, k: nat): set<nat>
    requires k <= |events| < |states|
  {
    set i: nat | i < k && events[i].Dismiss? && states[i].current.Some? && states[i].queue != []
  }

  /** In every run as many timers are due as dismissals left something waiting, less those that have fired. */
  lemma {:induction false} TimersExactly(states: seq<State>, events: seq<Event>, k: nat)
    requires IsRun(states, events) && k <= |events|
    ensures states[k].timers + |Fired(events, k)| == |Started(states, events, k)|
  {
    hide Step, Inv, Enabled, Fired, Started;
    if k == 0 {
      NoTimers(states, events);
    } else {
      var n := k - 1;
      var s, e := states[n], events[n];
      TimersExactly(states, events, n);
      assert states[n + 1] == Step(s, e) && Enabled(s, e);
      TimersStep(s, e);
      FiredNext(events, n);
      StartedNext(states, events, n);
    }
  }

  lemma NoTimers(states: seq<State>, events: seq<Event>)
    requires |events| < |states|
    ensures Fired(events, 0) == {} && Started(states, events, 0) == {}
  {
  }

  lemma FiredNext(events: seq<Event>, n: nat)
    requires n < |events|
    ensures |Fired(events, n + 1)| == |Fired(events, n)| + if events[n].Timer? then 1 else 0
  {
    var before, more := Fired(events, n), if events[n].Timer? then {n} else {};
    assert Fired(events, n + 1) == before + more && n !in before;
  }

  lemma StartedNext(states: seq<State>, events: seq<Event>, n: nat)
    requires n < |events| < |states|
    ensures |Started(states, events, n + 1)| == |Started(states, events, n)| +
              if events[n].Dismiss? && states[n].current.Some? && states[n].queue != [] then 1 else 0
  {
    var before := Started(states, events, n);
    var more := if events[n].Dismiss? && states[n].current.Some? && states[n].queue != [] then {n} else {};
    assert Started(states, events, n + 1) == before + more && n !in before;
  }

  lemma TimersStep(s: State, e: Event)
    requires Enabled(s, e)
    ensures Step(s, e).timers + (if e.Timer? then 1 else 0)
         == s.timers + if e.Dismiss? && s.current.Some? && s.queue != [] then 1 else 0
  {
    hide MarkFirst, MarkEvery, Wanted, Enqueue;
  }

  // ----- First come, first shown

  /** `a` waits ahead of `b`. */
  ghost predicate Ahead(queue: seq<Announcement>, a: int, b: int) {
    exists i, j | 0 <= i < j < |queue| :: queue[i].id == a && queue[j].id == b
  }

  lemma {:induction false} NextAhead(s: State, a: int, b: int)
    requires DistinctIds(s.queue) && Ahead(s.queue, a, b)
    ensures var t := ShowNext(s);
            && t.current.Some? && t.current.value.id != b
            && (t.current.value.id == a || Ahead(t.queue, a, b))
  {
    var i, j :| 0 <= i < j < |s.queue| && s.queue[i].id == a && s.queue[j].id == b;
    if i > 0 { assert s.queue[1..][i - 1].id == a && s.queue[1..][j - 1].id == b; }
  }

  lemma {:induction false} StepAhead(s: State, e: Event, a: int, b: int)
    requires Inv(s) && Enabled(s, e) && !e.Reset? && Ahead(s.queue, a, b)
    ensures var t := Step(s, e);
            !Appears(s, t, b) && (Appears(s, t, a) || Ahead(t.queue, a, b))
  {
    hide Wanted, Enqueue, MarkFirst, MarkEvery;
    var i, j :| 0 <= i < j < |s.queue| && s.queue[i].id == a && s.queue[j].id == b;
    assert s.queue[i].id !in s.seen && (s.current.Some? ==> s.shown[|s.shown| - 1] in s.seen);
    match e
    case Fetched(answer) =>
      var list := Listing(answer);
      var wanted := Wanted(list, s.seen);
      WantedUnseen(list, s.seen);
      EnqueueKeeps(s.queue, wanted, s.seen);
      var t := s.(list := list, queue := Enqueue(s.queue, wanted));
      assert t.queue[i] == s.queue[i] && t.queue[j] == s.queue[j];
      assert Ahead(t.queue, a, b);
      if wanted != [] && t.current.None? { NextAhead(t, a, b); }
    case Timer => NextAhead(s, a, b);
    case _ =>
  }

  /** In every run announcements are shown in the order in which they wait: what waits behind another is not shown before
      it, unless a reset comes first. */
  lemma {:induction false} ShownInOrder(states: seq<State>, events: seq<Event>, k: nat, m: nat, a: int, b: int)
    requires IsRun(states, events) && k < m < |states| && Ahead(states[k].queue, a, b)
    requires forall n | k <= n < m :: !events[n].Reset?
    ensures (exists n | k <= n < m :: PutsUp(states, events, n, a)) || Ahead(states[m].queue, a, b)
    ensures PutsUp(states, events, m - 1, b) ==> exists n | k <= n < m - 1 :: PutsUp(states, events, n, a)
    decreases m
  {
    hide Step, Inv, Enabled, Ahead;
    var n := m - 1;
    RunInv(states, events, n);
    assert states[n + 1] == Step(states[n], events[n]) && Enabled(states[n], events[n]);
    if k < n { ShownInOrder(states, events, k, n, a, b); }
    if Ahead(states[n].queue, a, b) {
      StepAhead(states[n], events[n], a, b);
      assert Appears(states[n], states[m], a) ==> PutsUp(states, events, n, a);
    }
  }

  /** Which entries of the list a read mark changes: the first with that id, or all. */
  lemma {:induction false} MarkExactly(list: seq<Announcement>, id: int)
    ensures |MarkFirst(list, id)| == |list|
    ensures forall k | 0 <= k < |list| ::
              MarkFirst(list, id)[k] ==
                if list[k].id == id && forall j | 0 <= j < k :: list[j].id != id then list[k].(read := true) else list[k]
  {
    var n := FirstWith(list, id);
    MarkFirstAt(list, n, id);
  }

  function FirstWith(list: seq<Announcement>, id: int): (k: nat)
    ensures k <= |list| && (forall j | 0 <= j < k :: list[j].id != id) && (k < |list| ==> list[k].id == id)
  {
    if list == [] || list[0].id == id then 0 else 1 + FirstWith(list[1..], id)
  }

  /** So a popup can vanish although nobody dismissed it: a fetch that arrives between a
      dismissal and its timer shows the next one, and the timer then replaces it. */
  lemma {:induction false} TimerReplacesPopup() returns (states: seq<State>, events: seq<Event>)
    ensures IsRun(states, events)
    ensures |events| == 4 && states[3].current.Some? && events[3].Timer? && states[4].current != states[3].current
    ensures states[3].current.value.id in states[4].seen
  {
    var a, b, c := Announcement(1, true, false), Announcement(2, true, false), Announcement(3, true, false);
    var s1 := State([a, b, c], [b, c], Some(a), {1}, 0, [1]);
    var s2 := s1.(current := None, timers := 1);
    var s3 := s2.(queue := [c], current := Some(b), seen := {1, 2}, shown := [1, 2]);
    var s4 := State([a, b, c], [], Some(c), {1, 2, 3}, 0, [1, 2, 3]);
    FirstSync(a, b, c);
    SecondSync(a, b, c);
    states := [START, s1, s2, s3, s4];
    events := [Fetched([a, b, c]), Dismiss, Fetched([a, b, c]), Timer];
    assert Step(s3, Timer) == s4;
  }

  lemma {:induction false} MarkFirstAt(list: seq<Announcement>, k: nat, id: int)
    requires k <= |list| && (forall j | 0 <= j < k :: list[j].id != id) && (k < |list| ==> list[k].id == id)
    ensures MarkFirst(list, id) == if k < |list| then list[k := list[k].(read := true)] else list
  {
    if 0 < k { MarkFirstAt(list[1..], k - 1, id); }
  }

  lemma WantedSnoc(list: seq<Announcement>, a: Announcement, seen: set<int>)
    ensures Wanted(list + [a], seen) == Wanted(list, seen) + if a.popup && !a.read && a.id !in seen then [a] else []
  {
    assert (list + [a])[..|list|] == list;
  }

  lemma EnqueueSnoc(queue: seq<Announcement>, more: seq<Announcement>, a: Announcement)
    ensures var q := Enqueue(queue, more);
            Enqueue(queue, more + [a]) == if Queued(q, a.id) then q else q + [a]
  {
    assert (more + [a])[..|more|] == more;
  }

  lemma FirstSync(a: Announcement, b: Announcement, c: Announcement)
    requires a == Announcement(1, true, false) && b == Announcement(2, true, false) && c == Announcement(3, true, false)
    ensures Step(START, Fetched([a, b, c])) == State([a, b, c], [b, c], Some(a), {1}, 0, [1])
  {
    hide Enqueue, Wanted, MarkFirst, MarkEvery;
    assert Listing([a, b, c]) == [a, b, c];
    FirstWanted(a, b, c);
    FirstQueue(a, b, c);
    assert [a, b, c][1..] == [b, c] && {} + {1} == {1} && [] + [1] == [1];
  }

  lemma FirstWanted(a: Announcement, b: Announcement, c: Announcement)
    requires a == Announcement(1, true, false) && b == Announcement(2, true, false) && c == Announcement(3, true, false)
    ensures Wanted([a, b, c], {}) == [a, b, c]
  {
    hide Wanted;
    assert [] + [a] == [a] && [a] + [b] == [a, b] && [a, b] + [c] == [a, b, c];
    Empty({});
    WantedSnoc([], a, {});
    WantedSnoc([a], b, {});
    WantedSnoc([a, b], c, {});
  }

  lemma FirstQueue(a: Announcement, b: Announcement, c: Announcement)
    requires a == Announcement(1, true, false) && b == Announcement(2, true, false) && c == Announcement(3, true, false)
    ensures Enqueue([], [a, b, c]) == [a, b, c]
  {
    hide Enqueue;
    assert [] + [a] == [a] && [a] + [b] == [a, b] && [a, b] + [c] == [a, b, c];
    Empty({});
    EnqueueSnoc([], [], a);
    EnqueueSnoc([], [a], b);
    EnqueueSnoc([], [a, b], c);
  }

  lemma SecondSync(a: Announcement, b: Announcement, c: Announcement)
    requires a == Announcement(1, true, false) && b == Announcement(2, true, false) && c == Announcement(3, true, false)
    ensures Step(State([a, b, c], [b, c], None, {1}, 1, [1]), Fetched([a, b, c]))
         == State([a, b, c], [c], Some(b), {1, 2}, 1, [1, 2])
  {
    hide Enqueue, Wanted, MarkFirst, MarkEvery;
    SecondWanted(a, b, c);
    assert [] + [b] == [b] && [b] + [c] == [b, c];
    EmptyQueue([b, c]);
    EnqueueSnoc([b, c], [], b);
    EnqueueSnoc([b, c], [b], c);
    assert [b, c][0].id == 2 && [b, c][1].id == 3 && [b, c][1..] == [c];
  }

  lemma SecondWanted(a: Announcement, b: Announcement, c: Announcement)
    requires a == Announcement(1, true, false) && b == Announcement(2, true, false) && c == Announcement(3, true, false)
    ensures Wanted([a, b, c], {1}) == [b, c]
  {
    hide Wanted;
    assert [] + [a] == [a] && [a] + [b] == [a, b] && [a, b] + [c] == [a, b, c] && [] + [b] == [b] && [b] + [c] == [b, c];
    Empty({1});
    WantedSnoc([], a, {1});
    WantedSnoc([a], b, {1});
    WantedSnoc([a, b], c, {1});
  }

  lemma Empty(seen: set<int>)
    ensures Wanted([], seen) == [] && Enqueue([], []) == []
  {
  }

  lemma EmptyQueue(queue: seq<Announcement>)
    ensures Enqueue(queue, []) == queue
  {
  }

  // ----- The store

  class Store {
    var list: seq<Announcement>
    var queue: seq<Announcement>
    var current: Option<Announcement>
    var seen: set<int>
    ghost var timers: nat
    ghost var shown: seq<int>

    ghost function View(): State
      reads this
    {
      State(list, queue, current, seen, timers, shown)
    }

    constructor ()
      ensures View() == START
    {
      list, queue, current, seen, timers, shown := [], [], None, {}, 0, [];
    }

    method Next()
      modifies this`queue, this`current, this`seen, this`shown
      ensures View() == ShowNext(old(View()))
    {
      if |queue| == 0 {
        current := None;
        return;
      }
      var a := queue[0];
      queue := queue[1..];
      current := Some(a);
      seen := seen + {a.id};
      shown := shown + [a.id];
    }

    method OnFetched(answer: seq<Announcement>)
      requires Inv(View())
      modifies this
      ensures View() == Step(old(View()), Fetched(answer)) && Inv(View())
    {
      StepInv(View(), Fetched(answer));
      list := Listing(answer);
      SyncQueue();
    }

    method SyncQueue()
      modifies this`queue, this`current, this`seen, this`shown
      ensures View() == Sync(old(View()))
    {
      hide Enqueue, Wanted;
      var wanted := Filter();
      if |wanted| == 0 {
        return;
      }
      EnqueueAll(wanted);
      if current.None? { Next(); }
    }

    method EnqueueAll(wanted: seq<Announcement>)
      modifies this`queue
      ensures queue == Enqueue(old(queue), wanted)
    {
      hide Enqueue, Wanted;
      EmptyQueue(queue);
      for k := 0 to |wanted|
        invariant queue == Enqueue(old(queue), wanted[..k])
      {
        EnqueueSnoc(old(queue), wanted[..k], wanted[k]);
        assert wanted[..k + 1] == wanted[..k] + [wanted[k]];
        var waiting := IsQueued(wanted[k].id);
        if !waiting { queue := queue + [wanted[k]]; }
      }
      assert wanted[..|wanted|] == wanted;
    }

    method IsQueued(id: int) returns (waiting: bool)
      ensures waiting == Queued(queue, id)
    {
      for j := 0 to |queue|
        invariant forall m | 0 <= m < j :: queue[m].id != id
      {
        if queue[j].id == id { return true; }
      }
      waiting := false;
    }

    method Filter() returns (wanted: seq<Announcement>)
      ensures wanted == Wanted(list, seen)
    {
      wanted := [];
      for k := 0 to |list|
        invariant wanted == Wanted(list[..k], seen)
      {
        WantedSnoc(list[..k], list[k], seen);
        assert list[..k + 1] == list[..k] + [list[k]];
        if list[k].popup && !list[k].read && list[k].id !in seen { wanted := wanted + [list[k]]; }
      }
      assert list[..|list|] == list;
    }

    method DismissPopup()
      requires Inv(View())
      modifies this
      ensures View() == Step(old(View()), Dismiss) && Inv(View())
    {
      StepInv(View(), Dismiss);
      if current.None? {
        return;
      }
      current := None;
      if |queue| > 0 { timers := timers + 1; }
    }

    method OnTimer()
      requires Inv(View()) && timers > 0
      modifies this
      ensures View() == Step(old(View()), Timer) && Inv(View())
    {
      StepInv(View(), Timer);
      Next();
      timers := timers - 1;
    }

    method OnMarkedRead(id: int)
      requires Inv(View())
      modifies this
      ensures View() == Step(old(View()), MarkedRead(id)) && Inv(View())
    {
      hide MarkFirst, Inv;
      StepInv(View(), MarkedRead(id));
      var k := 0;
      while k < |list| && list[k].id != id
        invariant 0 <= k <= |list|
        invariant forall j | 0 <= j < k :: list[j].id != id
      {
        k := k + 1;
      }
      MarkFirstAt(list, k, id);
      if k < |list| { list := list[k := list[k].(read := true)]; }
    }

    method OnMarkedAll()
      requires Inv(View())
      modifies this
      ensures View() == Step(old(View()), MarkedAll) && Inv(View())
    {
      StepInv(View(), MarkedAll);
      var marked := [];
      for k := 0 to |list|
        invariant list == old(list)
        invariant |marked| == k && forall j | 0 <= j < k :: marked[j] == list[j].(read := true)
      {
        marked := marked + [list[k].(read := true)];
      }
      list := marked;
    }

    method ResetAll()
      requires Inv(View())
      modifies this
      ensures View() == Step(old(View()), Reset) && Inv(View())
    {
      StepInv(View(), Reset);
      list, seen, queue, current := [], {}, [], None;
      shown := [];
    }
  }
}
