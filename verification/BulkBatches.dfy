/** How many batches a bulk save writes, and hooks for which its promises fail. */
module BulkBatches {
  import opened PyText
  import opened BulkCreate
  import opened BulkContents

  // ----- How many batches are written, whatever the hooks and the answers are

  /** Hooks that call `next` again neither after a success nor after a failure. */
  ghost predicate CallOnce(b: Bulk) {
    forall i, h | 0 <= i < |b.builders| && 0 <= h < |Hooks(b, i)| ::
      var k := Hooks(b, i)[h];
      k.calls <= 1 || (!k.repeats && !k.retries)
  }

  lemma {:induction false} MutateAtMostOne(b: Bulk, i: nat, h: nat, m: nat, s: State)
    requires CallOnce(b) && Fits(b, s) && i < |b.builders| && h <= |Hooks(b, i)| && m < |s.mutations|
    ensures |Mutate(b, i, h, m, s).state.writes| <= |s.writes| + 1
    decreases |b.builders| - i, |Hooks(b, i)| - h, 2
  {
    hide Inner, Calls;
    if h == |Hooks(b, i)| {
      InnerAtMostOne(b, i, m, s);
    } else {
      var k, s0 := Hooks(b, i)[h], Log(s, Enter(i, h));
      var (t, n) := Passing(k, m, s0);
      CallsAtMostOne(b, i, h, k.calls, n, t);
    }
  }

  lemma {:induction false} InnerAtMostOne(b: Bulk, i: nat, m: nat, s: State)
    requires CallOnce(b) && Fits(b, s) && i < |b.builders| && m < |s.mutations|
    ensures |Inner(b, i, m, s).state.writes| <= |s.writes| + 1
    decreases |b.builders| - i, 0, 1
  {
    hide Mutate, Fault;
    var t := Adopt(i, m, s);
    if i + 1 < |b.builders| { MutateAtMostOne(b, i + 1, 0, t.own[i + 1], t); }
    assert |Next(b, i, t).state.writes| <= |t.writes| + 1;
  }

  lemma {:induction false} CallsAtMostOne(b: Bulk, i: nat, h: nat, c: nat, m: nat, s: State)
    requires CallOnce(b) && Fits(b, s) && i < |b.builders| && h < |Hooks(b, i)| && m < |s.mutations|
    requires c <= Hooks(b, i)[h].calls
    ensures |Calls(b, i, h, c, m, s).state.writes| <= |s.writes| + if c == 0 then 0 else 1
    decreases |b.builders| - i, |Hooks(b, i)| - h, 0, c
  {
    hide Mutate;
    if c > 0 {
      CallsAtMostOne(b, i, h, c - 1, m, s);
      if c == 1 { MutateAtMostOne(b, i, h + 1, m, Calls(b, i, h, 0, m, s).state); }
    }
  }

  /** Whatever the hooks edit, copy, refuse or hide, whatever the checks say and the database answers: without hooks
      that call `next` again, at most one batch is written. */
  lemma {:induction false} AtMostOneWrite(b: Bulk)
    requires CallOnce(b)
    ensures |Save(b).state.writes| <= 1
  {
    hide Mutate;
    if b.builders != [] { MutateAtMostOne(b, 0, 0, Start(b).own[0], Start(b)); }
  }

  // ----- How many batches are written when the database always answers the same

  /** How often a hook calls `next` when its calls all succeed, or all fail. */
  function Times(k: Hook, calls: nat, ok: bool): nat { if calls <= 1 || !Content(k, ok) then calls else 1 }

  /** How often the batch is written when the h-th hook of builder i is called once and the database always takes the
      batch, or never does. */
  function Batches(b: Bulk, i: nat, h: nat, stored: bool): nat
    requires i < |b.builders| && h <= |Hooks(b, i)|
    decreases |b.builders| - i, |Hooks(b, i)| - h
  {
    if h < |Hooks(b, i)| then
      var k := Hooks(b, i)[h];
      if k.refuses then 0 else Times(k, k.calls, Succeeds(b, i, h + 1, stored)) * Batches(b, i, h + 1, stored)
    else if !Sound(b.schema, Contribution(b, i)) then 0
    else if i + 1 < |b.builders| then Batches(b, i + 1, 0, stored)
    else 1
  }

  /** From the h-th hook of builder i on, some hook refuses or never calls `next`, or some check fails. */
  predicate Blocked(b: Bulk, i: nat, h: nat)
    requires i < |b.builders| && h <= |Hooks(b, i)|
    decreases |b.builders| - i, |Hooks(b, i)| - h
  {
    if h < |Hooks(b, i)| then Hooks(b, i)[h].refuses || Hooks(b, i)[h].calls == 0 || Blocked(b, i, h + 1)
    else !Sound(b.schema, Contribution(b, i)) || (i + 1 < |b.builders| && Blocked(b, i + 1, 0))
  }

  /** From the h-th hook of builder i on, every hook that may call `next` again is content with what its inner chain
      makes of the database's answer. */
  predicate Settled(b: Bulk, i: nat, h: nat, stored: bool)
    requires i < |b.builders| && h <= |Hooks(b, i)|
    decreases |b.builders| - i, |Hooks(b, i)| - h
  {
    if h < |Hooks(b, i)| then
      && (Hooks(b, i)[h].calls <= 1 || Content(Hooks(b, i)[h], Succeeds(b, i, h + 1, stored)))
      && Settled(b, i, h + 1, stored)
    else
      i + 1 < |b.builders| ==> Settled(b, i + 1, 0, stored)
  }

  lemma Product(a: nat, b: nat)
    ensures a * b == 0 <==> a == 0 || b == 0
    ensures a * b <= 1 <==> a == 0 || b == 0 || (a == 1 && b == 1)
  {
    if a >= 2 && b >= 1 { assert a * b >= 2 * b; }
    if b >= 2 && a >= 1 { assert a * b >= a * 2; }
  }

  lemma {:induction false} BatchesAtMostOne(b: Bulk, i: nat, h: nat, stored: bool)
    requires i < |b.builders| && h <= |Hooks(b, i)|
    ensures Batches(b, i, h, stored) == 0 <==> Blocked(b, i, h)
    ensures Batches(b, i, h, stored) <= 1 <==> Blocked(b, i, h) || Settled(b, i, h, stored)
    decreases |b.builders| - i, |Hooks(b, i)| - h
  {
    hide Sound, Contribution, Succeeds;
    if h < |Hooks(b, i)| {
      var k := Hooks(b, i)[h];
      BatchesAtMostOne(b, i, h + 1, stored);
      Product(Times(k, k.calls, Succeeds(b, i, h + 1, stored)), Batches(b, i, h + 1, stored));
    } else if i + 1 < |b.builders| {
      BatchesAtMostOne(b, i + 1, 0, stored);
    }
  }

  /** Every builder holds its own mutation, whose fields the hooks ahead of it will make its contribution. */
  ghost predicate OnTrack(b: Bulk, i: nat, h: nat, s: State) {
    && Fits(b, s) && i < |b.builders| <= |s.mutations| && h <= |Hooks(b, i)|
    && (forall j | 0 <= j < |b.builders| :: s.own[j] == j)
    && (forall j | 0 <= j < |b.builders| && j != i ::
          Arriving(Hooks(b, j), 0, s.mutations[j].fields) == Contribution(b, j))
    && Arriving(Hooks(b, i), h, s.mutations[i].fields) == Contribution(b, i)
  }

  /** The database takes each of the next `n` batches, or none of them. */
  ghost predicate Supply(b: Bulk, s: State, n: nat, stored: bool) {
    forall k | |s.writes| <= k < |s.writes| + n :: AnswerAt(b, k).Stored? == stored
  }

  ghost predicate SameBelow(i: nat, s: State, t: State)
    requires i <= |s.mutations| <= |t.mutations|
  {
    forall j | 0 <= j < i :: t.mutations[j].fields == s.mutations[j].fields
  }

  /** A call that writes `n` batches and leaves everything ready for another. */
  ghost predicate Counted(b: Bulk, i: nat, h: nat, n: nat, s: State, t: State) {
    && OnTrack(b, i, h, t) && |t.writes| == |s.writes| + n
    && i <= |s.mutations| <= |t.mutations| && SameBelow(i, s, t)
  }

  lemma {:induction false} MutateCounts(b: Bulk, i: nat, h: nat, s: State, stored: bool)
    requires NoCopies(b) && OnTrack(b, i, h, s) && Supply(b, s, Batches(b, i, h, stored), stored)
    ensures var r := Mutate(b, i, h, i, s);
            && Counted(b, i, h, Batches(b, i, h, stored), s, r.state)
            && r.err.None? == Succeeds(b, i, h, stored)
    decreases |b.builders| - i, |Hooks(b, i)| - h, 2
  {
    hide Inner, Calls, Arriving, Contribution, Edit, Sound, Supply;
    if h == |Hooks(b, i)| {
      InnerCounts(b, i, s, stored);
    } else if Hooks(b, i)[h].refuses {
      assert Mutate(b, i, h, i, s) == Out(Some(HookError(i, h)), Log(Log(s, Enter(i, h)), Exit(i, h)));
    } else {
      var k, ok := Hooks(b, i)[h], Succeeds(b, i, h + 1, stored);
      var (t, _) := Passing(k, i, Log(s, Enter(i, h)));
      EditOnTrack(b, i, h, s);
      SupplySame(b, s, t, Batches(b, i, h, stored), stored);
      CallsCounts(b, i, h, k.calls, t, stored);
      HookCounts(b, i, h, s, t, CallBatches(b, i, h, k.calls, stored), ok);
    }
  }

  lemma SupplySame(b: Bulk, s: State, t: State, n: nat, stored: bool)
    requires Supply(b, s, n, stored) && t.writes == s.writes
    ensures Supply(b, t, n, stored)
  {
  }

  lemma EditOnTrack(b: Bulk, i: nat, h: nat, s: State)
    requires NoCopies(b) && OnTrack(b, i, h, s) && h < |Hooks(b, i)|
    ensures var (t, n) := Passing(Hooks(b, i)[h], i, Log(s, Enter(i, h)));
            n == i && PassedOn(b, i, h, s, t)
  {
    hide Contribution, Edit;
  }

  /** The state in which a hook calls `next`. */
  ghost predicate PassedOn(b: Bulk, i: nat, h: nat, s: State, t: State) {
    && OnTrack(b, i, h + 1, t) && t.writes == s.writes && |t.mutations| == |s.mutations| && i <= |s.mutations|
    && SameBelow(i, s, t)
  }

  /** What a hook makes of its calls, which wrote `n` batches. */
  lemma HookCounts(b: Bulk, i: nat, h: nat, s: State, t: State, n: nat, ok: bool)
    requires NoCopies(b) && OnTrack(b, i, h, s) && h < |Hooks(b, i)| && !Hooks(b, i)[h].refuses
    requires PassedOn(b, i, h, s, t) && (t, i) == Passing(Hooks(b, i)[h], i, Log(s, Enter(i, h)))
    requires var q := Calls(b, i, h, Hooks(b, i)[h].calls, i, t);
             Counted(b, i, h + 1, n, t, q.state) && q.err.None? == (Hooks(b, i)[h].calls == 0 || ok)
    ensures var r, k := Mutate(b, i, h, i, s), Hooks(b, i)[h];
            && Counted(b, i, h, n, s, r.state)
            && r.err.None? == (!k.fails && (k.calls == 0 || k.swallows || ok))
  {
    hide Contribution, Edit, Inner, Calls, Arriving, Passing;
    var k, s0 := Hooks(b, i)[h], Log(s, Enter(i, h));
    var q := Calls(b, i, h, k.calls, i, t);
    var r := Around(b, i, h, i, s0);
    assert r.state == q.state && r.err.None? == (!k.fails && (k.swallows || q.err.None?));
    assert Mutate(b, i, h, i, s) == Out(r.err, Log(q.state, Exit(i, h)));
    var f := q.state.mutations[i].fields;
    ContributionAgain(b, i, h);
    ArrivesFromBefore(Hooks(b, i), h, f, Contribution(b, i));
  }

  /** How many batches `c` calls of `next` write. */
  function CallBatches(b: Bulk, i: nat, h: nat, c: nat, stored: bool): nat
    requires i < |b.builders| && h < |Hooks(b, i)|
  {
    Times(Hooks(b, i)[h], c, Succeeds(b, i, h + 1, stored)) * Batches(b, i, h + 1, stored)
  }

  lemma {:induction false} CallsCounts(b: Bulk, i: nat, h: nat, c: nat, s: State, stored: bool)
    requires i < |b.builders| && h < |Hooks(b, i)| && Fits(b, s) && i < |s.mutations|
    requires NoCopies(b) && OnTrack(b, i, h + 1, s) && Supply(b, s, CallBatches(b, i, h, c, stored), stored)
    ensures var r := Calls(b, i, h, c, i, s);
            && Counted(b, i, h + 1, CallBatches(b, i, h, c, stored), s, r.state)
            && r.err.None? == (c == 0 || Succeeds(b, i, h + 1, stored))
    decreases |b.builders| - i, |Hooks(b, i)| - h, 0, c
  {
    hide Mutate, OnTrack, Batches, Succeeds;
    var k, ok, p := Hooks(b, i)[h], Succeeds(b, i, h + 1, stored), Batches(b, i, h + 1, stored);
    if c > 0 {
      TimesStep(k, c, ok, p);
      CallsCounts(b, i, h, c - 1, s, stored);
      var q := Calls(b, i, h, c - 1, i, s);
      if c == 1 || !Content(k, ok) { MutateCounts(b, i, h + 1, q.state, stored); }
    }
  }

  lemma TimesStep(k: Hook, c: nat, ok: bool, p: nat)
    requires c > 0
    ensures var before, now := Times(k, c - 1, ok) * p, Times(k, c, ok) * p;
            before <= now && now == if c == 1 || !Content(k, ok) then before + p else before
  {
    if !Content(k, ok) { assert c * p == (c - 1) * p + p; }
  }

  lemma {:induction false} InnerCounts(b: Bulk, i: nat, s: State, stored: bool)
    requires NoCopies(b) && i < |b.builders| && OnTrack(b, i, |Hooks(b, i)|, s)
    requires Supply(b, s, Batches(b, i, |Hooks(b, i)|, stored), stored)
    ensures var r, h := Inner(b, i, i, s), |Hooks(b, i)|;
            && Counted(b, i, h, Batches(b, i, h, stored), s, r.state)
            && r.err.None? == Succeeds(b, i, h, stored)
    decreases |b.builders| - i, 0, 1
  {
    hide Mutate, Arriving, Contribution, Looked, Fault, NoCopies, Inner, Next, Finish, Counted;
    var t := Adopt(i, i, s);
    hide OnTrack;
    ArrivedFields(b, i, s);
    UncopiedLooked(b, i);
    if Sound(b.schema, Contribution(b, i)) {
      AdoptOnTrack(b, i, s);
      if i + 1 < |b.builders| { MutateCounts(b, i + 1, 0, t, stored); }
      NextCounts(b, i, s, stored);
    } else {
      RejectCounts(b, i, s);
    }
  }

  lemma AdoptOnTrack(b: Bulk, i: nat, s: State)
    requires i < |b.builders| && OnTrack(b, i, |Hooks(b, i)|, s)
    ensures var t := Adopt(i, i, s);
            OnTrack(b, i, |Hooks(b, i)|, t) && t.writes == s.writes && t.mutations == s.mutations
    ensures i + 1 < |b.builders| ==> OnTrack(b, i + 1, 0, Adopt(i, i, s))
  {
    hide Arriving, Contribution;
    ArrivedFields(b, i, s);
    ContributionAgain(b, i, 0);
  }

  lemma RejectCounts(b: Bulk, i: nat, s: State)
    requires i < |b.builders| && OnTrack(b, i, |Hooks(b, i)|, s) && !Sound(b.schema, s.mutations[i].fields)
    ensures var r := Inner(b, i, i, s);
            Counted(b, i, |Hooks(b, i)|, 0, s, r.state) && r.err.Some?
  {
    hide Arriving, Contribution, Fault;
  }

  /** What is left behind the innermost mutator when the rest of the chain has run. */
  lemma NextCounts(b: Bulk, i: nat, s: State, stored: bool)
    requires i < |b.builders| && OnTrack(b, i, |Hooks(b, i)|, s) && Sound(b.schema, s.mutations[i].fields)
    requires OnTrack(b, i, |Hooks(b, i)|, Adopt(i, i, s))
    requires i + 1 < |b.builders| ==>
               var t := Adopt(i, i, s);
               && OnTrack(b, i + 1, 0, t)
               && var r := Mutate(b, i + 1, 0, i + 1, t);
               && Counted(b, i + 1, 0, Batches(b, i + 1, 0, stored), t, r.state)
               && r.err.None? == Succeeds(b, i + 1, 0, stored)
    requires i + 1 == |b.builders| ==> AnswerAt(b, |s.writes|).Stored? == stored
    ensures var r, n := Inner(b, i, i, s), if i + 1 < |b.builders| then Batches(b, i + 1, 0, stored) else 1;
            && Counted(b, i, |Hooks(b, i)|, n, s, r.state)
            && r.err.None? == RestSucceeds(b, i, stored)
  {
    hide Mutate, Arriving, Contribution, Fault, Batches, Succeeds;
    var q := Next(b, i, Adopt(i, i, s));
    assert q.err.None? ==> Inner(b, i, i, s) == Out(None, Finish(i, i, q.state));
  }

  lemma ArrivedFields(b: Bulk, i: nat, s: State)
    requires i < |b.builders| && OnTrack(b, i, |Hooks(b, i)|, s)
    ensures s.mutations[i].fields == Contribution(b, i)
  {
    hide Contribution;
  }

  /** With hooks that do not copy, and a database that takes each of the batches or none, a save succeeds exactly when
      its chain does, and writes as many batches as the product of all calls. */
  lemma {:induction false} ConstantAnswer(b: Bulk, stored: bool)
    requires NoCopies(b) && b.builders != []
    requires forall k | 0 <= k < Batches(b, 0, 0, stored) :: AnswerAt(b, k).Stored? == stored
    ensures |Save(b).state.writes| == Batches(b, 0, 0, stored)
    ensures Save(b).err.None? <==> Succeeds(b, 0, 0, stored)
  {
    hide Mutate, Batches, Sound, Prepared, Succeeds;
    assert OnTrack(b, 0, 0, Start(b));
    MutateCounts(b, 0, 0, Start(b), stored);
  }

  // ----- When two batches are never written

  function Facing(b: Bulk, answers: seq<Answer>): Bulk { b.(answers := answers) }

  /** What the hooks make of an outcome does not depend on the list of answers. */
  lemma {:induction false} FacingSame(b: Bulk, answers: seq<Answer>, i: nat, h: nat, stored: bool)
    requires i < |b.builders| && h <= |Hooks(b, i)|
    ensures Succeeds(Facing(b, answers), i, h, stored) == Succeeds(b, i, h, stored)
    ensures Batches(Facing(b, answers), i, h, stored) == Batches(b, i, h, stored)
    decreases |b.builders| - i, |Hooks(b, i)| - h
  {
    var b' := Facing(b, answers);
    assert Contribution(b', i) == Contribution(b, i) && Looked(b', i) == Looked(b, i);
    hide Contribution, Looked, Sound;
    if h < |Hooks(b, i)| {
      FacingSame(b, answers, i, h + 1, stored);
    } else if i + 1 < |b.builders| {
      FacingSame(b, answers, i + 1, 0, stored);
    }
  }

  lemma {:induction false} SettledOnce(b: Bulk, answers: seq<Answer>)
    requires NoCopies(b) && b.builders != []
    requires Blocked(b, 0, 0) || (Settled(b, 0, 0, true) && Settled(b, 0, 0, false))
    ensures |Save(Facing(b, answers)).state.writes| <= 1
  {
    hide Save, Batches, Blocked, Settled, Succeeds;
    var b' := Facing(b, answers);
    var stored := AnswerAt(b', 0).Stored?;
    FacingSame(b, answers, 0, 0, stored);
    BatchesAtMostOne(b, 0, 0, stored);
    assert NoCopies(b') by { forall i | 0 <= i < |b.builders| ensures Hooks(b', i) == Hooks(b, i) {} }
    ConstantAnswer(b', stored);
  }

  lemma {:induction false} UnsettledTwice(b: Bulk, stored: bool) returns (answers: seq<Answer>)
    requires NoCopies(b) && b.builders != []
    requires !Blocked(b, 0, 0) && !Settled(b, 0, 0, stored)
    ensures |Save(Facing(b, answers)).state.writes| > 1
  {
    hide Save, Batches, Blocked, Settled, Succeeds;
    var n := Batches(b, 0, 0, stored);
    answers := seq(n, _ => if stored then Stored([]) else Refused(false));
    var b' := Facing(b, answers);
    FacingSame(b, answers, 0, 0, stored);
    BatchesAtMostOne(b, 0, 0, stored);
    assert NoCopies(b') by { forall i | 0 <= i < |b.builders| ensures Hooks(b', i) == Hooks(b, i) {} }
    ConstantAnswer(b', stored);
  }

  /** With hooks that do not copy: whatever the database answers, at most one batch is written, exactly when something
      blocks the chain or every hook that may call `next` again is content with either outcome. */
  lemma {:induction false} NeverTwiceExactly(b: Bulk)
    requires NoCopies(b) && b.builders != []
    ensures (forall answers :: |Save(Facing(b, answers)).state.writes| <= 1)
       <==> Blocked(b, 0, 0) || (Settled(b, 0, 0, true) && Settled(b, 0, 0, false))
  {
    hide Save, Batches, Blocked, Settled, Succeeds;
    if Blocked(b, 0, 0) || (Settled(b, 0, 0, true) && Settled(b, 0, 0, false)) {
      forall answers ensures |Save(Facing(b, answers)).state.writes| <= 1 { SettledOnce(b, answers); }
    } else {
      var answers := UnsettledTwice(b, !Settled(b, 0, 0, true));
      assert |Save(Facing(b, answers)).state.writes| > 1;
    }
  }

  // ----- When every hook passes results on

  /** Hooks that edit in place, call `next` as often as they like and pass its result on. */
  ghost predicate Direct(b: Bulk) {
    forall i, h | 0 <= i < |b.builders| && 0 <= h < |Hooks(b, i)| ::
      !Hooks(b, i)[h].refuses && !Hooks(b, i)[h].copies && !Hooks(b, i)[h].swallows && !Hooks(b, i)[h].fails
  }

  ghost predicate AllSound(b: Bulk) { forall j | 0 <= j < |b.builders| :: Sound(b.schema, Contribution(b, j)) }

  /** From the h-th hook of builder i on, some hook never calls `next`. */
  predicate Skipped(b: Bulk, i: nat, h: nat)
    requires i < |b.builders| && h <= |Hooks(b, i)|
    decreases |b.builders| - i, |Hooks(b, i)| - h
  {
    if h < |Hooks(b, i)| then Hooks(b, i)[h].calls == 0 || Skipped(b, i, h + 1)
    else i + 1 < |b.builders| && Skipped(b, i + 1, 0)
  }

  /** From the h-th hook of builder i on, some hook calls `next` again after a success. */
  predicate Repeated(b: Bulk, i: nat, h: nat)
    requires i < |b.builders| && h <= |Hooks(b, i)|
    decreases |b.builders| - i, |Hooks(b, i)| - h
  {
    if h < |Hooks(b, i)| then (Hooks(b, i)[h].calls > 1 && Hooks(b, i)[h].repeats) || Repeated(b, i, h + 1)
    else i + 1 < |b.builders| && Repeated(b, i + 1, 0)
  }

  lemma {:induction false} DirectChain(b: Bulk, i: nat, h: nat)
    requires Direct(b) && AllSound(b) && i < |b.builders| && h <= |Hooks(b, i)|
    ensures Succeeds(b, i, h, true)
    ensures Blocked(b, i, h) == Skipped(b, i, h) && Settled(b, i, h, true) == !Repeated(b, i, h)
    decreases |b.builders| - i, |Hooks(b, i)| - h
  {
    hide Looked, Contribution, Sound;
    if h < |Hooks(b, i)| {
      DirectChain(b, i, h + 1);
    } else {
      assert NoCopies(b);
      UncopiedLooked(b, i);
      if i + 1 < |b.builders| { DirectChain(b, i + 1, 0); }
    }
  }

  /** When nobody fails, hooks that pass results on, sound contributions and a database that takes everything: a save
      succeeds and writes at most one batch exactly when some hook skips `next` or none repeats it. */
  lemma {:induction false} BatchCount(b: Bulk)
    requires Direct(b) && AllSound(b) && b.builders != []
    requires |b.answers| >= Batches(b, 0, 0, true) && forall k | 0 <= k < |b.answers| :: b.answers[k].Stored?
    ensures Save(b).err.None? && |Save(b).state.writes| == Batches(b, 0, 0, true)
    ensures |Save(b).state.writes| <= 1 <==> Skipped(b, 0, 0) || !Repeated(b, 0, 0)
  {
    hide Save, Batches, Sound, Prepared, Skipped, Repeated, Blocked, Settled, Succeeds;
    BatchesAtMostOne(b, 0, 0, true);
    DirectChain(b, 0, 0);
    assert NoCopies(b);
    ConstantAnswer(b, true);
  }

  // ----- Hooks for which the promises fail

  const PLAIN := Hook(map[], {}, false, false, 1, true, false, false, false)

  function Complete(): Fields {
    map[CreatedAt := "0", UpdatedAt := "0", Name := "a", Platform := "p", Type := "t", Credentials := "", Extra := "",
        Concurrency := "1", Priority := "1", RateMultiplier := "1", Status := "active", AutoPauseOnExpired := "true",
        Schedulable := "true", QuotaDimension := "d"]
  }

  function Anything(): Schema { Schema(Complete(), (x: Field, v: string) => true) }

  lemma CompleteSound()
    ensures Sound(Anything(), Complete())
    ensures Defaults(Anything(), Complete(), 0) == Complete()
  {
    hide Sound, Defaults;
    SoundExactly(Anything(), Complete());
    CompleteFilled(0);
  }

  lemma {:induction false} CompleteFilled(k: nat)
    requires k <= |DEFAULTED|
    ensures Defaults(Anything(), Complete(), k) == Complete()
    decreases |DEFAULTED| - k
  {
    if k < |DEFAULTED| {
      hide Anything;
      assert DEFAULTED[k] in Complete();
      CompleteFilled(k + 1);
    }
  }

  /** A hook of the second builder that fails after the write: the rows are stored and the second mutation is marked,
      but the first is not and the save reports an error. */
  lemma {:induction false} HalfDone() returns (b: Bulk)
    ensures ExactlyOnce(b) && |b.builders| == 2 && |Save(b).state.writes| == 1 && FirstAnswer(b).Stored?
    ensures Done(Save(b).state, 1) && !Done(Save(b).state, 0) && Save(b).err.Some?
  {
    hide Mutate, Complete, Anything, Sound, Save;
    b := Bulk(Anything(), [Builder(Complete(), []), Builder(Complete(), [PLAIN.(fails := true)])], [Stored([1, 2])]);
    CompleteSound();
    PlainEdit(Complete());
    assert Looked(b, 0) == Complete() && Looked(b, 1) == Examined(Hooks(b, 1), 1, Complete()) == Complete();
    assert FirstUnsound(b, 2) == 2 && FirstUnsound(b, 1) == 2 && FirstUnsound(b, 0) == 2;
    assert ExactlyOnce(b) && AtMostOnce(b);
    OpenUpTo(b, 0, 1);
    OneBatch(b);
    DoneAt(b, 0);
    DoneAt(b, 1);
    SaveOnce(b);
    assert !Succeeds(b, 1, 0, true) && !Succeeds(b, 0, 0, true);
    assert Save(b).err.None? == Succeeds(b, 0, 0, Reply(b, Start(b)).Stored?);
  }

  lemma PlainEdit(f: Fields)
    ensures f - {} + map[] == f
  {
  }

  /** A hook that edits a copy: the builder's own mutation is checked, and the copy, which is not sound, is written. */
  lemma {:induction false} UncheckedWrite() returns (b: Bulk)
    ensures ExactlyOnce(b) && Stores(b)
    ensures |Save(b).state.writes| == 1 && |Save(b).state.writes[0]| == 1
    ensures var spec := Save(b).state.writes[0][0];
            spec.Some? && !Sound(b.schema, spec.value.fields)
  {
    hide Mutate, Complete, Anything, Sound, Save;
    b := Bulk(Anything(), [Builder(Complete(), [PLAIN.(copies := true, clears := {Name})])], [Stored([1])]);
    CompleteSound();
    assert Looked(b, 0) == Complete();
    assert FirstUnsound(b, 1) == 1 && FirstUnsound(b, 0) == 1;
    assert ExactlyOnce(b) && AtMostOnce(b);
    OpenUpTo(b, 0, 0);
    OneBatch(b);
    var k := Hooks(b, 0)[0];
    assert Contribution(b, 0) == Arriving(Hooks(b, 0), 1, Edit(k, Complete())) == Edit(k, Complete());
    SoundExactly(b.schema, Contribution(b, 0));
    assert Name in REQUIRED && Name !in Contribution(b, 0);
  }

  /** A hook that calls next twice: the same account is written twice, although the save succeeds. */
  lemma {:induction false} TwoBatches() returns (b: Bulk)
    ensures |b.builders| == 1 && Save(b).err.None? && |Save(b).state.writes| == 2
  {
    hide Mutate, Complete, Anything, Sound, Save;
    b := Bulk(Anything(), [Builder(Complete(), [PLAIN.(calls := 2)])], [Stored([1]), Stored([2])]);
    CompleteSound();
    PlainEdit(Complete());
    assert Contribution(b, 0) == Arriving(Hooks(b, 0), 1, Complete()) == Complete();
    DirectChain(b, 0, 1);
    assert Batches(b, 0, 1, true) == 1 && Batches(b, 0, 0, true) == 2;
    BatchCount(b);
  }

  /** A hook that calls next again only after a failure, around one that fails after the write: nobody repeats or skips
      a call, and the same account is stored twice. */
  lemma {:induction false} RetriedBatch() returns (b: Bulk)
    ensures |b.builders| == 1 && !Repeated(b, 0, 0) && !Skipped(b, 0, 0)
    ensures |Save(b).state.writes| == 2 && forall k | 0 <= k < 2 :: AnswerAt(b, k).Stored?
  {
    hide Mutate, Complete, Anything, Sound, Save;
    var retry := PLAIN.(calls := 2, repeats := false, retries := true);
    b := Bulk(Anything(), [Builder(Complete(), [retry, PLAIN.(fails := true)])], [Stored([1]), Stored([2])]);
    CompleteSound();
    PlainEdit(Complete());
    assert Arriving(Hooks(b, 0), 1, Complete()) == Arriving(Hooks(b, 0), 2, Complete()) == Complete();
    assert Contribution(b, 0) == Arriving(Hooks(b, 0), 1, Complete());
    assert Batches(b, 0, 2, true) == 1;
    assert Hooks(b, 0)[1].calls == 1 && Batches(b, 0, 1, true) == 1 * Batches(b, 0, 2, true);
    assert !Succeeds(b, 0, 1, true) && Times(retry, 2, false) == 2 && Hooks(b, 0)[0] == retry;
    assert Batches(b, 0, 0, true) == 2;
    assert !Repeated(b, 0, 1) && !Skipped(b, 0, 1);
    ConstantAnswer(b, true);
  }
}
