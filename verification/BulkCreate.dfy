/** Bulk creation of accounts: a chain of mutators, one per builder, each wrapped in hooks.
    The innermost mutator of the last builder performs the one batch write, and the chain
    unwinds from there. */
module BulkCreate {
  import opened PyText

  // ----- Accounts and the steps of one builder

  datatype Field =
    | CreatedAt | UpdatedAt | DeletedAt | Name | Notes | Platform | Type | Credentials | Extra
    | ProxyFallbackOriginId | Concurrency | LoadFactor | Priority | RateMultiplier | Status
    | ErrorMessage | LastUsedAt | ExpiresAt | AutoPauseOnExpired | Schedulable | RateLimitedAt
    | RateLimitResetAt | OverloadUntil | TempUnschedulableUntil | TempUnschedulableReason
    | SessionWindowStart | SessionWindowEnd | SessionWindowStatus | QuotaDimension

  type Fields = map<Field, string>

  /** Values of the defaulted columns, and the field validators. A default that is absent is one the
      runtime has not initialised. */
  datatype Schema = Schema(defaults: Fields, accepts: (Field, string) -> bool)

  const DEFAULTED := [CreatedAt, UpdatedAt, Credentials, Extra, Concurrency, Priority, RateMultiplier,
                      Status, AutoPauseOnExpired, Schedulable, QuotaDimension]

  const REQUIRED := [CreatedAt, UpdatedAt, Name, Platform, Type, Credentials, Extra, Concurrency, Priority,
                     RateMultiplier, Status, AutoPauseOnExpired, Schedulable, QuotaDimension]

  /** The checks in the order they are made: one optional column has a validator too. */
  const CHECKED := REQUIRED[..13] + [SessionWindowStatus] + REQUIRED[13..]

  const VALIDATED := {Name, Platform, Type, Status, SessionWindowStatus, QuotaDimension}

  /** Fills absent columns from the k-th default on, and stops at the first default that is not
      initialised: bulk creation ignores the error that reports it. */
  function Defaults(schema: Schema, f: Fields, k: nat): Fields
    requires k <= |DEFAULTED|
    decreases |DEFAULTED| - k
  {
    if k == |DEFAULTED| then f
    else if DEFAULTED[k] in f then Defaults(schema, f, k + 1)
    else if DEFAULTED[k] !in schema.defaults then f
    else Defaults(schema, f[DEFAULTED[k] := schema.defaults[DEFAULTED[k]]], k + 1)
  }

  predicate Faulty(schema: Schema, f: Fields, x: Field) {
    if x in f then x in VALIDATED && !schema.accepts(x, f[x]) else x in REQUIRED
  }

  /** The first column, from the k-th check on, that is missing or refused by its validator. */
  function Fault(schema: Schema, f: Fields, k: nat): Option<Field>
    requires k <= |CHECKED|
    decreases |CHECKED| - k
  {
    if k == |CHECKED| then None
    else if Faulty(schema, f, CHECKED[k]) then Some(CHECKED[k])
    else Fault(schema, f, k + 1)
  }

  predicate Sound(schema: Schema, f: Fields) { Fault(schema, f, 0).None? }

  // ----- Hooks, builders and the state

  /** What a hook does: it edits the mutation it is given, or a copy of it (`copies`); refuses, or calls
      `next` up to some number of times, going on after a success (`repeats`) or after a failure (`retries`); may hide
      the last error; may fail at the end. */
  datatype Hook = Hook(
    sets: Fields, clears: set<Field>, copies: bool,
    refuses: bool, calls: nat, repeats: bool, retries: bool, swallows: bool, fails: bool)

  datatype Builder = Builder(fields: Fields, hooks: seq<Hook>)

  datatype Answer = Stored(ids: seq<int>) | Refused(constraint: bool)

  /** `answers`: what the database replies to the batch writes, in order. */
  datatype Bulk = Bulk(schema: Schema, builders: seq<Builder>, answers: seq<Answer>)

  datatype Error =
    | Invalid(builder: nat, field: Field)
    | HookError(builder: nat, hook: nat)
    | WriteError(constraint: bool)

  datatype Record = Record(fields: Fields, done: bool, id: Option<int>)

  datatype Spec = Spec(fields: Fields, id: Option<int>)

  datatype Account = Account(fields: Fields, id: int)

  datatype Event =
    | Enter(builder: nat, hook: nat)
    | Exit(builder: nat, hook: nat)
    | Checked(builder: nat, ok: bool)
    | Wrote(ok: bool)
    | Marked(builder: nat)

  /** `mutations` are all mutation objects, `own[i]` the one builder i holds; an absent node or
      spec is a nil entry of the array. */
  datatype State = State(
    mutations: seq<Record>, own: seq<nat>,
    nodes: seq<Option<Account>>, specs: seq<Option<Spec>>,
    writes: seq<seq<Option<Spec>>>, trace: seq<Event>)

  datatype Out = Out(err: Option<Error>, state: State)

  predicate Fits(b: Bulk, s: State) {
    && |s.own| == |s.nodes| == |s.specs| == |b.builders|
    && forall k | 0 <= k < |s.own| :: s.own[k] < |s.mutations|
  }

  function Hooks(b: Bulk, i: nat): seq<Hook>
    requires i < |b.builders|
  {
    b.builders[i].hooks
  }

  function Log(s: State, e: Event): State { s.(trace := s.trace + [e]) }

  function Edit(k: Hook, f: Fields): Fields { (f - k.clears) + k.sets }

  /** The state in which a hook calls `next`, and the mutation it passes on. */
  function Passing(k: Hook, m: nat, s: State): (r: (State, nat))
    requires m < |s.mutations|
    ensures r.1 < |r.0.mutations| && |r.0.mutations| >= |s.mutations|
  {
    var f := Edit(k, s.mutations[m].fields);
    if k.copies then (s.(mutations := s.mutations + [Record(f, false, None)]), |s.mutations|)
    else (s.(mutations := s.mutations[m := s.mutations[m].(fields := f)]), m)
  }

  function Ids(specs: seq<Option<Spec>>, ids: seq<int>): (r: seq<Option<Spec>>)
    ensures |r| == |specs|
    ensures forall k | 0 <= k < |r| ::
              r[k] == if specs[k].Some? && k < |ids| then Some(specs[k].value.(id := Some(ids[k]))) else specs[k]
  {
    seq(|specs|, k requires 0 <= k < |specs| =>
      if specs[k].Some? && k < |ids| then Some(specs[k].value.(id := Some(ids[k]))) else specs[k])
  }

  /** The answer to the k-th batch. */
  function AnswerAt(b: Bulk, k: nat): Answer { if k < |b.answers| then b.answers[k] else Refused(false) }

  function Reply(b: Bulk, s: State): Answer { AnswerAt(b, |s.writes|) }

  function Write(b: Bulk, s: State): (r: Out) {
    var t := s.(writes := s.writes + [s.specs]);
    match Reply(b, s)
    case Stored(ids) => Out(None, Log(t.(specs := Ids(s.specs, ids)), Wrote(true)))
    case Refused(constraint) => Out(Some(WriteError(constraint)), Log(t, Wrote(false)))
  }

  /** The check looks at the mutation the builder holds; only then is the one that was passed in adopted,
      and the node and the spec are built from that one. */
  function Adopt(i: nat, m: nat, s: State): State
    requires i < |s.own| == |s.nodes| == |s.specs| && m < |s.mutations|
  {
    var f := s.mutations[m].fields;
    s.(own := s.own[i := m], nodes := s.nodes[i := Some(Account(f, 0))], specs := s.specs[i := Some(Spec(f, None))],
       trace := s.trace + [Checked(i, true)])
  }

  function Finish(i: nat, m: nat, s: State): State
    requires i < |s.nodes| == |s.specs| && m < |s.mutations| && s.nodes[i].Some? && s.specs[i].Some?
  {
    var id := if s.specs[i].value.id.Some? then s.specs[i].value.id.value else s.nodes[i].value.id;
    s.(mutations := s.mutations[m := s.mutations[m].(done := true, id := Some(id))],
       nodes := s.nodes[i := Some(s.nodes[i].value.(id := id))],
       trace := s.trace + [Marked(i)])
  }

  ghost predicate Grows(s: State, t: State) {
    && |s.mutations| <= |t.mutations| && |s.own| == |t.own| && |s.nodes| == |t.nodes| && |s.specs| == |t.specs|
    && (forall k | 0 <= k < |s.nodes| && s.nodes[k].Some? :: t.nodes[k].Some?)
    && (forall k | 0 <= k < |s.specs| && s.specs[k].Some? :: t.specs[k].Some?)
  }

  /** Builder i's mutator from its h-th hook inwards, called with mutation m. */
  function Mutate(b: Bulk, i: nat, h: nat, m: nat, s: State): (r: Out)
    requires Fits(b, s) && i < |b.builders| && h <= |Hooks(b, i)| && m < |s.mutations|
    ensures Fits(b, r.state) && Grows(s, r.state)
    decreases |b.builders| - i, |Hooks(b, i)| - h, 2
  {
    if h == |Hooks(b, i)| then Inner(b, i, m, s)
    else
      var k, s0 := Hooks(b, i)[h], Log(s, Enter(i, h));
      var r := if k.refuses then Out(Some(HookError(i, h)), s0) else Around(b, i, h, m, s0);
      Out(r.err, Log(r.state, Exit(i, h)))
  }

  /** A hook that does not refuse: its edit, its calls of `next`, and what it makes of the result. */
  function Around(b: Bulk, i: nat, h: nat, m: nat, s: State): (r: Out)
    requires Fits(b, s) && i < |b.builders| && h < |Hooks(b, i)| && m < |s.mutations|
    ensures Fits(b, r.state) && Grows(s, r.state)
    decreases |b.builders| - i, |Hooks(b, i)| - h, 1
  {
    var k := Hooks(b, i)[h];
    var (t, n) := Passing(k, m, s);
    var r := Calls(b, i, h, k.calls, n, t);
    Out(if r.err.Some? && !k.swallows then r.err else if k.fails then Some(HookError(i, h)) else None, r.state)
  }

  /** Whether the hook is content with a success or a failure of a call. */
  predicate Content(k: Hook, ok: bool) { if ok then !k.repeats else !k.retries }

  predicate Stops(k: Hook, err: Option<Error>) { Content(k, err.None?) }

  /** At most `c` calls of `next`: the first, and further ones for as long as the hook goes on. */
  function Calls(b: Bulk, i: nat, h: nat, c: nat, m: nat, s: State): (r: Out)
    requires Fits(b, s) && i < |b.builders| && h < |Hooks(b, i)| && m < |s.mutations|
    ensures Fits(b, r.state) && Grows(s, r.state)
    decreases |b.builders| - i, |Hooks(b, i)| - h, 0, c
  {
    if c == 0 then Out(None, s)
    else
      var r := Calls(b, i, h, c - 1, m, s);
      if c > 1 && Stops(Hooks(b, i)[h], r.err) then r else Mutate(b, i, h + 1, m, r.state)
  }

  function Inner(b: Bulk, i: nat, m: nat, s: State): (r: Out)
    requires Fits(b, s) && i < |b.builders| && m < |s.mutations|
    ensures Fits(b, r.state) && Grows(s, r.state)
    decreases |b.builders| - i, 0, 1
  {
    var fault := Fault(b.schema, s.mutations[s.own[i]].fields, 0);
    if fault.Some? then Out(Some(Invalid(i, fault.value)), Log(s, Checked(i, false)))
    else
      var r := Next(b, i, Adopt(i, m, s));
      if r.err.Some? then r else Out(None, Finish(i, m, r.state))
  }

  /** The next builder's mutator, or the batch write after the last. */
  function Next(b: Bulk, i: nat, s: State): (r: Out)
    requires Fits(b, s) && i < |b.builders|
    ensures Fits(b, r.state) && Grows(s, r.state)
    decreases |b.builders| - i, 0, 0
  {
    if i + 1 < |b.builders| then Mutate(b, i + 1, 0, s.own[i + 1], s) else Write(b, s)
  }

  function Prepared(b: Bulk, i: nat): Fields
    requires i < |b.builders|
  {
    Defaults(b.schema, b.builders[i].fields, 0)
  }

  function Start(b: Bulk): (s: State)
    ensures Fits(b, s)
  {
    var n := |b.builders|;
    State(seq(n, i requires 0 <= i < n => Record(Prepared(b, i), false, None)), seq(n, i requires 0 <= i < n => i),
          seq(n, _ => None), seq(n, _ => None), [], [])
  }

  function Save(b: Bulk): (r: Out)
    ensures Fits(b, r.state)
  {
    if b.builders == [] then Out(None, Start(b)) else Mutate(b, 0, 0, Start(b).own[0], Start(b))
  }

  // ----- Any hooks: the trace

  predicate Place(b: Bulk, i: nat, h: nat) {
    if i < |b.builders| then h <= |Hooks(b, i)| else i == |b.builders| && h == 0
  }

  /** The hooks around builder i's mutator from its h-th hook inwards, outermost first. */
  function Chain(b: Bulk, i: nat, h: nat): seq<(nat, nat)>
    requires Place(b, i, h)
    decreases i, h
  {
    if h > 0 then Chain(b, i, h - 1) + [(i, h - 1)]
    else if i > 0 then Chain(b, i - 1, |Hooks(b, i - 1)|)
    else []
  }

  /** The hooks entered and not left, and the number of leading builders whose last check passed. */
  datatype Monitor = Monitor(open: seq<(nat, nat)>, checked: nat)

  /** Reads one event. A hook is left only when it is the last one entered; the write needs every hook of every
      builder open, in order, and every builder checked; a mutation is marked inside its own hooks. */
  function Watch(b: Bulk, w: Monitor, e: Event): Option<Monitor> {
    match e
    case Enter(i, h) => Some(w.(open := w.open + [(i, h)]))
    case Exit(i, h) =>
      if w.open != [] && w.open[|w.open| - 1] == (i, h) then Some(w.(open := w.open[..|w.open| - 1])) else None
    case Checked(i, ok) => if i <= w.checked then Some(w.(checked := if ok then i + 1 else i)) else None
    case Wrote(_) => if w == Monitor(Chain(b, |b.builders|, 0), |b.builders|) then Some(w) else None
    case Marked(i) => if i < |b.builders| && w.open == Chain(b, i, |Hooks(b, i)|) then Some(w) else None
  }

  function WatchAll(b: Bulk, trace: seq<Event>): Option<Monitor> {
    if trace == [] then Some(Monitor([], 0))
    else
      var w := WatchAll(b, trace[..|trace| - 1]);
      if w.None? then None else Watch(b, w.value, trace[|trace| - 1])
  }

  lemma WatchSnoc(b: Bulk, trace: seq<Event>, e: Event)
    ensures var w := WatchAll(b, trace);
            WatchAll(b, trace + [e]) == if w.None? then None else Watch(b, w.value, e)
  {
    assert (trace + [e])[..|trace|] == trace;
  }

  ghost predicate Inside(b: Bulk, i: nat, h: nat, trace: seq<Event>)
    requires Place(b, i, h)
  {
    var w := WatchAll(b, trace);
    w.Some? && w.value.open == Chain(b, i, h) && w.value.checked >= i
  }

  lemma EnterInside(b: Bulk, i: nat, h: nat, trace: seq<Event>)
    requires i < |b.builders| && h < |Hooks(b, i)| && Inside(b, i, h, trace)
    ensures Inside(b, i, h + 1, trace + [Enter(i, h)])
  {
    WatchSnoc(b, trace, Enter(i, h));
  }

  lemma ExitInside(b: Bulk, i: nat, h: nat, trace: seq<Event>)
    requires i < |b.builders| && h < |Hooks(b, i)| && Inside(b, i, h + 1, trace)
    ensures Inside(b, i, h, trace + [Exit(i, h)])
  {
    WatchSnoc(b, trace, Exit(i, h));
    var c := Chain(b, i, h);
    assert (c + [(i, h)])[..|c|] == c;
  }

  lemma {:induction false} MutateInside(b: Bulk, i: nat, h: nat, m: nat, s: State)
    requires Fits(b, s) && i < |b.builders| && h <= |Hooks(b, i)| && m < |s.mutations|
    requires Inside(b, i, h, s.trace)
    ensures Inside(b, i, h, Mutate(b, i, h, m, s).state.trace)
    decreases |b.builders| - i, |Hooks(b, i)| - h, 2
  {
    hide Inside, Inner, Calls;
    if h == |Hooks(b, i)| {
      InnerInside(b, i, m, s);
    } else {
      var k, s0 := Hooks(b, i)[h], Log(s, Enter(i, h));
      EnterInside(b, i, h, s.trace);
      if k.refuses {
        ExitInside(b, i, h, s0.trace);
      } else {
        var (t, n) := Passing(k, m, s0);
        CallsInside(b, i, h, k.calls, n, t);
        ExitInside(b, i, h, Calls(b, i, h, k.calls, n, t).state.trace);
      }
    }
  }

  lemma {:induction false} CallsInside(b: Bulk, i: nat, h: nat, c: nat, m: nat, s: State)
    requires Fits(b, s) && i < |b.builders| && h < |Hooks(b, i)| && m < |s.mutations|
    requires Inside(b, i, h + 1, s.trace)
    ensures Inside(b, i, h + 1, Calls(b, i, h, c, m, s).state.trace)
    decreases |b.builders| - i, |Hooks(b, i)| - h, 0, c
  {
    hide Inside, Mutate;
    if c > 0 {
      CallsInside(b, i, h, c - 1, m, s);
      var r := Calls(b, i, h, c - 1, m, s);
      if c == 1 || !Stops(Hooks(b, i)[h], r.err) { MutateInside(b, i, h + 1, m, r.state); }
    }
  }

  lemma {:induction false} InnerInside(b: Bulk, i: nat, m: nat, s: State)
    requires Fits(b, s) && i < |b.builders| && m < |s.mutations|
    requires Inside(b, i, |Hooks(b, i)|, s.trace)
    ensures Inside(b, i, |Hooks(b, i)|, Inner(b, i, m, s).state.trace)
    decreases |b.builders| - i, 0, 1
  {
    hide Mutate, Fault;
    var fault := Fault(b.schema, s.mutations[s.own[i]].fields, 0);
    WatchSnoc(b, s.trace, Checked(i, fault.None?));
    if fault.None? {
      var t := Adopt(i, m, s);
      NextInside(b, i, t);
      WatchSnoc(b, Next(b, i, t).state.trace, Marked(i));
    }
  }

  lemma {:induction false} NextInside(b: Bulk, i: nat, s: State)
    requires Fits(b, s) && i < |b.builders|
    requires Inside(b, i, |Hooks(b, i)|, s.trace) && WatchAll(b, s.trace).value.checked == i + 1
    ensures Inside(b, i, |Hooks(b, i)|, Next(b, i, s).state.trace)
    decreases |b.builders| - i, 0, 0
  {
    hide Mutate;
    if i + 1 < |b.builders| {
      MutateInside(b, i + 1, 0, s.own[i + 1], s);
    } else {
      WatchSnoc(b, s.trace, Wrote(Reply(b, s).Stored?));
    }
  }

  /** Whatever the hooks do: they are left in the reverse of the order they were entered, all of them are open at
      every write, and every write comes after a passed check of every builder. */
  lemma {:induction false} WellNested(b: Bulk)
    ensures var w := WatchAll(b, Save(b).state.trace);
            w.Some? && w.value.open == []
  {
    hide Mutate;
    if b.builders != [] { MutateInside(b, 0, 0, Start(b).own[0], Start(b)); }
  }

  // ----- Any hooks: what is written

  ghost predicate Full(b: Bulk, specs: seq<Option<Spec>>) {
    |specs| == |b.builders| && forall k | 0 <= k < |specs| :: specs[k].Some?
  }

  ghost predicate FullWrites(b: Bulk, s: State) { forall k | 0 <= k < |s.writes| :: Full(b, s.writes[k]) }

  ghost predicate SpecsUpTo(i: nat, s: State)
    requires i <= |s.specs|
  {
    forall k | 0 <= k < i :: s.specs[k].Some?
  }

  lemma {:induction false} MutateFull(b: Bulk, i: nat, h: nat, m: nat, s: State)
    requires Fits(b, s) && i < |b.builders| && h <= |Hooks(b, i)| && m < |s.mutations|
    requires FullWrites(b, s) && SpecsUpTo(i, s)
    ensures FullWrites(b, Mutate(b, i, h, m, s).state)
    decreases |b.builders| - i, |Hooks(b, i)| - h, 2
  {
    hide Fault, Calls;
    if h == |Hooks(b, i)| {
      var fault := Fault(b.schema, s.mutations[s.own[i]].fields, 0);
      if fault.None? {
        var t := Adopt(i, m, s);
        assert SpecsUpTo(i + 1, t);
        if i + 1 < |b.builders| {
          MutateFull(b, i + 1, 0, t.own[i + 1], t);
        } else {
          assert Full(b, t.specs) && Next(b, i, t) == Write(b, t);
          assert FullWrites(b, Write(b, t).state);
        }
        assert FullWrites(b, Next(b, i, t).state);
        assert FullWrites(b, Inner(b, i, m, s).state);
      }
    } else {
      var k, s0 := Hooks(b, i)[h], Log(s, Enter(i, h));
      if !k.refuses {
        var (t, n) := Passing(k, m, s0);
        CallsFull(b, i, h, k.calls, n, t);
      }
    }
  }

  lemma {:induction false} CallsFull(b: Bulk, i: nat, h: nat, c: nat, m: nat, s: State)
    requires Fits(b, s) && i < |b.builders| && h < |Hooks(b, i)| && m < |s.mutations|
    requires FullWrites(b, s) && SpecsUpTo(i, s)
    ensures FullWrites(b, Calls(b, i, h, c, m, s).state)
    decreases |b.builders| - i, |Hooks(b, i)| - h, 0, c
  {
    hide Mutate;
    if c > 0 {
      CallsFull(b, i, h, c - 1, m, s);
      var r := Calls(b, i, h, c - 1, m, s);
      if c == 1 || !Stops(Hooks(b, i)[h], r.err) { MutateFull(b, i, h + 1, m, r.state); }
    }
  }

  /** Whatever the hooks do, no batch is written that lacks the spec of some builder. */
  lemma {:induction false} WritesFull(b: Bulk)
    ensures FullWrites(b, Save(b).state)
  {
    hide Mutate;
    if b.builders != [] { MutateFull(b, 0, 0, Start(b).own[0], Start(b)); }
  }

  // ----- Hooks that call next at most once

  ghost predicate AtMostOnce(b: Bulk) {
    forall i, h | 0 <= i < |b.builders| && 0 <= h < |Hooks(b, i)| :: Hooks(b, i)[h].calls <= 1
  }

  /** The h-th and all further hooks let the call through. */
  predicate Through(hooks: seq<Hook>, h: nat)
    requires h <= |hooks|
    decreases |hooks| - h
  {
    h < |hooks| ==> !hooks[h].refuses && hooks[h].calls == 1 && Through(hooks, h + 1)
  }

  /** The fields that arrive at the innermost mutator when the h-th hook is given `f`. */
  function Arriving(hooks: seq<Hook>, h: nat, f: Fields): Fields
    requires h <= |hooks|
    decreases |hooks| - h
  {
    if h == |hooks| then f else Arriving(hooks, h + 1, Edit(hooks[h], f))
  }

  /** The fields of the builder's own mutation by then: a hook that copies cuts it off. */
  function Examined(hooks: seq<Hook>, h: nat, f: Fields): Fields
    requires h <= |hooks|
    decreases |hooks| - h
  {
    if h == |hooks| || hooks[h].copies then f else Examined(hooks, h + 1, Edit(hooks[h], f))
  }

  function Contribution(b: Bulk, i: nat): Fields
    requires i < |b.builders|
  {
    Arriving(Hooks(b, i), 0, Prepared(b, i))
  }

  function Looked(b: Bulk, i: nat): Fields
    requires i < |b.builders|
  {
    Examined(Hooks(b, i), 0, Prepared(b, i))
  }

  /** From the h-th hook of builder i inwards, up to builder j's innermost mutator, nothing stops the chain. */
  predicate Open(b: Bulk, i: nat, h: nat, j: nat)
    requires i <= j < |b.builders| && h <= |Hooks(b, i)|
    decreases j - i
  {
    && Through(Hooks(b, i), h) && Sound(b.schema, Looked(b, i))
    && (i < j ==> Open(b, i + 1, 0, j))
  }

  /** Whether builder i's mutator succeeds from its h-th hook inwards, if the database answers a write this way. */
  predicate Succeeds(b: Bulk, i: nat, h: nat, stored: bool)
    requires i < |b.builders| && h <= |Hooks(b, i)|
    decreases |b.builders| - i, |Hooks(b, i)| - h
  {
    if h == |Hooks(b, i)| then
      Sound(b.schema, Looked(b, i)) && if i + 1 < |b.builders| then Succeeds(b, i + 1, 0, stored) else stored
    else
      var k := Hooks(b, i)[h];
      && !k.refuses && !k.fails
      && (k.calls == 0 || k.swallows || Succeeds(b, i, h + 1, stored))
  }

  /** Whether what follows builder j succeeds. */
  predicate RestSucceeds(b: Bulk, j: nat, stored: bool)
    requires j < |b.builders|
  {
    if j + 1 < |b.builders| then Succeeds(b, j + 1, 0, stored) else stored
  }

  /** The call has reached the h-th hook of builder i with mutation m. */
  ghost predicate Ready(b: Bulk, i: nat, h: nat, m: nat, s: State) {
    && Fits(b, s) && i < |b.builders| && h <= |Hooks(b, i)| && |b.builders| <= |s.mutations|
    && m < |s.mutations| && (m == i || m >= |b.builders|) && s.own[i] == i
    && !s.mutations[m].done && !s.mutations[i].done
    && Arriving(Hooks(b, i), h, s.mutations[m].fields) == Contribution(b, i)
    && (if m == i then Examined(Hooks(b, i), h, s.mutations[i].fields) else s.mutations[i].fields) == Looked(b, i)
    && Ahead(b, i + 1, s)
  }

  /** The builders from the i-th on have not been touched. */
  ghost predicate Ahead(b: Bulk, i: nat, s: State)
    requires Fits(b, s) && |b.builders| <= |s.mutations|
  {
    forall j | i <= j < |b.builders| :: s.own[j] == j && s.mutations[j] == Record(Prepared(b, j), false, None)
  }

  ghost predicate Kept(b: Bulk, i: nat, m: nat, s: State, t: State)
    requires Fits(b, s) && Fits(b, t) && Grows(s, t)
  {
    && (forall k | 0 <= k < |s.mutations| && k != m && !(i < k < |b.builders|) :: t.mutations[k] == s.mutations[k])
    && (forall j | 0 <= j < |b.builders| && j < i :: t.own[j] == s.own[j] && t.nodes[j] == s.nodes[j])
    && (forall j | i <= j < |b.builders| ::
          t.own[j] == j || t.own[j] >= |s.mutations| || (j == i && t.own[j] == m))
  }

  /** The one batch: the specs there already, then one for every further builder. */
  function Batch(b: Bulk, i: nat, s: State): seq<Option<Spec>>
    requires Fits(b, s)
  {
    seq(|b.builders|, j requires 0 <= j < |b.builders| =>
      if j < i then s.specs[j] else Some(Spec(Contribution(b, j), None)))
  }

  ghost predicate WroteAs(b: Bulk, i: nat, h: nat, s: State, t: State)
    requires Fits(b, s) && Fits(b, t) && i < |b.builders| && h <= |Hooks(b, i)|
  {
    if Open(b, i, h, |b.builders| - 1) then
      && t.writes == s.writes + [Batch(b, i, s)]
      && (Reply(b, s).Stored? ==> t.specs == Ids(Batch(b, i, s), Reply(b, s).ids))
      && (!Reply(b, s).Stored? ==> forall j | 0 <= j < i :: t.specs[j] == s.specs[j])
    else
      t.writes == s.writes && forall j | 0 <= j < i :: t.specs[j] == s.specs[j]
  }

  ghost predicate MarkedAs(b: Bulk, i: nat, h: nat, s: State, t: State)
    requires Fits(b, s) && Fits(b, t) && i < |b.builders| && h <= |Hooks(b, i)|
  {
    forall j | i <= j < |b.builders| ::
      t.mutations[t.own[j]].done == (Open(b, i, h, j) && RestSucceeds(b, j, Reply(b, s).Stored?))
  }

  /** The id the database gave to builder j's account; 0 when nothing was stored. */
  function Given(b: Bulk, i: nat, h: nat, j: nat, s: State): int
    requires i < |b.builders| && h <= |Hooks(b, i)|
  {
    if Open(b, i, h, |b.builders| - 1) && Reply(b, s).Stored? && j < |Reply(b, s).ids| then Reply(b, s).ids[j] else 0
  }

  /** A marked mutation carries the id of its node, and the node holds what the builder contributed. */
  ghost predicate NumberedAs(b: Bulk, i: nat, h: nat, s: State, t: State)
    requires Fits(b, s) && Fits(b, t) && i < |b.builders| && h <= |Hooks(b, i)|
  {
    forall j | i <= j < |b.builders| && t.mutations[t.own[j]].done ::
      && t.nodes[j] == Some(Account(Contribution(b, j), Given(b, i, h, j, s)))
      && t.mutations[t.own[j]].id == Some(Given(b, i, h, j, s))
  }

  /** All that at-most-once hooks do to a call that has reached builder i's h-th hook. */
  ghost predicate Ran(b: Bulk, i: nat, h: nat, m: nat, s: State, r: Out)
    requires Fits(b, s) && Fits(b, r.state) && Grows(s, r.state) && i < |b.builders| && h <= |Hooks(b, i)|
  {
    && Kept(b, i, m, s, r.state)
    && WroteAs(b, i, h, s, r.state)
    && MarkedAs(b, i, h, s, r.state)
    && NumberedAs(b, i, h, s, r.state)
    && r.err.None? == Succeeds(b, i, h, Reply(b, s).Stored?)
  }

  lemma {:induction false} MutateOnce(b: Bulk, i: nat, h: nat, m: nat, s: State)
    requires AtMostOnce(b) && Ready(b, i, h, m, s)
    ensures Ran(b, i, h, m, s, Mutate(b, i, h, m, s))
    decreases |b.builders| - i, |Hooks(b, i)| - h, 2
  {
    hide Ran, Inner, Calls, Passing, Succeeds, Open;
    if h == |Hooks(b, i)| {
      InnerOnce(b, i, m, s);
    } else {
      var k, s0 := Hooks(b, i)[h], Log(s, Enter(i, h));
      if k.refuses || k.calls == 0 {
        StoppedOnce(b, i, h, m, s);
      } else {
        var (t, n) := Passing(k, m, s0);
        PassingReady(b, i, h, m, s);
        MutateOnce(b, i, h + 1, n, t);
        PassingRan(b, i, h, m, s);
      }
    }
  }

  lemma OneCall(b: Bulk, i: nat, h: nat, m: nat, s: State)
    requires Fits(b, s) && i < |b.builders| && h < |Hooks(b, i)| && m < |s.mutations|
    ensures Calls(b, i, h, 1, m, s) == Mutate(b, i, h + 1, m, s)
  {
    hide Mutate;
    assert Calls(b, i, h, 0, m, s) == Out(None, s);
  }

  lemma PassingReady(b: Bulk, i: nat, h: nat, m: nat, s: State)
    requires Ready(b, i, h, m, s) && h < |Hooks(b, i)|
    ensures var (t, n) := Passing(Hooks(b, i)[h], m, Log(s, Enter(i, h)));
            Ready(b, i, h + 1, n, t)
  {
    hide Edit, Prepared;
  }

  /** A hook that refuses or skips. */
  lemma StoppedOnce(b: Bulk, i: nat, h: nat, m: nat, s: State)
    requires Ready(b, i, h, m, s) && h < |Hooks(b, i)|
    requires Hooks(b, i)[h].refuses || Hooks(b, i)[h].calls == 0
    ensures Ran(b, i, h, m, s, Mutate(b, i, h, m, s))
  {
    hide Edit, Prepared, Arriving, Examined, Contribution, Looked, Reply, Batch, Mutate;
    StoppedState(b, i, h, m, s);
    var r := Mutate(b, i, h, m, s);
    assert Kept(b, i, m, s, r.state);
    assert MarkedAs(b, i, h, s, r.state);
  }

  lemma StoppedState(b: Bulk, i: nat, h: nat, m: nat, s: State)
    requires Fits(b, s) && i < |b.builders| && h < |Hooks(b, i)| && m < |s.mutations|
    requires Hooks(b, i)[h].refuses || Hooks(b, i)[h].calls == 0
    ensures var k, r, s0 := Hooks(b, i)[h], Mutate(b, i, h, m, s), Log(s, Enter(i, h));
            && r.state == Log(if k.refuses then s0 else Passing(k, m, s0).0, Exit(i, h))
            && r.err.None? == (!k.refuses && !k.fails)
  {
    hide Inner;
    var k, s0 := Hooks(b, i)[h], Log(s, Enter(i, h));
    if !k.refuses {
      var (t, n) := Passing(k, m, s0);
      assert Calls(b, i, h, 0, n, t) == Out(None, t);
      assert Around(b, i, h, m, s0).state == t;
    }
  }

  /** One call of next: what it leaves behind and what the hook makes of its error. */
  lemma PassingState(b: Bulk, i: nat, h: nat, m: nat, s: State)
    requires Fits(b, s) && i < |b.builders| && h < |Hooks(b, i)| && m < |s.mutations|
    requires !Hooks(b, i)[h].refuses && Hooks(b, i)[h].calls == 1
    ensures var k, r, s0 := Hooks(b, i)[h], Mutate(b, i, h, m, s), Log(s, Enter(i, h));
            var (t, n) := Passing(k, m, s0);
            var q := Mutate(b, i, h + 1, n, t);
            && r.state == Log(q.state, Exit(i, h))
            && r.err.None? == (!k.fails && (k.swallows || q.err.None?))
  {
    hide Edit, Inner;
    var k, s0 := Hooks(b, i)[h], Log(s, Enter(i, h));
    var (t, n) := Passing(k, m, s0);
    OneCall(b, i, h, n, t);
    assert k.calls == 1 && Calls(b, i, h, k.calls, n, t) == Mutate(b, i, h + 1, n, t);
    hide Mutate, Calls;
    assert Around(b, i, h, m, s0).state == Mutate(b, i, h + 1, n, t).state;
  }

  /** What is known of the state behind a hook that called next once. */
  ghost predicate Passed(b: Bulk, i: nat, h: nat, m: nat, s: State)
    requires Fits(b, s) && i < |b.builders| && h < |Hooks(b, i)| && m < |s.mutations|
  {
    var (t, n) := Passing(Hooks(b, i)[h], m, Log(s, Enter(i, h)));
    Ran(b, i, h + 1, n, t, Mutate(b, i, h + 1, n, t))
  }

  lemma PassingKept(b: Bulk, i: nat, h: nat, m: nat, s: State)
    requires Ready(b, i, h, m, s) && h < |Hooks(b, i)|
    requires !Hooks(b, i)[h].refuses && Hooks(b, i)[h].calls == 1 && Passed(b, i, h, m, s)
    ensures Kept(b, i, m, s, Mutate(b, i, h, m, s).state)
  {
    hide Edit, Prepared, Arriving, Examined, Contribution, Looked, Calls, Mutate;
    hide WroteAs, MarkedAs, NumberedAs, Succeeds, Open;
    PassingState(b, i, h, m, s);
  }

  lemma PassingRan(b: Bulk, i: nat, h: nat, m: nat, s: State)
    requires Ready(b, i, h, m, s) && h < |Hooks(b, i)|
    requires !Hooks(b, i)[h].refuses && Hooks(b, i)[h].calls == 1 && Passed(b, i, h, m, s)
    ensures Ran(b, i, h, m, s, Mutate(b, i, h, m, s))
  {
    hide Edit, Prepared, Arriving, Examined, Contribution, Looked, Calls, Mutate, Kept;
    PassingState(b, i, h, m, s);
    PassingKept(b, i, h, m, s);
    var t := Passing(Hooks(b, i)[h], m, Log(s, Enter(i, h))).0;
    assert Reply(b, t) == Reply(b, s) && Batch(b, i, t) == Batch(b, i, s);
    hide Reply, Batch, Ready, Passing;
  }

  lemma {:induction false} InnerOnce(b: Bulk, i: nat, m: nat, s: State)
    requires AtMostOnce(b) && Fits(b, s) && i < |b.builders| && Ready(b, i, |Hooks(b, i)|, m, s)
    ensures Ran(b, i, |Hooks(b, i)|, m, s, Inner(b, i, m, s))
    decreases |b.builders| - i, 0, 1
  {
    hide Mutate, Prepared, Fault, Arriving, Examined, Contribution, Looked, Ran, Adopt, Next, Finish, Inner;
    var t := Adopt(i, m, s);
    if !Sound(b.schema, s.mutations[s.own[i]].fields) {
      RejectedOnce(b, i, m, s);
    } else {
      if i + 1 < |b.builders| {
        AdoptReady(b, i, m, s);
        MutateOnce(b, i + 1, 0, i + 1, t);
      }
      NextOnce(b, i, m, s);
      FinishOnce(b, i, m, s);
    }
  }

  lemma RejectedOnce(b: Bulk, i: nat, m: nat, s: State)
    requires Fits(b, s) && i < |b.builders| && Ready(b, i, |Hooks(b, i)|, m, s)
    requires !Sound(b.schema, s.mutations[s.own[i]].fields)
    ensures Ran(b, i, |Hooks(b, i)|, m, s, Inner(b, i, m, s))
  {
    hide Mutate, Prepared, Fault, Arriving, Contribution, Looked, Next, Finish, Reply, Batch;
  }

  lemma AdoptReady(b: Bulk, i: nat, m: nat, s: State)
    requires Fits(b, s) && i + 1 < |b.builders| && Ready(b, i, |Hooks(b, i)|, m, s)
    ensures Ready(b, i + 1, 0, i + 1, Adopt(i, m, s))
  {
    hide Prepared, Arriving, Examined;
  }

  /** What the rest of the chain does, seen from the state in which builder i has adopted mutation m. */
  ghost predicate RestRan(b: Bulk, i: nat, t: State, r: Out)
    requires Fits(b, t) && Fits(b, r.state) && Grows(t, r.state) && i < |b.builders|
  {
    && (i + 1 < |b.builders| ==> Ran(b, i + 1, 0, i + 1, t, r))
    && (i + 1 == |b.builders| ==> r == Write(b, t))
  }

  lemma NextOnce(b: Bulk, i: nat, m: nat, s: State)
    requires Fits(b, s) && i < |b.builders| && Ready(b, i, |Hooks(b, i)|, m, s)
    requires i + 1 < |b.builders| ==>
               var t := Adopt(i, m, s);
               i + 1 < |s.mutations| && Ran(b, i + 1, 0, i + 1, t, Mutate(b, i + 1, 0, i + 1, t))
    ensures RestRan(b, i, Adopt(i, m, s), Next(b, i, Adopt(i, m, s)))
  {
    hide Mutate, Ran, Write;
  }

  lemma FinishOnce(b: Bulk, i: nat, m: nat, s: State)
    requires Fits(b, s) && i < |b.builders| && Ready(b, i, |Hooks(b, i)|, m, s)
    requires Sound(b.schema, s.mutations[s.own[i]].fields)
    requires RestRan(b, i, Adopt(i, m, s), Next(b, i, Adopt(i, m, s)))
    ensures Ran(b, i, |Hooks(b, i)|, m, s, Inner(b, i, m, s))
  {
    hide Mutate, Prepared, Contribution, Looked, Next, Fault, NumberedAs, Kept, MarkedAs;
    FinishKept(b, i, m, s);
    AdoptBatch(b, i, m, s);
    FinishNumbered(b, i, m, s);
  }

  lemma FinishKept(b: Bulk, i: nat, m: nat, s: State)
    requires Fits(b, s) && i < |b.builders| && Ready(b, i, |Hooks(b, i)|, m, s)
    requires Sound(b.schema, s.mutations[s.own[i]].fields)
    requires RestRan(b, i, Adopt(i, m, s), Next(b, i, Adopt(i, m, s)))
    ensures var r := Inner(b, i, m, s).state;
            Kept(b, i, m, s, r) && MarkedAs(b, i, |Hooks(b, i)|, s, r)
  {
    hide Mutate, Prepared, Contribution, Looked, Next, Fault, NumberedAs, WroteAs, Batch;
    var r := Inner(b, i, m, s).state;
    assert Kept(b, i, m, s, r);
    assert MarkedAs(b, i, |Hooks(b, i)|, s, r);
  }

  lemma FinishNumbered(b: Bulk, i: nat, m: nat, s: State)
    requires Fits(b, s) && i < |b.builders| && Ready(b, i, |Hooks(b, i)|, m, s)
    requires Sound(b.schema, s.mutations[s.own[i]].fields)
    requires RestRan(b, i, Adopt(i, m, s), Next(b, i, Adopt(i, m, s)))
    ensures NumberedAs(b, i, |Hooks(b, i)|, s, Inner(b, i, m, s).state)
  {
    hide Mutate, Prepared, Contribution, Looked, Next, Fault, MarkedAs;
    AdoptBatch(b, i, m, s);
  }

  lemma AdoptBatch(b: Bulk, i: nat, m: nat, s: State)
    requires Fits(b, s) && i < |b.builders| && Ready(b, i, |Hooks(b, i)|, m, s)
    ensures Batch(b, i + 1, Adopt(i, m, s)) == Batch(b, i, s)
    ensures i + 1 == |b.builders| ==> Adopt(i, m, s).specs == Batch(b, i, s)
  {
    hide Prepared, Contribution, Looked, Fault, Ahead;
  }

  // ----- What a whole run does

  predicate Done(s: State, j: nat)
    requires j < |s.own| && s.own[j] < |s.mutations|
  {
    s.mutations[s.own[j]].done
  }

  function FirstAnswer(b: Bulk): Answer { Reply(b, Start(b)) }

  lemma StartReady(b: Bulk)
    requires b.builders != []
    ensures Ready(b, 0, 0, 0, Start(b))
  {
    hide Defaults;
  }

  lemma {:induction false} SaveOnce(b: Bulk)
    requires AtMostOnce(b) && b.builders != []
    ensures Ran(b, 0, 0, 0, Start(b), Save(b))
  {
    hide Mutate, Ran, Ready;
    StartReady(b);
    MutateOnce(b, 0, 0, 0, Start(b));
  }

  /** The batch is written at most once; it is written exactly when every hook lets the call through and every
      check passes; and it then holds one spec for every builder, in builder order. */
  lemma {:induction false} OneBatch(b: Bulk)
    requires AtMostOnce(b)
    ensures Save(b).state.writes
         == if b.builders != [] && Open(b, 0, 0, |b.builders| - 1)
            then [seq(|b.builders|, j requires 0 <= j < |b.builders| => Some(Spec(Contribution(b, j), None)))]
            else []
  {
    hide Mutate, Open, Kept, MarkedAs, NumberedAs, Contribution;
    if b.builders != [] {
      SaveOnce(b);
      assert Batch(b, 0, Start(b))
          == seq(|b.builders|, j requires 0 <= j < |b.builders| => Some(Spec(Contribution(b, j), None)));
    }
  }

  /** A mutation is marked done exactly when the call reaches it and everything after it succeeds; its node then
      holds what the builder contributed, with the id the database gave. */
  lemma {:induction false} DoneExactly(b: Bulk, j: nat)
    requires AtMostOnce(b) && j < |b.builders|
    ensures var s := Save(b).state;
            && Done(s, j) == (Open(b, 0, 0, j) && RestSucceeds(b, j, FirstAnswer(b).Stored?))
            && (Done(s, j) ==> s.nodes[j] == Some(Account(Contribution(b, j), Given(b, 0, 0, j, Start(b)))))
  {
    hide Mutate, Open, Kept, WroteAs, Contribution, RestSucceeds;
    SaveOnce(b);
  }

  ghost predicate ExactlyOnce(b: Bulk) {
    forall i, h | 0 <= i < |b.builders| && 0 <= h < |Hooks(b, i)| ::
      !Hooks(b, i)[h].refuses && Hooks(b, i)[h].calls == 1
  }

  /** What the hooks from the h-th on make of a success or a failure. */
  predicate Turned(hooks: seq<Hook>, h: nat, ok: bool)
    requires h <= |hooks|
    decreases |hooks| - h
  {
    if h == |hooks| then ok else !hooks[h].fails && (hooks[h].swallows || Turned(hooks, h + 1, ok))
  }

  /** The first builder from the i-th on whose check fails. */
  function FirstUnsound(b: Bulk, i: nat): (k: nat)
    requires i <= |b.builders|
    ensures i <= k <= |b.builders|
    decreases |b.builders| - i
  {
    if i < |b.builders| && Sound(b.schema, Looked(b, i)) then FirstUnsound(b, i + 1) else i
  }

  /** Every check passes and the database takes the batch. */
  predicate Stores(b: Bulk) { FirstUnsound(b, 0) == |b.builders| && FirstAnswer(b).Stored? }

  ghost predicate AllDone(b: Bulk, s: State)
    requires Fits(b, s)
  {
    forall j | 0 <= j < |b.builders| :: Done(s, j)
  }

  ghost predicate NoneDone(b: Bulk, s: State)
    requires Fits(b, s)
  {
    forall j | 0 <= j < |b.builders| :: !Done(s, j)
  }

  lemma {:induction false} ThroughAll(b: Bulk, i: nat, h: nat)
    requires ExactlyOnce(b) && i < |b.builders| && h <= |Hooks(b, i)|
    ensures Through(Hooks(b, i), h)
    decreases |Hooks(b, i)| - h
  {
    if h < |Hooks(b, i)| { ThroughAll(b, i, h + 1); }
  }

  lemma {:induction false} OpenUpTo(b: Bulk, i: nat, j: nat)
    requires ExactlyOnce(b) && i <= j < |b.builders|
    ensures Open(b, i, 0, j) == (j < FirstUnsound(b, i))
    decreases j - i
  {
    hide Through, Looked;
    ThroughAll(b, i, 0);
    if i < j { OpenUpTo(b, i + 1, j); }
  }

  lemma {:induction false} SucceedsTurned(b: Bulk, i: nat, h: nat, stored: bool)
    requires ExactlyOnce(b) && i < |b.builders| && h <= |Hooks(b, i)|
    ensures Succeeds(b, i, h, stored)
         == Turned(Hooks(b, i), h, Sound(b.schema, Looked(b, i)) && RestSucceeds(b, i, stored))
    decreases |Hooks(b, i)| - h
  {
    hide Looked;
    if h < |Hooks(b, i)| { SucceedsTurned(b, i, h + 1, stored); }
  }

  lemma {:induction false} FirstUnsoundAt(b: Bulk, i: nat, j: nat)
    requires i <= j < |b.builders| && j <= FirstUnsound(b, i)
    ensures FirstUnsound(b, i) == FirstUnsound(b, j)
    ensures Sound(b.schema, Looked(b, j)) <==> j < FirstUnsound(b, i)
    decreases j - i
  {
    hide Looked;
    if i < j { FirstUnsoundAt(b, i + 1, j); }
  }

  /** No builder from the i-th on, up to the first whose check fails, turns the outcome into its opposite. */
  ghost predicate Faithful(b: Bulk, i: nat) {
    forall k | i <= k < |b.builders| && k <= FirstUnsound(b, 0) :: Turned(Hooks(b, k), 0, Stores(b)) == Stores(b)
  }

  lemma {:induction false} FaithfulSucceeds(b: Bulk, i: nat)
    requires ExactlyOnce(b) && i < |b.builders| && i <= FirstUnsound(b, 0) && Faithful(b, i)
    ensures Succeeds(b, i, 0, FirstAnswer(b).Stored?) == Stores(b)
    decreases |b.builders| - i
  {
    hide Looked, Succeeds, Turned, FirstUnsound;
    var stored := FirstAnswer(b).Stored?;
    SucceedsTurned(b, i, 0, stored);
    FirstUnsoundAt(b, 0, i);
    if i < FirstUnsound(b, 0) && i + 1 < |b.builders| { FaithfulSucceeds(b, i + 1); }
  }

  lemma {:induction false} DoneAt(b: Bulk, j: nat)
    requires ExactlyOnce(b) && j < |b.builders|
    ensures Done(Save(b).state, j) == (j < FirstUnsound(b, 0) && RestSucceeds(b, j, FirstAnswer(b).Stored?))
  {
    hide Looked, Save, Done, RestSucceeds, Open;
    assert AtMostOnce(b);
    DoneExactly(b, j);
    OpenUpTo(b, 0, j);
  }

  lemma {:induction false} FaithfulDone(b: Bulk, j: nat)
    requires ExactlyOnce(b) && j < |b.builders| && Faithful(b, 1)
    ensures Done(Save(b).state, j) == (j < FirstUnsound(b, 0) && Stores(b))
  {
    hide Looked, Save, Done, Turned, FirstUnsound, Succeeds;
    DoneAt(b, j);
    if j < FirstUnsound(b, 0) && j + 1 < |b.builders| { FaithfulSucceeds(b, j + 1); }
  }

  /** A save that is all-or-nothing keeps the outcome at every builder but the first. */
  lemma {:induction false} TurnedBack(b: Bulk, i: nat)
    requires ExactlyOnce(b) && 1 <= i < |b.builders| && i <= FirstUnsound(b, 0)
    requires AllDone(b, Save(b).state) || NoneDone(b, Save(b).state)
    ensures Turned(Hooks(b, i), 0, Stores(b)) == Stores(b)
  {
    hide Looked, Save, Done, Turned, FirstUnsound, Succeeds, Fits;
    var stored := FirstAnswer(b).Stored?;
    DoneAt(b, i - 1);
    DoneAt(b, i);
    DoneAt(b, |b.builders| - 1);
    SucceedsTurned(b, i, 0, stored);
    FirstUnsoundAt(b, 0, i);
  }

  /** With hooks that call next exactly once, the save is all-or-nothing exactly when no builder but the first has
      hooks that turn a stored batch into an error, or a failure into a success. */
  lemma {:induction false} AllOrNothing(b: Bulk)
    requires ExactlyOnce(b) && b.builders != []
    ensures var s := Save(b).state;
            AllDone(b, s) || NoneDone(b, s) <==> Faithful(b, 1)
  {
    hide Save, Done, Turned, FirstUnsound, Stores;
    var s := Save(b).state;
    if Faithful(b, 1) {
      forall j | 0 <= j < |b.builders| ensures Done(s, j) == (j < FirstUnsound(b, 0) && Stores(b)) {
        FaithfulDone(b, j);
      }
      StoresAll(b);
    }
    if AllDone(b, s) || NoneDone(b, s) {
      forall k | 1 <= k < |b.builders| && k <= FirstUnsound(b, 0)
        ensures Turned(Hooks(b, k), 0, Stores(b)) == Stores(b)
      {
        TurnedBack(b, k);
      }
    }
  }

  lemma StoresAll(b: Bulk)
    ensures Stores(b) ==> FirstUnsound(b, 0) == |b.builders|
  {
  }

  /** Hooks that call next once and pass its result on. */
  ghost predicate Transparent(b: Bulk) {
    forall i, h | 0 <= i < |b.builders| && 0 <= h < |Hooks(b, i)| ::
      var k := Hooks(b, i)[h];
      !k.refuses && k.calls == 1 && !k.swallows && !k.fails
  }

  lemma {:induction false} TransparentTurned(b: Bulk, i: nat, h: nat, ok: bool)
    requires Transparent(b) && i < |b.builders| && h <= |Hooks(b, i)|
    ensures Turned(Hooks(b, i), h, ok) == ok
    decreases |Hooks(b, i)| - h
  {
    if h < |Hooks(b, i)| { TransparentTurned(b, i, h + 1, ok); }
  }

  /** With hooks that only look or edit, a save succeeds exactly when every check passes and the database takes the
      batch; then every mutation is marked and every node has its id, and otherwise none is marked. */
  lemma {:induction false} TransparentSave(b: Bulk)
    requires Transparent(b) && b.builders != []
    ensures var r := Save(b);
            && (r.err.None? <==> Stores(b))
            && (Stores(b) ==> AllDone(b, r.state)) && (!Stores(b) ==> NoneDone(b, r.state))
            && (Stores(b) ==> forall j | 0 <= j < |b.builders| ::
                  r.state.nodes[j] == Some(Account(Contribution(b, j), Given(b, 0, 0, j, Start(b)))))
  {
    hide Save, Done, Turned, FirstUnsound, Stores, Given, Contribution;
    assert ExactlyOnce(b) && AtMostOnce(b);
    forall k | 0 <= k < |b.builders| ensures Turned(Hooks(b, k), 0, Stores(b)) == Stores(b) {
      TransparentTurned(b, k, 0, Stores(b));
    }
    assert Faithful(b, 0) && Faithful(b, 1);
    forall j | 0 <= j < |b.builders|
      ensures Done(Save(b).state, j) == (j < FirstUnsound(b, 0) && Stores(b))
      ensures Done(Save(b).state, j) ==>
        Save(b).state.nodes[j] == Some(Account(Contribution(b, j), Given(b, 0, 0, j, Start(b))))
    {
      FaithfulDone(b, j);
      DoneExactly(b, j);
    }
    StoresAll(b);
    SaveOnce(b);
    FaithfulSucceeds(b, 0);
    assert Save(b).err.None? == Succeeds(b, 0, 0, FirstAnswer(b).Stored?);
  }

  // ----- Defaults and checks

  lemma {:induction false} DefaultsFill(schema: Schema, f: Fields, k: nat)
    requires k <= |DEFAULTED|
    requires forall j | k <= j < |DEFAULTED| :: DEFAULTED[j] in schema.defaults
    ensures var g := Defaults(schema, f, k);
            && (forall j | k <= j < |DEFAULTED| :: DEFAULTED[j] in g)
            && (forall x | x in f :: x in g && g[x] == f[x])
            && (forall x | x in g && x !in f :: x in schema.defaults && g[x] == schema.defaults[x])
    decreases |DEFAULTED| - k
  {
    if k < |DEFAULTED| {
      if DEFAULTED[k] in f {
        DefaultsFill(schema, f, k + 1);
      } else {
        DefaultsFill(schema, f[DEFAULTED[k] := schema.defaults[DEFAULTED[k]]], k + 1);
      }
    }
  }

  lemma {:induction false} FaultFound(schema: Schema, f: Fields, k: nat)
    requires k <= |CHECKED|
    ensures match Fault(schema, f, k)
            case None => forall j | k <= j < |CHECKED| :: !Faulty(schema, f, CHECKED[j])
            case Some(x) => Faulty(schema, f, x)
    decreases |CHECKED| - k
  {
    hide Faulty;
    if k < |CHECKED| && !Faulty(schema, f, CHECKED[k]) { FaultFound(schema, f, k + 1); }
  }

  lemma {:induction false} CheckedAt(x: Field) returns (k: int)
    requires x in REQUIRED || x in VALIDATED
    ensures 0 <= k < |CHECKED| && CHECKED[k] == x
  {
    k := match x
      case CreatedAt => 0 case UpdatedAt => 1 case Name => 2 case Platform => 3 case Type => 4
      case Credentials => 5 case Extra => 6 case Concurrency => 7 case Priority => 8
      case RateMultiplier => 9 case Status => 10 case AutoPauseOnExpired => 11 case Schedulable => 12
      case SessionWindowStatus => 13 case _ => 14;
  }

  /** The checks pass exactly when every required column is present and no validator refuses a value. */
  lemma {:induction false} SoundExactly(schema: Schema, f: Fields)
    ensures Sound(schema, f)
       <==> (forall x | x in REQUIRED :: x in f) && forall x | x in VALIDATED && x in f :: schema.accepts(x, f[x])
  {
    FaultFound(schema, f, 0);
    if Sound(schema, f) {
      forall x | x in REQUIRED || x in VALIDATED ensures !Faulty(schema, f, x) {
        var k := CheckedAt(x);
        assert !Faulty(schema, f, CHECKED[k]);
      }
    }
  }

  /** When all defaults are initialised only the three columns without one can be found missing. */
  lemma {:induction false} PreparedFault(b: Bulk, i: nat)
    requires i < |b.builders| && forall j | 0 <= j < |DEFAULTED| :: DEFAULTED[j] in b.schema.defaults
    ensures var g := Prepared(b, i);
            match Fault(b.schema, g, 0)
            case None => true
            case Some(x) => if x in g then !b.schema.accepts(x, g[x]) else x == Name || x == Platform || x == Type
  {
    hide Defaults;
    DefaultsFill(b.schema, b.builders[i].fields, 0);
    var g := Prepared(b, i);
    FaultFound(b.schema, g, 0);
    assert forall j | 0 <= j < |DEFAULTED| :: DEFAULTED[j] in g;
    assert DEFAULTED[0] in g && DEFAULTED[1] in g && DEFAULTED[2] in g && DEFAULTED[3] in g && DEFAULTED[4] in g
        && DEFAULTED[5] in g && DEFAULTED[6] in g && DEFAULTED[7] in g && DEFAULTED[8] in g && DEFAULTED[9] in g
        && DEFAULTED[10] in g;
  }
}
