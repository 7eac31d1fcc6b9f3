/** Which error a bulk save reports. */
module BulkErrors {
  import opened PyText
  import opened BulkCreate

  // ----- Any hooks

  /** What an error says is so. */
  ghost predicate Explained(b: Bulk, writes: nat, err: Option<Error>) {
    match err
    case None => true
    case Some(Invalid(i, x)) => i < |b.builders| && x in CHECKED
    case Some(HookError(i, h)) =>
      i < |b.builders| && h < |Hooks(b, i)| && (Hooks(b, i)[h].refuses || Hooks(b, i)[h].fails)
    case Some(WriteError(c)) => exists w | 0 <= w < writes :: AnswerAt(b, w) == Refused(c)
  }

  lemma ExplainedLater(b: Bulk, m: nat, n: nat, err: Option<Error>)
    requires Explained(b, m, err) && m <= n
    ensures Explained(b, n, err)
  {
  }

  lemma {:induction false} FaultChecked(schema: Schema, f: Fields, k: nat)
    requires k <= |CHECKED|
    ensures Fault(schema, f, k).Some? ==> Fault(schema, f, k).value in CHECKED
    decreases |CHECKED| - k
  {
    hide Faulty, CHECKED;
    if k < |CHECKED| { FaultChecked(schema, f, k + 1); }
  }

  lemma {:induction false} MutateExplained(b: Bulk, i: nat, h: nat, m: nat, s: State)
    requires Fits(b, s) && i < |b.builders| && h <= |Hooks(b, i)| && m < |s.mutations|
    ensures var r := Mutate(b, i, h, m, s);
            |s.writes| <= |r.state.writes| && Explained(b, |r.state.writes|, r.err)
    decreases |b.builders| - i, |Hooks(b, i)| - h, 2
  {
    hide Inner, Calls;
    if h == |Hooks(b, i)| {
      InnerExplained(b, i, m, s);
    } else {
      var k, s0 := Hooks(b, i)[h], Log(s, Enter(i, h));
      var (t, n) := Passing(k, m, s0);
      CallsExplained(b, i, h, k.calls, n, t);
    }
  }

  lemma {:induction false} CallsExplained(b: Bulk, i: nat, h: nat, c: nat, m: nat, s: State)
    requires Fits(b, s) && i < |b.builders| && h < |Hooks(b, i)| && m < |s.mutations|
    ensures var r := Calls(b, i, h, c, m, s);
            |s.writes| <= |r.state.writes| && Explained(b, |r.state.writes|, r.err)
    decreases |b.builders| - i, |Hooks(b, i)| - h, 0, c
  {
    hide Mutate, Explained;
    if c == 0 {
      assert Explained(b, |s.writes|, None) by { NoError(b, |s.writes|); }
    } else {
      CallsExplained(b, i, h, c - 1, m, s);
      var r := Calls(b, i, h, c - 1, m, s);
      MutateExplained(b, i, h + 1, m, r.state);
    }
  }

  lemma NoError(b: Bulk, writes: nat)
    ensures Explained(b, writes, None)
  {
  }

  lemma {:induction false} InnerExplained(b: Bulk, i: nat, m: nat, s: State)
    requires Fits(b, s) && i < |b.builders| && m < |s.mutations|
    ensures var r := Inner(b, i, m, s);
            |s.writes| <= |r.state.writes| && Explained(b, |r.state.writes|, r.err)
    decreases |b.builders| - i, 0, 1
  {
    hide Mutate, Fault;
    FaultChecked(b.schema, s.mutations[s.own[i]].fields, 0);
    var t := Adopt(i, m, s);
    if i + 1 < |b.builders| {
      MutateExplained(b, i + 1, 0, t.own[i + 1], t);
    } else {
      assert Reply(b, t) == AnswerAt(b, |t.writes|) && |Write(b, t).state.writes| == |t.writes| + 1;
    }
    var r := Next(b, i, t);
    assert |t.writes| <= |r.state.writes| && Explained(b, |r.state.writes|, r.err);
  }

  /** Whatever the hooks do: a hook's error names a hook that refuses or fails, and a write error is the kind of answer
      that the database gave to one of the batches. */
  lemma {:induction false} ErrorsExplained(b: Bulk)
    ensures Explained(b, |Save(b).state.writes|, Save(b).err)
  {
    hide Mutate;
    if b.builders != [] { MutateExplained(b, 0, 0, Start(b).own[0], Start(b)); }
  }

  // ----- Hooks that call next at most once

  /** From the h-th hook of builder i inwards to before the g-th hook of builder j: every hook lets the call through and
      its error out, and every check passes. */
  predicate Unhindered(b: Bulk, i: nat, h: nat, j: nat, g: nat)
    requires i <= j < |b.builders| && h <= |Hooks(b, i)| && g <= |Hooks(b, j)| && (i == j ==> h <= g)
    decreases j - i, |Hooks(b, i)| - h
  {
    if i == j && h == g then true
    else if h < |Hooks(b, i)| then
      var k := Hooks(b, i)[h];
      !k.refuses && k.calls == 1 && !k.swallows && Unhindered(b, i, h + 1, j, g)
    else i < j && Sound(b.schema, Looked(b, i)) && Unhindered(b, i + 1, 0, j, g)
  }

  /** The hook raises its own error: it refuses, or fails over a success or an error that it hides. */
  predicate Raises(b: Bulk, j: nat, g: nat, stored: bool)
    requires j < |b.builders| && g < |Hooks(b, j)|
  {
    var k := Hooks(b, j)[g];
    k.refuses || (k.fails && (k.calls == 0 || k.swallows || Succeeds(b, j, g + 1, stored)))
  }

  /** The error that comes out of builder i's mutator from its h-th hook inwards. */
  function Outcome(b: Bulk, i: nat, h: nat, answer: Answer): Option<Error>
    requires i < |b.builders| && h <= |Hooks(b, i)|
    decreases |b.builders| - i, |Hooks(b, i)| - h
  {
    if h == |Hooks(b, i)| then
      match Fault(b.schema, Looked(b, i), 0)
      case Some(x) => Some(Invalid(i, x))
      case None =>
        if i + 1 < |b.builders| then Outcome(b, i + 1, 0, answer)
        else if answer.Refused? then Some(WriteError(answer.constraint))
        else None
    else
      var k := Hooks(b, i)[h];
      if k.refuses then Some(HookError(i, h))
      else
        var err := if k.calls == 0 then None else Outcome(b, i, h + 1, answer);
        if err.Some? && !k.swallows then err else if k.fails then Some(HookError(i, h)) else None
  }

  lemma {:induction false} MutateOutcome(b: Bulk, i: nat, h: nat, m: nat, s: State)
    requires AtMostOnce(b) && Ready(b, i, h, m, s)
    ensures Mutate(b, i, h, m, s).err == Outcome(b, i, h, Reply(b, s))
    decreases |b.builders| - i, |Hooks(b, i)| - h, 2
  {
    hide Inner, Calls, Fault, Looked;
    if h == |Hooks(b, i)| {
      InnerOutcome(b, i, m, s);
    } else if !Hooks(b, i)[h].refuses {
      var k, s0 := Hooks(b, i)[h], Log(s, Enter(i, h));
      var (t, n) := Passing(k, m, s0);
      PassingReady(b, i, h, m, s);
      assert Reply(b, t) == Reply(b, s);
      if k.calls == 1 {
        OneCall(b, i, h, n, t);
        MutateOutcome(b, i, h + 1, n, t);
        assert Calls(b, i, h, k.calls, n, t).err == Outcome(b, i, h + 1, Reply(b, s));
      } else {
        NoCall(b, i, h, n, t);
      }
    }
  }

  lemma NoCall(b: Bulk, i: nat, h: nat, m: nat, s: State)
    requires Fits(b, s) && i < |b.builders| && h < |Hooks(b, i)| && m < |s.mutations|
    ensures Calls(b, i, h, 0, m, s) == Out(None, s)
  {
    hide Mutate;
  }

  lemma {:induction false} InnerOutcome(b: Bulk, i: nat, m: nat, s: State)
    requires AtMostOnce(b) && i < |b.builders| && Ready(b, i, |Hooks(b, i)|, m, s)
    ensures Inner(b, i, m, s).err == Outcome(b, i, |Hooks(b, i)|, Reply(b, s))
    decreases |b.builders| - i, 0, 1
  {
    hide Mutate, Fault, Prepared, Arriving, Contribution, Looked;
    assert s.mutations[s.own[i]].fields == Looked(b, i);
    var t := Adopt(i, m, s);
    assert Reply(b, t) == Reply(b, s);
    if i + 1 < |b.builders| && Fault(b.schema, Looked(b, i), 0).None? {
      AdoptReady(b, i, m, s);
      MutateOutcome(b, i + 1, 0, i + 1, t);
    }
  }

  lemma {:induction false} OutcomeNone(b: Bulk, i: nat, h: nat, answer: Answer)
    requires i < |b.builders| && h <= |Hooks(b, i)|
    ensures Outcome(b, i, h, answer).None? <==> Succeeds(b, i, h, answer.Stored?)
    decreases |b.builders| - i, |Hooks(b, i)| - h
  {
    hide Looked, Fault;
    if h < |Hooks(b, i)| {
      OutcomeNone(b, i, h + 1, answer);
    } else if i + 1 < |b.builders| {
      OutcomeNone(b, i + 1, 0, answer);
    }
  }

  lemma {:induction false} OutcomeHook(b: Bulk, i: nat, h: nat, j: nat, g: nat, answer: Answer)
    requires i <= j < |b.builders| && h <= |Hooks(b, i)| && g < |Hooks(b, j)| && (i == j ==> h <= g)
    requires AtMostOnce(b)
    ensures Outcome(b, i, h, answer) == Some(HookError(j, g)) <==>
              Unhindered(b, i, h, j, g) && Raises(b, j, g, answer.Stored?)
    decreases j - i, |Hooks(b, i)| - h
  {
    hide Looked, Fault, Succeeds;
    if h < |Hooks(b, i)| {
      OutcomeNone(b, i, h + 1, answer);
      if i == j && h == g {
        OutcomeBeyond(b, i, h + 1, j, g, answer);
      } else {
        OutcomeHook(b, i, h + 1, j, g, answer);
      }
    } else {
      OutcomeHook(b, i + 1, 0, j, g, answer);
    }
  }

  /** An error from further in is not that of a hook further out. */
  lemma {:induction false} OutcomeBeyond(b: Bulk, i: nat, h: nat, j: nat, g: nat, answer: Answer)
    requires i < |b.builders| && h <= |Hooks(b, i)| && (j < i || (j == i && g < h))
    ensures Outcome(b, i, h, answer) != Some(HookError(j, g))
    decreases |b.builders| - i, |Hooks(b, i)| - h
  {
    hide Looked, Fault;
    if h < |Hooks(b, i)| {
      OutcomeBeyond(b, i, h + 1, j, g, answer);
    } else if i + 1 < |b.builders| {
      OutcomeBeyond(b, i + 1, 0, j, g, answer);
    }
  }

  lemma OutcomeEnd(b: Bulk, i: nat, answer: Answer)
    requires i < |b.builders|
    ensures var fault := Fault(b.schema, Looked(b, i), 0);
            Outcome(b, i, |Hooks(b, i)|, answer) ==
              if fault.Some? then Some(Invalid(i, fault.value))
              else if i + 1 < |b.builders| then Outcome(b, i + 1, 0, answer)
              else if answer.Refused? then Some(WriteError(answer.constraint))
              else None
  {
    hide Looked, Fault;
  }

  lemma {:induction false} OutcomeCheck(b: Bulk, i: nat, h: nat, j: nat, x: Field, answer: Answer)
    requires AtMostOnce(b) && i <= j < |b.builders| && h <= |Hooks(b, i)|
    ensures Outcome(b, i, h, answer) == Some(Invalid(j, x)) <==>
              Unhindered(b, i, h, j, |Hooks(b, j)|) && Fault(b.schema, Looked(b, j), 0) == Some(x)
    decreases j - i, |Hooks(b, i)| - h
  {
    hide Looked, Fault;
    if h < |Hooks(b, i)| {
      OutcomeCheck(b, i, h + 1, j, x, answer);
    } else {
      OutcomeEnd(b, i, answer);
      hide Outcome, AtMostOnce;
      if i < j {
        OutcomeCheck(b, i + 1, 0, j, x, answer);
      } else if i + 1 < |b.builders| {
        NoEarlierCheck(b, i + 1, 0, j, x, answer);
      }
    }
  }

  lemma {:induction false} NoEarlierCheck(b: Bulk, i: nat, h: nat, j: nat, x: Field, answer: Answer)
    requires j < i < |b.builders| && h <= |Hooks(b, i)|
    ensures Outcome(b, i, h, answer) != Some(Invalid(j, x))
    decreases |b.builders| - i, |Hooks(b, i)| - h
  {
    hide Looked, Fault;
    if h < |Hooks(b, i)| {
      NoEarlierCheck(b, i, h + 1, j, x, answer);
    } else if i + 1 < |b.builders| {
      NoEarlierCheck(b, i + 1, 0, j, x, answer);
    }
  }

  lemma {:induction false} OutcomeWrite(b: Bulk, i: nat, h: nat, c: bool, answer: Answer)
    requires AtMostOnce(b) && i < |b.builders| && h <= |Hooks(b, i)|
    ensures var last := |b.builders| - 1;
            Outcome(b, i, h, answer) == Some(WriteError(c)) <==>
              Unhindered(b, i, h, last, |Hooks(b, last)|) && Sound(b.schema, Looked(b, last)) && answer == Refused(c)
    decreases |b.builders| - i, |Hooks(b, i)| - h
  {
    hide Looked, Fault;
    if h < |Hooks(b, i)| {
      OutcomeWrite(b, i, h + 1, c, answer);
    } else if i + 1 < |b.builders| {
      OutcomeWrite(b, i + 1, 0, c, answer);
    }
  }

  lemma {:induction false} SaveOutcome(b: Bulk)
    requires AtMostOnce(b) && b.builders != []
    ensures Save(b).err == Outcome(b, 0, 0, FirstAnswer(b))
  {
    hide Mutate, Ready;
    StartReady(b);
    MutateOutcome(b, 0, 0, 0, Start(b));
  }

  /** With hooks that call next at most once, the error a save reports: that of a hook which refuses, or fails where
      nothing from further in has failed before it; the first column that a check misses; or the kind of error that the
      database answers; and each of them exactly when nothing further out stops the call or hides the error. */
  lemma {:induction false} ErrorExactly(b: Bulk)
    requires AtMostOnce(b) && b.builders != []
    ensures Save(b).err.None? <==> Succeeds(b, 0, 0, FirstAnswer(b).Stored?)
    ensures forall j, g | 0 <= j < |b.builders| && 0 <= g < |Hooks(b, j)| ::
              Save(b).err == Some(HookError(j, g)) <==>
                Unhindered(b, 0, 0, j, g) && Raises(b, j, g, FirstAnswer(b).Stored?)
    ensures forall j, x | 0 <= j < |b.builders| ::
              Save(b).err == Some(Invalid(j, x)) <==>
                Unhindered(b, 0, 0, j, |Hooks(b, j)|) && Fault(b.schema, Looked(b, j), 0) == Some(x)
    ensures forall c ::
              Save(b).err == Some(WriteError(c)) <==>
                var last := |b.builders| - 1;
                Unhindered(b, 0, 0, last, |Hooks(b, last)|) && Sound(b.schema, Looked(b, last)) && FirstAnswer(b) == Refused(c)
  {
    hide Save, Outcome, Unhindered, Raises, Succeeds, Fault, Looked;
    SaveOutcome(b);
    OutcomeNone(b, 0, 0, FirstAnswer(b));
    forall j, g | 0 <= j < |b.builders| && 0 <= g < |Hooks(b, j)|
      ensures Save(b).err == Some(HookError(j, g)) <==>
                Unhindered(b, 0, 0, j, g) && Raises(b, j, g, FirstAnswer(b).Stored?)
    {
      OutcomeHook(b, 0, 0, j, g, FirstAnswer(b));
    }
    forall j, x | 0 <= j < |b.builders|
      ensures Save(b).err == Some(Invalid(j, x)) <==>
                Unhindered(b, 0, 0, j, |Hooks(b, j)|) && Fault(b.schema, Looked(b, j), 0) == Some(x)
    {
      OutcomeCheck(b, 0, 0, j, x, FirstAnswer(b));
    }
    forall c { OutcomeWrite(b, 0, 0, c, FirstAnswer(b)); }
  }

  // ----- Hooks that only look or edit

  /** The column a check reports is the first, in the order of the checks, that is missing or refused. */
  lemma {:induction false} FaultFirst(schema: Schema, f: Fields, k: nat, x: Field)
    requires k <= |CHECKED| && Fault(schema, f, k) == Some(x)
    ensures exists n | k <= n < |CHECKED| ::
              CHECKED[n] == x && Faulty(schema, f, x) && forall j | k <= j < n :: !Faulty(schema, f, CHECKED[j])
    decreases |CHECKED| - k
  {
    hide Faulty, CHECKED;
    if Faulty(schema, f, CHECKED[k]) {
      assert CHECKED[k] == x;
    } else {
      FaultFirst(schema, f, k + 1, x);
    }
  }

  /** The error of the first unsound builder from the i-th on, or what the database makes of the batch. */
  function PlainError(b: Bulk, i: nat, answer: Answer): Option<Error>
    requires i <= |b.builders|
  {
    var n := FirstUnsound(b, i);
    if n < |b.builders| then
      match Fault(b.schema, Looked(b, n), 0) case Some(x) => Some(Invalid(n, x)) case None => None
    else
      match answer case Stored(_) => None case Refused(c) => Some(WriteError(c))
  }

  lemma {:induction false} TransparentOutcome(b: Bulk, i: nat, h: nat, answer: Answer)
    requires Transparent(b) && i < |b.builders| && h <= |Hooks(b, i)|
    ensures Outcome(b, i, h, answer) == PlainError(b, i, answer)
    decreases |b.builders| - i, |Hooks(b, i)| - h
  {
    hide Looked, Fault;
    if h < |Hooks(b, i)| {
      TransparentOutcome(b, i, h + 1, answer);
    } else if i + 1 < |b.builders| {
      TransparentOutcome(b, i + 1, 0, answer);
    }
  }

  /** With hooks that only look or edit: the first faulty column of the first unsound builder, else what the database
      answers. */
  lemma {:induction false} TransparentError(b: Bulk)
    requires Transparent(b) && b.builders != []
    ensures var i := FirstUnsound(b, 0);
            if i < |b.builders| then
              exists x :: Fault(b.schema, Looked(b, i), 0) == Some(x) && Save(b).err == Some(Invalid(i, x))
            else
              Save(b).err == match FirstAnswer(b) case Stored(_) => None case Refused(c) => Some(WriteError(c))
  {
    hide Save, Outcome, Fault, Looked;
    assert AtMostOnce(b);
    SaveOutcome(b);
    TransparentOutcome(b, 0, 0, FirstAnswer(b));
    var i := FirstUnsound(b, 0);
    if i < |b.builders| {
      FirstUnsoundAt(b, 0, i);
      assert Fault(b.schema, Looked(b, i), 0).Some?;
    }
  }
}
