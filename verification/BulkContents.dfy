/** What the batches of a bulk save hold, and whether it was checked. */
module BulkContents {
  import opened PyText
  import opened BulkCreate

  // ----- Running hooks again

  predicate Touches(hooks: seq<Hook>, h: nat, x: Field)
    requires h <= |hooks|
    decreases |hooks| - h
  {
    h < |hooks| && (x in hooks[h].sets || x in hooks[h].clears || Touches(hooks, h + 1, x))
  }

  ghost predicate AgreeAt(f: Fields, g: Fields, x: Field) {
    (x in f <==> x in g) && (x in f ==> f[x] == g[x])
  }

  /** A column that no hook touches keeps its value, and a column that one touches ends the same from anywhere. */
  lemma {:induction false} ArrivingAt(hooks: seq<Hook>, h: nat, f: Fields, g: Fields, x: Field)
    requires h <= |hooks|
    ensures !Touches(hooks, h, x) ==> AgreeAt(Arriving(hooks, h, f), f, x)
    ensures Touches(hooks, h, x) ==> AgreeAt(Arriving(hooks, h, f), Arriving(hooks, h, g), x)
    decreases |hooks| - h
  {
    if h < |hooks| {
      var f', g' := Edit(hooks[h], f), Edit(hooks[h], g);
      ArrivingAt(hooks, h + 1, f', g', x);
      ArrivingAt(hooks, h + 1, g', f', x);
    }
  }

  /** Fields that end as `c` from the next hook on do so from this one on, if `c` itself does. */
  lemma {:induction false} ArrivesFromBefore(hooks: seq<Hook>, h: nat, f: Fields, c: Fields)
    requires h < |hooks| && Arriving(hooks, h + 1, f) == c && Arriving(hooks, h, c) == c
    ensures Arriving(hooks, h, f) == c
  {
    hide Arriving, Edit;
    forall x ensures AgreeAt(Arriving(hooks, h, f), c, x) {
      ArrivingAt(hooks, h, f, c, x);
      ArrivingAt(hooks, h + 1, f, c, x);
    }
    SameFields(Arriving(hooks, h, f), c);
  }

  lemma SameFields(f: Fields, g: Fields)
    requires forall x :: AgreeAt(f, g, x)
    ensures f == g
  {
    forall x ensures (x in f <==> x in g) && (x in f ==> f[x] == g[x]) { assert AgreeAt(f, g, x); }
  }

  /** What all hooks together make of some fields stays when any of them are run again. */
  lemma {:induction false} ArrivesAgain(hooks: seq<Hook>, h: nat, f: Fields)
    requires h <= |hooks|
    ensures var c := Arriving(hooks, 0, f); Arriving(hooks, h, c) == c
  {
    hide Arriving, Edit;
    var c := Arriving(hooks, 0, f);
    forall x ensures AgreeAt(Arriving(hooks, h, c), c, x) { ArrivedAt(hooks, 0, h, f, x); }
    SameFields(Arriving(hooks, h, c), c);
  }

  lemma {:induction false} ArrivedAt(hooks: seq<Hook>, h: nat, k: nat, f: Fields, x: Field)
    requires h <= k <= |hooks|
    ensures var c := Arriving(hooks, h, f); AgreeAt(Arriving(hooks, k, c), c, x)
    decreases k - h
  {
    hide Edit;
    var c := Arriving(hooks, h, f);
    if h < k {
      ArrivedAt(hooks, h + 1, k, Edit(hooks[h], f), x);
    } else {
      ArrivingAt(hooks, h, c, f, x);
    }
  }

  lemma ContributionAgain(b: Bulk, i: nat, h: nat)
    requires i < |b.builders| && h <= |Hooks(b, i)|
    ensures Arriving(Hooks(b, i), h, Contribution(b, i)) == Contribution(b, i)
  {
    hide Arriving;
    ArrivesAgain(Hooks(b, i), h, Prepared(b, i));
  }

  // ----- What is checked and what is written

  /** The first hook from the h-th on that hands on a copy. */
  function FirstCopy(hooks: seq<Hook>, h: nat): (c: nat)
    requires h <= |hooks|
    ensures h <= c <= |hooks|
    decreases |hooks| - h
  {
    if h == |hooks| || hooks[h].copies then h else FirstCopy(hooks, h + 1)
  }

  /** What is written is what was checked, edited by the hooks from the first copying one on. */
  lemma {:induction false} CopyEdits(hooks: seq<Hook>, h: nat, f: Fields)
    requires h <= |hooks|
    ensures Arriving(hooks, h, f) == Arriving(hooks, FirstCopy(hooks, h), Examined(hooks, h, f))
    decreases |hooks| - h
  {
    hide Edit;
    if h < |hooks| && !hooks[h].copies { CopyEdits(hooks, h + 1, Edit(hooks[h], f)); }
  }

  /** The fields a builder has written are the fields that were checked exactly when the hooks from the first copying
      one on leave the fields that reach it unchanged; without copying hooks they always are. */
  lemma {:induction false} CheckedIsWritten(b: Bulk, i: nat)
    requires i < |b.builders|
    ensures var hooks, f := Hooks(b, i), Looked(b, i);
            && (Contribution(b, i) == f <==> Arriving(hooks, FirstCopy(hooks, 0), f) == f)
            && (FirstCopy(hooks, 0) == |hooks| ==> Contribution(b, i) == f)
  {
    hide Examined, Prepared;
    CopyEdits(Hooks(b, i), 0, Prepared(b, i));
  }

  // ----- What every batch holds, whatever the hooks

  /** The spec of each builder holds what the builder contributed. */
  ghost predicate AsContributed(b: Bulk, specs: seq<Option<Spec>>) {
    && |specs| == |b.builders|
    && forall j | 0 <= j < |specs| && specs[j].Some? :: specs[j].value.fields == Contribution(b, j)
  }

  /** However far builder j's hooks have edited these fields, all of them together make them its contribution. */
  ghost predicate Steady(b: Bulk, j: nat, f: Fields) {
    j < |b.builders| && Arriving(Hooks(b, j), 0, f) == Contribution(b, j)
  }

  /** `who[k]` is the builder that mutation k was made for. */
  ghost predicate Tagged(b: Bulk, s: State, who: seq<nat>) {
    && Fits(b, s) && |who| == |s.mutations|
    && (forall k | 0 <= k < |who| :: Steady(b, who[k], s.mutations[k].fields))
    && (forall j | 0 <= j < |b.builders| :: who[s.own[j]] == j)
    && AsContributed(b, s.specs) && forall w | 0 <= w < |s.writes| :: AsContributed(b, s.writes[w])
  }

  ghost predicate AgreeBut(hooks: seq<Hook>, h: nat, f: Fields, g: Fields)
    requires h <= |hooks|
  {
    forall x | !Touches(hooks, h, x) :: AgreeAt(f, g, x)
  }

  /** Mutations of earlier builders keep their fields, and those of builder i all that the hooks from the h-th on do not
      touch. */
  ghost predicate Framed(b: Bulk, i: nat, h: nat, s: State, t: State, who: seq<nat>)
    requires i < |b.builders| && h <= |Hooks(b, i)|
  {
    && |who| == |s.mutations| <= |t.mutations|
    && forall k | 0 <= k < |who| ::
         && (who[k] < i ==> t.mutations[k].fields == s.mutations[k].fields)
         && (who[k] == i ==> AgreeBut(Hooks(b, i), h, t.mutations[k].fields, s.mutations[k].fields))
  }

  /** Fields that the hooks make `c` they still make `c` after any changes to columns that they touch. */
  lemma {:induction false} StillArrives(hooks: seq<Hook>, h: nat, f: Fields, g: Fields)
    requires h <= |hooks| && AgreeBut(hooks, h, g, f)
    ensures Arriving(hooks, h, g) == Arriving(hooks, h, f)
  {
    hide Arriving, Touches;
    forall x ensures AgreeAt(Arriving(hooks, h, g), Arriving(hooks, h, f), x) {
      ArrivingAt(hooks, h, f, g, x);
      ArrivingAt(hooks, h, g, f, x);
    }
    SameFields(Arriving(hooks, h, g), Arriving(hooks, h, f));
  }

  lemma {:induction false} TouchesEarlier(hooks: seq<Hook>, g: nat, h: nat, x: Field)
    requires g <= h <= |hooks| && Touches(hooks, h, x)
    ensures Touches(hooks, g, x)
    decreases h - g
  {
    if g < h { TouchesEarlier(hooks, g + 1, h, x); }
  }

  lemma AgreeEarlier(hooks: seq<Hook>, g: nat, h: nat, f: Fields, f': Fields)
    requires g <= h <= |hooks| && AgreeBut(hooks, h, f, f')
    ensures AgreeBut(hooks, g, f, f')
  {
    hide Touches;
    forall x | !Touches(hooks, g, x) ensures AgreeAt(f, f', x) {
      if Touches(hooks, h, x) { TouchesEarlier(hooks, g, h, x); }
    }
  }

  lemma EditAgrees(hooks: seq<Hook>, h: nat, f: Fields)
    requires h < |hooks|
    ensures AgreeBut(hooks, h, Edit(hooks[h], f), f)
  {
  }

  lemma EditSteady(b: Bulk, j: nat, h: nat, f: Fields)
    requires Steady(b, j, f) && h < |Hooks(b, j)|
    ensures Steady(b, j, Edit(Hooks(b, j)[h], f))
  {
    hide Arriving, Contribution, Edit, AgreeBut;
    var g := Edit(Hooks(b, j)[h], f);
    EditAgrees(Hooks(b, j), h, f);
    AgreeEarlier(Hooks(b, j), 0, h, g, f);
    StillArrives(Hooks(b, j), 0, f, g);
  }

  lemma AgreeChain(hooks: seq<Hook>, h: nat, f: Fields, g: Fields, k: Fields)
    requires h <= |hooks| && AgreeBut(hooks, h, g, f) && AgreeBut(hooks, h, k, g)
    ensures AgreeBut(hooks, h, k, f)
  {
    hide Touches;
    forall x | !Touches(hooks, h, x) ensures AgreeAt(k, f, x) { assert AgreeAt(g, f, x) && AgreeAt(k, g, x); }
  }

  lemma FramedChain(b: Bulk, i: nat, h: nat, s: State, t: State, u: State, who: seq<nat>, who': seq<nat>)
    requires i < |b.builders| && h <= |Hooks(b, i)| && who <= who'
    requires Framed(b, i, h, s, t, who) && Framed(b, i, h, t, u, who')
    ensures Framed(b, i, h, s, u, who)
  {
    hide AgreeBut;
    forall k | 0 <= k < |who|
      ensures who[k] < i ==> u.mutations[k].fields == s.mutations[k].fields
      ensures who[k] == i ==> AgreeBut(Hooks(b, i), h, u.mutations[k].fields, s.mutations[k].fields)
    {
      assert who'[k] == who[k];
      if who[k] == i {
        AgreeChain(Hooks(b, i), h, s.mutations[k].fields, t.mutations[k].fields, u.mutations[k].fields);
      }
    }
  }

  lemma FramedEarlier(b: Bulk, i: nat, g: nat, h: nat, s: State, t: State, who: seq<nat>)
    requires i < |b.builders| && g <= h <= |Hooks(b, i)| && Framed(b, i, h, s, t, who)
    ensures Framed(b, i, g, s, t, who)
  {
    hide AgreeBut;
    forall k | 0 <= k < |who| && who[k] == i
      ensures AgreeBut(Hooks(b, i), g, t.mutations[k].fields, s.mutations[k].fields)
    {
      AgreeEarlier(Hooks(b, i), g, h, t.mutations[k].fields, s.mutations[k].fields);
    }
  }

  lemma FramedSame(b: Bulk, i: nat, h: nat, s: State, t: State, who: seq<nat>)
    requires i < |b.builders| && h <= |Hooks(b, i)| && |who| == |s.mutations| <= |t.mutations|
    requires forall k | 0 <= k < |who| && who[k] <= i :: t.mutations[k].fields == s.mutations[k].fields
    ensures Framed(b, i, h, s, t, who)
  {
  }

  /** A hook's edit, of the mutation or of a copy. */
  lemma PassingTagged(b: Bulk, i: nat, h: nat, m: nat, s: State, who: seq<nat>)
    requires i < |b.builders| && h < |Hooks(b, i)| && Tagged(b, s, who) && m < |who| && who[m] == i
    requires Arriving(Hooks(b, i), h, s.mutations[m].fields) == Contribution(b, i)
    ensures var k := Hooks(b, i)[h];
            var (t, n) := Passing(k, m, Log(s, Enter(i, h)));
            var who' := if k.copies then who + [i] else who;
            && Tagged(b, t, who') && n < |who'| && who'[n] == i && Framed(b, i, h, s, t, who)
            && Arriving(Hooks(b, i), h + 1, t.mutations[n].fields) == Contribution(b, i)
  {
    hide Contribution, Edit, Steady, AsContributed, AgreeBut;
    var k, f := Hooks(b, i)[h], s.mutations[m].fields;
    EditSteady(b, i, h, f);
    EditAgrees(Hooks(b, i), h, f);
    assert Arriving(Hooks(b, i), h + 1, Edit(k, f)) == Contribution(b, i);
    hide Arriving;
    var (t, n) := Passing(k, m, Log(s, Enter(i, h)));
    forall j | 0 <= j < |who|
      ensures who[j] == i ==> AgreeBut(Hooks(b, i), h, t.mutations[j].fields, s.mutations[j].fields)
    {
      AgreeSame(Hooks(b, i), h, s.mutations[j].fields);
    }
  }

  lemma AgreeSame(hooks: seq<Hook>, h: nat, f: Fields)
    requires h <= |hooks|
    ensures AgreeBut(hooks, h, f, f)
  {
  }

  lemma {:induction false} MutateTagged(b: Bulk, i: nat, h: nat, m: nat, s: State, who: seq<nat>)
    returns (who': seq<nat>)
    requires i < |b.builders| && h <= |Hooks(b, i)| && Tagged(b, s, who) && m < |who| && who[m] == i
    requires Arriving(Hooks(b, i), h, s.mutations[m].fields) == Contribution(b, i)
    ensures var t := Mutate(b, i, h, m, s).state;
            Tagged(b, t, who') && who <= who' && Framed(b, i, h, s, t, who)
    decreases |b.builders| - i, |Hooks(b, i)| - h, 2
  {
    hide Inner, Calls, Contribution, Arriving, Steady, AsContributed, Framed, Passing;
    var u := Mutate(b, i, h, m, s).state;
    if h == |Hooks(b, i)| {
      ArrivedAtEnd(Hooks(b, i), s.mutations[m].fields);
      who' := InnerTagged(b, i, m, s, who);
    } else {
      var k, s0 := Hooks(b, i)[h], Log(s, Enter(i, h));
      if k.refuses {
        who' := who;
        FramedSame(b, i, h, s, u, who);
      } else {
        PassingTagged(b, i, h, m, s, who);
        var (t, n) := Passing(k, m, s0);
        var mid := if k.copies then who + [i] else who;
        who' := CallsTagged(b, i, h, k.calls, n, t, mid);
        var v := Calls(b, i, h, k.calls, n, t).state;
        AroundState(b, i, h, m, s);
        FramedEarlier(b, i, h, h + 1, t, v, mid);
        FramedChain(b, i, h, s, t, v, who, mid);
        FramedLog(b, i, h, s, v, who, Exit(i, h));
      }
    }
  }

  lemma AroundState(b: Bulk, i: nat, h: nat, m: nat, s: State)
    requires Fits(b, s) && i < |b.builders| && h < |Hooks(b, i)| && m < |s.mutations| && !Hooks(b, i)[h].refuses
    ensures var (t, n) := Passing(Hooks(b, i)[h], m, Log(s, Enter(i, h)));
            Mutate(b, i, h, m, s).state == Log(Calls(b, i, h, Hooks(b, i)[h].calls, n, t).state, Exit(i, h))
  {
    hide Inner, Calls, Edit;
  }

  lemma FramedLog(b: Bulk, i: nat, h: nat, s: State, t: State, who: seq<nat>, e: Event)
    requires i < |b.builders| && h <= |Hooks(b, i)| && Framed(b, i, h, s, t, who)
    ensures Framed(b, i, h, s, Log(t, e), who)
  {
  }

  lemma ArrivedAtEnd(hooks: seq<Hook>, f: Fields)
    ensures Arriving(hooks, |hooks|, f) == f
  {
  }

  lemma {:induction false} CallsTagged(b: Bulk, i: nat, h: nat, c: nat, m: nat, s: State, who: seq<nat>)
    returns (who': seq<nat>)
    requires i < |b.builders| && h < |Hooks(b, i)| && Tagged(b, s, who) && m < |who| && who[m] == i
    requires Arriving(Hooks(b, i), h + 1, s.mutations[m].fields) == Contribution(b, i)
    ensures var t := Calls(b, i, h, c, m, s).state;
            Tagged(b, t, who') && who <= who' && Framed(b, i, h + 1, s, t, who)
    decreases |b.builders| - i, |Hooks(b, i)| - h, 0, c
  {
    hide Mutate, Contribution, Arriving, Steady, AsContributed;
    if c == 0 {
      who' := who;
      FramedSame(b, i, h + 1, s, s, who);
    } else {
      who' := CallsTagged(b, i, h, c - 1, m, s, who);
      var r := Calls(b, i, h, c - 1, m, s);
      if c == 1 || !Stops(Hooks(b, i)[h], r.err) {
        var mid, f, g := who', s.mutations[m].fields, r.state.mutations[m].fields;
        assert mid[m] == who[m] && AgreeBut(Hooks(b, i), h + 1, g, f);
        StillArrives(Hooks(b, i), h + 1, f, g);
        who' := MutateTagged(b, i, h + 1, m, r.state, mid);
        hide Framed, Calls;
        FramedChain(b, i, h + 1, s, r.state, Mutate(b, i, h + 1, m, r.state).state, who, mid);
      }
    }
  }

  lemma {:induction false} InnerTagged(b: Bulk, i: nat, m: nat, s: State, who: seq<nat>) returns (who': seq<nat>)
    requires i < |b.builders| && Tagged(b, s, who) && m < |who| && who[m] == i
    requires s.mutations[m].fields == Contribution(b, i)
    ensures var t := Inner(b, i, m, s).state;
            Tagged(b, t, who') && who <= who' && Framed(b, i, |Hooks(b, i)|, s, t, who)
    decreases |b.builders| - i, 0, 1
  {
    hide Mutate, Fault, Contribution, Arriving, AgreeBut;
    who' := who;
    var h := |Hooks(b, i)|;
    if Fault(b.schema, s.mutations[s.own[i]].fields, 0).Some? {
      FramedSame(b, i, h, s, Inner(b, i, m, s).state, who);
    } else {
      var t := Adopt(i, m, s);
      assert Tagged(b, t, who);
      var r := Next(b, i, t);
      if i + 1 < |b.builders| {
        assert Steady(b, i + 1, t.mutations[t.own[i + 1]].fields);
        who' := MutateTagged(b, i + 1, 0, t.own[i + 1], t, who);
      } else {
        WriteTagged(b, t, who);
      }
      assert Tagged(b, r.state, who') && forall k | 0 <= k < |who| && who[k] <= i ::
        r.state.mutations[k].fields == s.mutations[k].fields;
      hide Tagged, Next, Adopt;
      if r.err.None? { FinishTagged(b, i, m, r.state, who'); }
      FramedSame(b, i, h, s, Inner(b, i, m, s).state, who);
    }
  }

  lemma WriteTagged(b: Bulk, s: State, who: seq<nat>)
    requires Tagged(b, s, who)
    ensures Tagged(b, Write(b, s).state, who) && Write(b, s).state.mutations == s.mutations
  {
    hide Steady, Contribution;
  }

  lemma FinishTagged(b: Bulk, i: nat, m: nat, s: State, who: seq<nat>)
    requires Tagged(b, s, who) && i < |b.builders| && m < |s.mutations| && s.nodes[i].Some? && s.specs[i].Some?
    ensures var t := Finish(i, m, s);
            && Tagged(b, t, who) && |t.mutations| == |s.mutations|
            && forall k | 0 <= k < |s.mutations| :: t.mutations[k].fields == s.mutations[k].fields
  {
    hide Steady, AsContributed;
  }

  /** Whatever the hooks do, edit copies, repeat, retry, refuse or swallow: every batch of a save has a spec for every
      builder, with exactly what all the builder's hooks together make of its prepared fields. */
  lemma {:induction false} WritesContributions(b: Bulk)
    ensures forall w | 0 <= w < |Save(b).state.writes| ::
              Full(b, Save(b).state.writes[w]) && AsContributed(b, Save(b).state.writes[w])
  {
    hide Mutate, Prepared, Contribution;
    WritesFull(b);
    if b.builders != [] {
      var who := seq(|b.builders|, i requires 0 <= i < |b.builders| => i);
      forall j | 0 <= j < |b.builders| ensures Steady(b, j, Prepared(b, j)) { ContributionIs(b, j); }
      assert Tagged(b, Start(b), who);
      var _ := MutateTagged(b, 0, 0, 0, Start(b), who);
    }
  }

  lemma ContributionIs(b: Bulk, j: nat)
    requires j < |b.builders|
    ensures Contribution(b, j) == Arriving(Hooks(b, j), 0, Prepared(b, j))
  {
  }
  // ----- What has been checked, whatever the hooks

  /** The builder's own mutation, still the one it holds, is what the check is to look at once the hooks up to the first
      copying one have run; a mutation adopted in its place, or a spec, is a sign that the check has passed. */
  ghost predicate Viewed(b: Bulk, i: nat, s: State) {
    && Fits(b, s) && |b.builders| <= |s.mutations|
    && (forall j | 0 <= j < |b.builders| && s.own[j] != j :: s.own[j] >= |b.builders| && Sound(b.schema, Looked(b, j)))
    && (forall j | i < j < |b.builders| && s.own[j] == j ::
          Examined(Hooks(b, j), 0, s.mutations[j].fields) == Looked(b, j))
    && AllLooked(b, s.specs) && forall w | 0 <= w < |s.writes| :: AllLooked(b, s.writes[w])
  }

  ghost predicate AllLooked(b: Bulk, specs: seq<Option<Spec>>) {
    |specs| == |b.builders| && forall j | 0 <= j < |specs| && specs[j].Some? :: Sound(b.schema, Looked(b, j))
  }

  /** The call has reached the h-th hook of builder i with mutation m, the builder's own one or a copy. */
  ghost predicate InView(b: Bulk, i: nat, h: nat, m: nat, s: State)
    requires Fits(b, s) && i < |b.builders| <= |s.mutations| && h <= |Hooks(b, i)|
  {
    if m == i then
      h <= FirstCopy(Hooks(b, i), 0) && Examined(Hooks(b, i), h, s.mutations[i].fields) == Looked(b, i)
    else
      |b.builders| <= m < |s.mutations| && (s.own[i] == i ==> s.mutations[i].fields == Looked(b, i))
  }

  ghost predicate SameOwn(b: Bulk, i: nat, m: nat, s: State, t: State)
    requires Fits(b, s) && Fits(b, t) && i < |b.builders| <= |s.mutations| <= |t.mutations|
  {
    && (forall j | 0 <= j < i :: t.mutations[j].fields == s.mutations[j].fields && t.own[j] == s.own[j])
    && (m != i ==> t.mutations[i].fields == s.mutations[i].fields && (t.own[i] == i ==> s.own[i] == i))
  }

  lemma {:induction false} FirstCopyAt(hooks: seq<Hook>, g: nat, h: nat)
    requires g <= h < |hooks| && h <= FirstCopy(hooks, g)
    ensures hooks[h].copies <==> FirstCopy(hooks, g) == h
    decreases h - g
  {
    if g < h { FirstCopyAt(hooks, g + 1, h); }
  }

  /** The hooks ahead of the first copying one, seen by themselves. */
  lemma {:induction false} ExaminedArrives(hooks: seq<Hook>, h: nat, f: Fields)
    requires h <= FirstCopy(hooks, 0)
    ensures Examined(hooks, h, f) == Arriving(hooks[..FirstCopy(hooks, 0)], h, f)
    decreases |hooks| - h
  {
    hide Edit;
    var c := FirstCopy(hooks, 0);
    if h < |hooks| {
      FirstCopyAt(hooks, 0, h);
      if h < c {
        assert hooks[..c][h] == hooks[h];
        ExaminedArrives(hooks, h + 1, Edit(hooks[h], f));
      }
    }
  }

  /** Fields that are `Looked` from the next hook on are so from this one on. */
  lemma {:induction false} ExaminedBefore(b: Bulk, i: nat, h: nat, f: Fields)
    requires i < |b.builders| && h < FirstCopy(Hooks(b, i), 0) && Examined(Hooks(b, i), h + 1, f) == Looked(b, i)
    ensures Examined(Hooks(b, i), h, f) == Looked(b, i)
  {
    hide Arriving, Examined, Edit, FirstCopy;
    var hooks := Hooks(b, i);
    var pre, c := hooks[..FirstCopy(hooks, 0)], Looked(b, i);
    ExaminedArrives(hooks, 0, Prepared(b, i));
    ExaminedArrives(hooks, h, f);
    ExaminedArrives(hooks, h + 1, f);
    ArrivesAgain(pre, h, Prepared(b, i));
    ArrivesFromBefore(pre, h, f, c);
  }

  lemma {:induction false} MutateViewed(b: Bulk, i: nat, h: nat, m: nat, s: State)
    requires i < |b.builders| && h <= |Hooks(b, i)| && Viewed(b, i, s) && InView(b, i, h, m, s) && m < |s.mutations|
    ensures var t := Mutate(b, i, h, m, s).state;
            Viewed(b, i, t) && InView(b, i, h, m, t) && SameOwn(b, i, m, s, t)
    decreases |b.builders| - i, |Hooks(b, i)| - h, 2
  {
    hide Inner, Calls, Examined, Looked, Sound, Edit, FirstCopy;
    if h == |Hooks(b, i)| {
      InnerViewed(b, i, m, s);
    } else if !Hooks(b, i)[h].refuses {
      var k, s0 := Hooks(b, i)[h], Log(s, Enter(i, h));
      var (t, n) := Passing(k, m, s0);
      PassingViewed(b, i, h, m, s);
      CallsViewed(b, i, h, k.calls, n, t);
      PassedViewed(b, i, h, m, s, Calls(b, i, h, k.calls, n, t).state);
    }
  }

  lemma PassingViewed(b: Bulk, i: nat, h: nat, m: nat, s: State)
    requires i < |b.builders| && h < |Hooks(b, i)| && Viewed(b, i, s) && InView(b, i, h, m, s) && m < |s.mutations|
    ensures var (t, n) := Passing(Hooks(b, i)[h], m, Log(s, Enter(i, h)));
            Viewed(b, i, t) && InView(b, i, h + 1, n, t)
  {
    hide Looked, Sound, Edit;
    if m == i { FirstCopyAt(Hooks(b, i), 0, h); }
  }

  /** Behind a hook that has made its calls. */
  lemma PassedViewed(b: Bulk, i: nat, h: nat, m: nat, s: State, u: State)
    requires i < |b.builders| && h < |Hooks(b, i)| && Viewed(b, i, s) && InView(b, i, h, m, s) && m < |s.mutations|
    requires var (t, n) := Passing(Hooks(b, i)[h], m, Log(s, Enter(i, h)));
             && Fits(b, t) && Viewed(b, i, u) && |t.mutations| <= |u.mutations|
             && InView(b, i, h + 1, n, u) && SameOwn(b, i, n, t, u)
    ensures var v := Log(u, Exit(i, h));
            Viewed(b, i, v) && InView(b, i, h, m, v) && SameOwn(b, i, m, s, v)
  {
    hide Looked, Sound, Edit;
    if m == i {
      FirstCopyAt(Hooks(b, i), 0, h);
      if !Hooks(b, i)[h].copies { ExaminedBefore(b, i, h, u.mutations[i].fields); }
    }
  }

  lemma {:induction false} CallsViewed(b: Bulk, i: nat, h: nat, c: nat, m: nat, s: State)
    requires i < |b.builders| && h < |Hooks(b, i)| && Viewed(b, i, s) && InView(b, i, h + 1, m, s) && m < |s.mutations|
    ensures var t := Calls(b, i, h, c, m, s).state;
            Viewed(b, i, t) && InView(b, i, h + 1, m, t) && SameOwn(b, i, m, s, t)
    decreases |b.builders| - i, |Hooks(b, i)| - h, 0, c
  {
    hide Mutate, Examined, Looked, Sound, FirstCopy;
    if c > 0 {
      CallsViewed(b, i, h, c - 1, m, s);
      var r := Calls(b, i, h, c - 1, m, s);
      if c == 1 || !Stops(Hooks(b, i)[h], r.err) { MutateViewed(b, i, h + 1, m, r.state); }
    }
  }

  lemma {:induction false} InnerViewed(b: Bulk, i: nat, m: nat, s: State)
    requires i < |b.builders| && Viewed(b, i, s) && InView(b, i, |Hooks(b, i)|, m, s) && m < |s.mutations|
    ensures var t := Inner(b, i, m, s).state;
            Viewed(b, i, t) && InView(b, i, |Hooks(b, i)|, m, t) && SameOwn(b, i, m, s, t)
    decreases |b.builders| - i, 0, 1
  {
    hide Mutate, Fault, Looked, FirstCopy;
    var h := |Hooks(b, i)|;
    if Sound(b.schema, s.mutations[s.own[i]].fields) {
      var t := Adopt(i, m, s);
      var r := Next(b, i, t);
      AdoptViewed(b, i, m, s);
      if i + 1 < |b.builders| {
        hide Examined;
        var n := t.own[i + 1];
        assert Viewed(b, i + 1, t) && InView(b, i + 1, 0, n, t);
        MutateViewed(b, i + 1, 0, n, t);
        NextViewed(b, i, m, t, r.state);
      } else {
        WriteViewed(b, i, m, t);
      }
      hide Viewed, InView, SameOwn, Next, Adopt;
      if r.err.None? { FinishViewed(b, i, m, s, r.state); }
    }
  }

  lemma AdoptViewed(b: Bulk, i: nat, m: nat, s: State)
    requires i < |b.builders| && Viewed(b, i, s) && InView(b, i, |Hooks(b, i)|, m, s) && m < |s.mutations|
    requires Sound(b.schema, s.mutations[s.own[i]].fields)
    ensures var t := Adopt(i, m, s);
            Viewed(b, i, t) && InView(b, i, |Hooks(b, i)|, m, t) && SameOwn(b, i, m, s, t)
  {
    hide Looked, FirstCopy, Sound;
    assert Sound(b.schema, Looked(b, i));
  }

  /** Behind the next builder's mutator. */
  lemma NextViewed(b: Bulk, i: nat, m: nat, t: State, u: State)
    requires i + 1 < |b.builders| && Viewed(b, i, t) && InView(b, i, |Hooks(b, i)|, m, t) && m < |t.mutations|
    requires Viewed(b, i + 1, u) && |t.mutations| <= |u.mutations|
    requires InView(b, i + 1, 0, t.own[i + 1], u) && SameOwn(b, i + 1, t.own[i + 1], t, u)
    ensures Viewed(b, i, u) && InView(b, i, |Hooks(b, i)|, m, u) && SameOwn(b, i, m, t, u)
  {
    hide Looked, FirstCopy, Sound, Examined, AllLooked;
  }

  lemma WriteViewed(b: Bulk, i: nat, m: nat, s: State)
    requires i < |b.builders| && Viewed(b, i, s) && InView(b, i, |Hooks(b, i)|, m, s) && m < |s.mutations|
    ensures var t := Write(b, s).state;
            Viewed(b, i, t) && InView(b, i, |Hooks(b, i)|, m, t) && SameOwn(b, i, m, s, t)
  {
    hide Looked, FirstCopy, Sound, Examined;
  }

  lemma FinishViewed(b: Bulk, i: nat, m: nat, s: State, u: State)
    requires i < |b.builders| && m < |s.mutations| <= |u.mutations| && Fits(b, s) && |b.builders| <= |s.mutations|
    requires Viewed(b, i, u) && InView(b, i, |Hooks(b, i)|, m, u) && SameOwn(b, i, m, s, u)
    requires u.nodes[i].Some? && u.specs[i].Some?
    ensures var t := Finish(i, m, u);
            Viewed(b, i, t) && InView(b, i, |Hooks(b, i)|, m, t) && SameOwn(b, i, m, s, t)
  {
    hide Looked, FirstCopy, Sound, Examined, AllLooked;
  }

  /** Whatever the hooks do: a save that writes anything has checked, of every builder, the fields that reach its first
      copying hook. */
  lemma {:induction false} CheckedBeforeWritten(b: Bulk, j: nat)
    requires Save(b).state.writes != [] && j < |b.builders|
    ensures Sound(b.schema, Looked(b, j))
  {
    hide Mutate, Looked, Sound, Prepared, FirstCopy;
    WritesFull(b);
    StartViewed(b);
    MutateViewed(b, 0, 0, 0, Start(b));
    var first: seq<Option<Spec>> := Save(b).state.writes[0];
    assert Full(b, first) && AllLooked(b, first);
  }

  lemma StartViewed(b: Bulk)
    requires b.builders != []
    ensures Viewed(b, 0, Start(b)) && InView(b, 0, 0, 0, Start(b))
  {
    hide Prepared, Sound;
  }

  // ----- Whether what is written was checked

  /** Every spec of every batch passes the checks. */
  ghost predicate WritesSound(b: Bulk, s: State) {
    forall w, j | 0 <= w < |s.writes| && 0 <= j < |s.writes[w]| ::
      s.writes[w][j].Some? ==> Sound(b.schema, s.writes[w][j].value.fields)
  }

  /** Whatever the hooks do: a save writes only sound specs exactly when it writes nothing or every builder's
      contribution is sound. */
  lemma {:induction false} WrittenSoundExactly(b: Bulk)
    ensures WritesSound(b, Save(b).state) <==>
              Save(b).state.writes == [] || forall j | 0 <= j < |b.builders| :: Sound(b.schema, Contribution(b, j))
  {
    hide Save, Sound, Contribution;
    WritesContributions(b);
    var writes: seq<seq<Option<Spec>>> := Save(b).state.writes;
    if writes != [] && WritesSound(b, Save(b).state) {
      assert Full(b, writes[0]) && AsContributed(b, writes[0]);
      forall j | 0 <= j < |b.builders| ensures Sound(b.schema, Contribution(b, j)) {
        assert writes[0][j].Some? && writes[0][j].value.fields == Contribution(b, j);
      }
    }
    if forall j | 0 <= j < |b.builders| :: Sound(b.schema, Contribution(b, j)) {
      forall w, j | 0 <= w < |writes| && 0 <= j < |writes[w]| && writes[w][j].Some?
        ensures Sound(b.schema, writes[w][j].value.fields)
      {
        assert AsContributed(b, writes[w]);
      }
    }
  }

  /** With hooks that call next at most once it writes nothing exactly when something stops the chain. */
  lemma {:induction false} WrittenSoundOnce(b: Bulk)
    requires AtMostOnce(b)
    ensures WritesSound(b, Save(b).state) <==>
              (b.builders != [] && Open(b, 0, 0, |b.builders| - 1) ==>
                 forall j | 0 <= j < |b.builders| :: Sound(b.schema, Contribution(b, j)))
  {
    hide Save, Open, Sound, Contribution, WritesSound;
    OneBatch(b);
    WrittenSoundExactly(b);
  }

  /** So hooks whose copies come back unchanged keep every write sound, whatever else they do. */
  lemma {:induction false} CheckedWritesSound(b: Bulk)
    requires forall i | 0 <= i < |b.builders| ::
               Arriving(Hooks(b, i), FirstCopy(Hooks(b, i), 0), Looked(b, i)) == Looked(b, i)
    ensures WritesSound(b, Save(b).state)
  {
    hide Save, Sound, Contribution, Looked, WritesSound, Arriving, FirstCopy;
    WrittenSoundExactly(b);
    if Save(b).state.writes != [] {
      forall j | 0 <= j < |b.builders| ensures Sound(b.schema, Contribution(b, j)) {
        CheckedBeforeWritten(b, j);
        CheckedIsWritten(b, j);
      }
    }
  }

  /** Hooks that hand on the mutation they were given. */
  ghost predicate NoCopies(b: Bulk) {
    forall i, h | 0 <= i < |b.builders| && 0 <= h < |Hooks(b, i)| :: !Hooks(b, i)[h].copies
  }

  lemma UncopiedLooked(b: Bulk, i: nat)
    requires NoCopies(b) && i < |b.builders|
    ensures Looked(b, i) == Contribution(b, i)
  {
    hide Looked, Contribution;
    NoFirstCopy(b, i, 0);
    CheckedIsWritten(b, i);
  }

  lemma {:induction false} NoFirstCopy(b: Bulk, i: nat, h: nat)
    requires NoCopies(b) && i < |b.builders| && h <= |Hooks(b, i)|
    ensures FirstCopy(Hooks(b, i), h) == |Hooks(b, i)|
    decreases |Hooks(b, i)| - h
  {
    if h < |Hooks(b, i)| { NoFirstCopy(b, i, h + 1); }
  }

  /** Whatever else the hooks do, repeat, retry, refuse or swallow: when none of them passes on a copy, every spec of
      every batch has passed the checks. */
  lemma {:induction false} UncopiedWritesSound(b: Bulk)
    requires NoCopies(b)
    ensures WritesSound(b, Save(b).state)
  {
    hide Save, Looked, WritesSound, Arriving, FirstCopy;
    forall i | 0 <= i < |b.builders|
      ensures Arriving(Hooks(b, i), FirstCopy(Hooks(b, i), 0), Looked(b, i)) == Looked(b, i)
    {
      UncopiedLooked(b, i);
      CheckedIsWritten(b, i);
    }
    CheckedWritesSound(b);
  }
}
