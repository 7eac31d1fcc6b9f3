/** Which records the lines of any exception list make, and which line gives each of their values. */
module ExceptionRecords {
  import opened PyText
  import opened ExceptionList

  predicate Opens(raw: string) { StartsWith(Strip(raw), "- ") }

  /** Blank lines, comments and the two headers. */
  predicate Skipped(raw: string) {
    var line := Strip(raw);
    || line == "" || StartsWith(line, "#") || StartsWith(line, "version:") || StartsWith(line, "exceptions:")
  }

  /** The text a pair is read from: what follows the dash, or the whole line. */
  function Body(raw: string): string { if Opens(raw) then Strip(Strip(raw)[2..]) else Strip(raw) }

  /** The line shows the pair: the text before its first colon is the key, and the text behind it the value, both
      without the space around them and the value without its quotes. */
  predicate Shows(raw: string, p: Pair) {
    && !Skipped(raw)
    && exists n | 0 <= n < |Body(raw)| ::
         && Body(raw)[n] == ':' && ':' !in Body(raw)[..n]
         && p == Pair(Strip(Body(raw)[..n]), Unquote(Strip(Body(raw)[n + 1..])))
  }

  function PairOf(raw: string): Option<Pair> { if Skipped(raw) then None else SplitKv(Body(raw)) }

  lemma {:induction false} PairExactly(raw: string, p: Pair)
    ensures PairOf(raw) == Some(p) <==> Shows(raw, p)
  {
    hide Strip, Unquote, Skipped;
    var b := Body(raw);
    hide Body;
    var c := Colon(b);
    if c < |b| { assert ':' !in b[..c]; }
    if Shows(raw, p) {
      var n :| 0 <= n < |b| && b[n] == ':' && ':' !in b[..n]
               && p == Pair(Strip(b[..n]), Unquote(Strip(b[n + 1..])));
      forall i | 0 <= i < n ensures b[i] != ':' { assert b[..n][i] in b[..n]; }
      assert n == c;
    }
  }

  // ----- The lines of a record

  function Opened(lines: seq<string>): nat {
    if lines == [] then 0 else Opened(lines[..|lines| - 1]) + if Opens(lines[|lines| - 1]) then 1 else 0
  }

  /** Line j belongs to the record that line k opens: no other record is opened up to it. */
  predicate Belongs(lines: seq<string>, k: nat, j: nat) {
    k <= j < |lines| && Opens(lines[k]) && forall m | k < m <= j :: !Opens(lines[m])
  }

  predicate Names(raw: string, key: string) { PairOf(raw).Some? && PairOf(raw).value.key == key }

  /** Of the lines of that record that have the key, line j is the last, and it shows the value. */
  ghost predicate Gives(lines: seq<string>, k: nat, j: nat, key: string, value: string) {
    && Belongs(lines, k, j) && PairOf(lines[j]) == Some(Pair(key, value))
    && forall m | j < m < |lines| && Belongs(lines, k, m) :: !Names(lines[m], key)
  }

  ghost predicate Holds(lines: seq<string>, k: nat, key: string, value: string) {
    exists j: nat :: Gives(lines, k, j, key, value)
  }

  ghost predicate RecordIs(lines: seq<string>, k: nat, r: Record) {
    forall key, value :: Holds(lines, k, key, value) <==> key in r && r[key] == value
  }

  // ----- One line more

  lemma BelongsSnoc(lines: seq<string>, raw: string, k: nat, j: nat)
    ensures j < |lines| ==> (Belongs(lines + [raw], k, j) <==> Belongs(lines, k, j))
    ensures j == |lines| && k < j ==> (Belongs(lines + [raw], k, j) <==> Belongs(lines, k, j - 1) && !Opens(raw))
    ensures j == |lines| && k == j ==> (Belongs(lines + [raw], k, j) <==> Opens(raw))
  {
    hide Opens;
    var ls := lines + [raw];
    assert forall m | 0 <= m < |lines| :: ls[m] == lines[m];
    if j == |lines| && k < j {
      assert ls[j] == raw;
      if Belongs(lines, k, j - 1) && !Opens(raw) {
        forall m | k < m <= j ensures !Opens(ls[m]) { assert m < j ==> ls[m] == lines[m]; }
      }
      if Belongs(ls, k, j) {
        forall m | k < m < j ensures !Opens(lines[m]) { assert ls[m] == lines[m]; }
      }
    }
  }

  lemma GivesSnoc(lines: seq<string>, raw: string, k: nat, j: nat, key: string, value: string)
    ensures var ls := lines + [raw];
            && (j < |lines| ==>
                  (Gives(ls, k, j, key, value)
                   <==> Gives(lines, k, j, key, value) && !(Belongs(ls, k, |lines|) && Names(raw, key))))
            && (j == |lines| ==>
                  (Gives(ls, k, j, key, value) <==> Belongs(ls, k, j) && PairOf(raw) == Some(Pair(key, value))))
  {
    hide Belongs, Names, PairOf;
    var ls := lines + [raw];
    forall m | 0 <= m < |ls| ensures m < |lines| ==> (Belongs(ls, k, m) <==> Belongs(lines, k, m)) {
      BelongsSnoc(lines, raw, k, m);
    }
    assert forall m | 0 <= m < |lines| :: ls[m] == lines[m];
  }

  lemma RecordNext(lines: seq<string>, raw: string, k: nat, r: Record)
    requires k < |lines| && RecordIs(lines, k, r)
    ensures var ls := lines + [raw];
            RecordIs(ls, k, if Belongs(ls, k, |lines|) && PairOf(raw).Some?
                            then r[PairOf(raw).value.key := PairOf(raw).value.value] else r)
  {
    hide Belongs, PairOf;
    var ls := lines + [raw];
    var mine := Belongs(ls, k, |lines|) && PairOf(raw).Some?;
    var s := if mine then r[PairOf(raw).value.key := PairOf(raw).value.value] else r;
    forall key, value ensures Holds(ls, k, key, value) <==> key in s && s[key] == value {
      HoldsNext(lines, raw, k, key, value);
      assert Holds(lines, k, key, value) <==> key in r && r[key] == value;
      hide Holds;
    }
  }

  lemma HoldsNext(lines: seq<string>, raw: string, k: nat, key: string, value: string)
    requires k < |lines|
    ensures Holds(lines + [raw], k, key, value) <==>
              if Belongs(lines + [raw], k, |lines|) && Names(raw, key) then PairOf(raw).value.value == value
              else Holds(lines, k, key, value)
  {
    hide Belongs, PairOf;
    var ls := lines + [raw];
    GivesSnoc(lines, raw, k, |lines|, key, value);
    forall j: nat | j < |lines|
      ensures Gives(ls, k, j, key, value)
         <==> Gives(lines, k, j, key, value) && !(Belongs(ls, k, |lines|) && Names(raw, key))
    {
      GivesSnoc(lines, raw, k, j, key, value);
    }
    GivesInside(lines, k, key, value);
    GivesInside(ls, k, key, value);
    hide Gives;
    if Belongs(ls, k, |lines|) && PairOf(raw) == Some(Pair(key, value)) {
      assert Gives(ls, k, |lines|, key, value);
    }
    if j: nat :| Gives(lines, k, j, key, value) { assert Gives(ls, k, j, key, value) || Names(raw, key); }
  }

  lemma GivesInside(lines: seq<string>, k: nat, key: string, value: string)
    ensures forall j: nat :: Gives(lines, k, j, key, value) ==> j < |lines|
  {
  }

  lemma RecordFirst(lines: seq<string>, raw: string)
    requires Opens(raw) && PairOf(raw).Some?
    ensures RecordIs(lines + [raw], |lines|, map[PairOf(raw).value.key := PairOf(raw).value.value])
  {
    hide PairOf, Opens;
    var ls, n := lines + [raw], |lines|;
    BelongsSnoc(lines, raw, n, n);
    forall key, value ensures Holds(ls, n, key, value) <==> PairOf(raw) == Some(Pair(key, value)) {
      GivesSnoc(lines, raw, n, n, key, value);
      if PairOf(raw) == Some(Pair(key, value)) { assert Gives(ls, n, n, key, value); }
    }
  }

  // ----- The loop

  function All(st: State): seq<Record>
    requires st.Reading?
  {
    st.done + if st.current.Some? then [st.current.value] else []
  }

  /** What a line does: it opens a record with its pair, adds its pair to the open record, or does nothing. */
  lemma StepIs(st: State, raw: string)
    requires st.Reading? && !Broken(raw) && (st.current.Some? ==> st.current.value != map[])
    ensures var p := PairOf(raw);
            && (Opens(raw) ==> p.Some? && Step(st, raw) == Reading(All(st), Some(map[p.value.key := p.value.value])))
            && (!Opens(raw) ==>
                  Step(st, raw) == if p.Some? && st.current.Some?
                                   then st.(current := Some(st.current.value[p.value.key := p.value.value])) else st)
  {
    hide Strip, SplitKv;
    var line := Strip(raw);
    StepRaises(st, raw);
    if Opens(raw) {
      DashIsNoHeader(line);
      DashHasText(raw);
    }
  }

  /** The opening lines of the records before line k: the open record is that of the last one. */
  lemma {:induction false} OpenedBefore(lines: seq<string>, k: nat)
    requires k < |lines| && Opens(lines[k])
    ensures Opened(lines[..k]) < Opened(lines)
    ensures Opened(lines[..k]) == Opened(lines) - 1 <==> Belongs(lines, k, |lines| - 1)
    decreases |lines|
  {
    hide Opens;
    var n := |lines| - 1;
    if k < n {
      OpenedBefore(lines[..n], k);
      assert lines[..n][..k] == lines[..k] && lines[..n] + [lines[n]] == lines;
      BelongsSnoc(lines[..n], lines[n], k, n);
    }
  }

  ghost predicate Reads(lines: seq<string>, st: State) {
    && st.Reading? && |All(st)| == Opened(lines)
    && (st.current.Some? <==> Opened(lines) > 0)
    && (st.current.Some? ==> st.current.value != map[])
    && forall k | 0 <= k < |lines| && Opens(lines[k]) ::
         Opened(lines[..k]) < |All(st)| && RecordIs(lines, k, All(st)[Opened(lines[..k])])
  }

  lemma OpenedSnoc(lines: seq<string>, raw: string)
    ensures Opened(lines + [raw]) == Opened(lines) + if Opens(raw) then 1 else 0
  {
    assert (lines + [raw])[..|lines|] == lines;
  }

  lemma {:induction false} ReadsNext(lines: seq<string>, raw: string, st: State)
    requires Reads(lines, st) && !Broken(raw)
    ensures Reads(lines + [raw], Step(st, raw))
  {
    hide Opens, Broken, PairOf, Step, RecordIs, Opened, Belongs;
    StepIs(st, raw);
    OpenedSnoc(lines, raw);
    var ls, n, t, p := lines + [raw], |lines|, Step(st, raw), PairOf(raw);
    assert ls[..n] == lines;
    if Opens(raw) { assert All(t) == All(st) + [map[p.value.key := p.value.value]]; }
    forall k | 0 <= k < |ls| && Opens(ls[k])
      ensures Opened(ls[..k]) < |All(t)| && RecordIs(ls, k, All(t)[Opened(ls[..k])])
    {
      if k == n {
        RecordFirst(lines, raw);
      } else {
        assert ls[..k] == lines[..k] && ls[k] == lines[k];
        RecordNext(lines, raw, k, All(st)[Opened(lines[..k])]);
        OpenedBefore(lines, k);
        BelongsSnoc(lines, raw, k, n);
      }
    }
    assert t.current.Some? && t.current != st.current ==> p.value.key in t.current.value;
  }

  lemma {:induction false} FoldReads(lines: seq<string>)
    requires forall k | 0 <= k < |lines| :: !Broken(lines[k])
    ensures Reads(lines, Fold(START, lines))
  {
    hide Step, Reads, Broken;
    if lines == [] {
      NothingRead();
    } else {
      var n := |lines| - 1;
      FoldReads(lines[..n]);
      ReadsNext(lines[..n], lines[n], Fold(START, lines[..n]));
      assert lines[..n] + [lines[n]] == lines;
    }
  }

  lemma NothingRead()
    ensures Reads([], START)
  {
  }

  /** A list makes one record for each line that opens one; a record has a value for a key exactly when a line up to the
      next opening line shows the two and no later one of these has the key. */
  lemma {:induction false} RecordsExactly(lines: seq<string>)
    requires Parse(lines).Some?
    ensures |Parse(lines).value| == Opened(lines)
    ensures forall k | 0 <= k < |lines| && Opens(lines[k]) ::
              Opened(lines[..k]) < Opened(lines) && RecordIs(lines, k, Parse(lines).value[Opened(lines[..k])])
  {
    hide Step, Broken, RecordIs, Opens;
    RaisesExactly(lines);
    FoldReads(lines);
  }
}
