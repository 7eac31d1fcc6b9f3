/** Where in a paragraph's joined text the walk can see a citation token: inside the one text of a run. */
module TokenSpans {
  import opened PyText
  import opened Citations
  import opened WordTree
  import opened Linker
  import opened LinkerText

  // ----- Spans of a text

  datatype Span = Span(start: nat, end: nat)

  function Shift(spans: seq<Span>, off: nat): (r: seq<Span>)
    ensures |r| == |spans| && forall i | 0 <= i < |r| :: r[i] == Span(spans[i].start + off, spans[i].end + off)
  {
    seq(|spans|, i requires 0 <= i < |spans| => Span(spans[i].start + off, spans[i].end + off))
  }

  ghost predicate InText(spans: seq<Span>, n: nat) { forall i | 0 <= i < |spans| :: spans[i].end <= n }

  /** The n characters at offset k lie inside one of the spans. */
  ghost predicate Inside(spans: seq<Span>, k: nat, n: nat) {
    exists i | 0 <= i < |spans| :: spans[i].start <= k && k + n <= spans[i].end
  }

  /** Every wanted token of the text lies inside one of the spans. */
  ghost predicate Covered(s: string, spans: seq<Span>, want: Want) {
    forall k | 0 <= k < |s| && At(s[k..], want) :: Inside(spans, k, MatchLen(s[k..]))
  }

  /** No wanted token of the joined text runs across the joint. */
  ghost predicate NoneAcross(a: string, b: string, want: Want) {
    forall k | 0 <= k < |a| && At((a + b)[k..], want) :: k + MatchLen((a + b)[k..]) <= |a|
  }

  /** A token of the joined text that ends before the joint is a token of the first part. */
  lemma {:induction false} AtJoin(a: string, b: string, want: Want)
    ensures At(a, want) ==> At(a + b, want) && MatchLen(a + b) == MatchLen(a)
    ensures At(a + b, want) && MatchLen(a + b) <= |a| ==> At(a, want)
  {
    var m, n := MatchLen(a), MatchLen(a + b);
    assert (a + b)[..m] == a[..m];
    if m > 0 { MatchLocal(a, a + b, m); }
    if n > 0 && n <= |a| {
      assert (a + b)[..n] == a[..n];
      MatchLocal(a + b, a, n);
    }
  }

  lemma JoinSlices(a: string, b: string, k: nat)
    ensures k <= |a| ==> (a + b)[k..] == a[k..] + b
    ensures |a| <= k <= |a| + |b| ==> (a + b)[k..] == b[k - |a|..]
  {
  }

  /** Joining texts adds no token exactly when none runs across the joint. */
  lemma {:induction false} JoinExact(a: string, b: string, want: Want)
    ensures |Found(a, want)| + |Found(b, want)| == |Found(a + b, want)| <==> NoneAcross(a, b, want)
  {
    hide MatchLen, At;
    if a == "" {
      assert a + b == b;
    } else {
      var rest := a[1..];
      JoinExact(rest, b, want);
      FoundJoin(rest, b, want);
      FoundStep(a, want);
      FoundStep(a + b, want);
      assert (a + b)[1..] == rest + b;
      AtJoin(a, b, want);
      AcrossStep(a, b, want);
      hide Found, NoneAcross;
      assert |Head(a, want)| == (if At(a, want) then 1 else 0);
      assert |Head(a + b, want)| == (if At(a + b, want) then 1 else 0);
    }
  }

  lemma AcrossStep(a: string, b: string, want: Want)
    requires a != ""
    ensures NoneAcross(a, b, want) <==>
              (At(a + b, want) ==> MatchLen(a + b) <= |a|) && NoneAcross(a[1..], b, want)
  {
    hide MatchLen, At;
    var rest := a[1..];
    assert (a + b)[0..] == a + b;
    forall k | 0 <= k < |rest| ensures (rest + b)[k..] == (a + b)[k + 1..] {}
    if NoneAcross(a, b, want) {
      forall k | 0 <= k < |rest| && At((rest + b)[k..], want) ensures k + MatchLen((rest + b)[k..]) <= |rest| {
        assert (rest + b)[k..] == (a + b)[k + 1..];
      }
    }
    if (At(a + b, want) ==> MatchLen(a + b) <= |a|) && NoneAcross(rest, b, want) {
      forall k | 0 <= k < |a| && At((a + b)[k..], want) ensures k + MatchLen((a + b)[k..]) <= |a| {
        if k > 0 { assert (rest + b)[k - 1..] == (a + b)[k..]; }
      }
    }
  }

  lemma InsideJoin(a: seq<Span>, b: seq<Span>, n: nat, k: nat, len: nat)
    requires InText(a, n) && len > 0
    ensures Inside(a + Shift(b, n), k, len) <==>
              (k + len <= n && Inside(a, k, len)) || (k >= n && Inside(b, k - n, len))
  {
    var all := a + Shift(b, n);
    if i :| 0 <= i < |a| && a[i].start <= k && k + len <= a[i].end { assert all[i] == a[i]; }
    if k >= n {
      if i :| 0 <= i < |b| && b[i].start <= k - n && k - n + len <= b[i].end { assert all[|a| + i] == Shift(b, n)[i]; }
    }
    if i :| 0 <= i < |all| && all[i].start <= k && k + len <= all[i].end {
      if i < |a| {
        assert all[i] == a[i];
      } else {
        assert all[i] == Shift(b, n)[i - |a|] && b[i - |a|].start <= k - n;
      }
    }
  }

  /** A wanted token at an offset of a joined text, seen from the parts. */
  lemma {:induction false} AtOffset(a: string, b: string, k: nat, want: Want)
    requires k < |a| + |b|
    ensures k >= |a| ==> (a + b)[k..] == b[k - |a|..]
    ensures k < |a| ==>
              var s, t := (a + b)[k..], a[k..];
              && (At(t, want) ==> At(s, want) && MatchLen(s) == MatchLen(t))
              && (At(s, want) && k + MatchLen(s) <= |a| ==> At(t, want) && MatchLen(s) == MatchLen(t))
  {
    hide MatchLen, At;
    JoinSlices(a, b, k);
    if k < |a| { AtJoin(a[k..], b, want); }
  }

  lemma CoveredWhole(a: string, b: string, spansA: seq<Span>, spansB: seq<Span>, want: Want)
    requires InText(spansA, |a|)
    requires Covered(a, spansA, want) && Covered(b, spansB, want) && NoneAcross(a, b, want)
    ensures Covered(a + b, spansA + Shift(spansB, |a|), want)
  {
    hide MatchLen, At, Inside, InText;
    var s := a + b;
    forall k | 0 <= k < |s| && At(s[k..], want) ensures Inside(spansA + Shift(spansB, |a|), k, MatchLen(s[k..])) {
      AtSome(s[k..], want);
      AtOffset(a, b, k, want);
      InsideJoin(spansA, spansB, |a|, k, MatchLen(s[k..]));
    }
  }

  lemma CoveredParts(a: string, b: string, spansA: seq<Span>, spansB: seq<Span>, want: Want)
    requires InText(spansA, |a|)
    requires Covered(a + b, spansA + Shift(spansB, |a|), want)
    ensures Covered(a, spansA, want) && Covered(b, spansB, want) && NoneAcross(a, b, want)
  {
    hide MatchLen, At, Inside, InText;
    var s := a + b;
    forall k | 0 <= k < |a|
      ensures At(s[k..], want) ==> k + MatchLen(s[k..]) <= |a|
      ensures At(a[k..], want) ==> Inside(spansA, k, MatchLen(a[k..]))
    {
      AtOffset(a, b, k, want);
      if At(s[k..], want) {
        AtSome(s[k..], want);
        InsideJoin(spansA, spansB, |a|, k, MatchLen(s[k..]));
      }
    }
    forall k | 0 <= k < |b| && At(b[k..], want) ensures Inside(spansB, k, MatchLen(b[k..])) {
      AtOffset(a, b, k + |a|, want);
      AtSome(b[k..], want);
      InsideJoin(spansA, spansB, |a|, k + |a|, MatchLen(b[k..]));
    }
  }

  lemma AtSome(s: string, want: Want)
    requires At(s, want)
    ensures MatchLen(s) > 0 && s != ""
  {
  }

  /** The tokens of a joined text are covered exactly when those of both parts are and none runs across. */
  lemma {:induction false} CoveredJoin(a: string, b: string, spansA: seq<Span>, spansB: seq<Span>, want: Want)
    requires InText(spansA, |a|)
    ensures Covered(a + b, spansA + Shift(spansB, |a|), want)
       <==> Covered(a, spansA, want) && Covered(b, spansB, want) && NoneAcross(a, b, want)
  {
    hide Covered, NoneAcross, InText;
    if Covered(a + b, spansA + Shift(spansB, |a|), want) { CoveredParts(a, b, spansA, spansB, want); }
    if Covered(a, spansA, want) && Covered(b, spansB, want) && NoneAcross(a, b, want) {
      CoveredWhole(a, b, spansA, spansB, want);
    }
  }

  /** `n` of the wanted tokens are counted; all of them exactly when the spans cover every one. */
  ghost predicate Tallied(s: string, spans: seq<Span>, want: Want, n: nat) {
    InText(spans, |s|) && n <= |Found(s, want)| && (n == |Found(s, want)| <==> Covered(s, spans, want))
  }

  lemma {:induction false} TalliedJoin(
      a: string, b: string, spansA: seq<Span>, spansB: seq<Span>, want: Want, m: nat, n: nat)
    requires Tallied(a, spansA, want, m) && Tallied(b, spansB, want, n)
    ensures Tallied(a + b, spansA + Shift(spansB, |a|), want, m + n)
  {
    hide Covered, NoneAcross, Found;
    CoveredJoin(a, b, spansA, spansB, want);
    JoinExact(a, b, want);
    FoundJoin(a, b, want);
  }

  lemma {:induction false} NoneWanted(s: string, want: Want)
    ensures Found(s, want) == [] <==> forall k | 0 <= k < |s| :: !At(s[k..], want)
  {
    hide At, MatchLen;
    if s != "" {
      var rest := s[1..];
      NoneWanted(rest, want);
      assert s[0..] == s && Head(s, want) == [] <==> !At(s, want);
      assert forall k | 0 <= k < |rest| :: rest[k..] == s[k + 1..];
      assert forall k | 1 <= k < |s| :: s[k..] == rest[k - 1..];
    }
  }

  lemma NeverInside(k: nat, n: nat)
    ensures !Inside([], k, n)
  {
  }

  /** A text in which no span lies, and one that is a span itself. */
  lemma TalliedNone(s: string, want: Want)
    ensures Tallied(s, [], want, 0)
  {
    hide MatchLen, At, Found, Inside;
    NoneWanted(s, want);
    if k :| 0 <= k < |s| && At(s[k..], want) { NeverInside(k, MatchLen(s[k..])); }
  }

  lemma TalliedAll(s: string, want: Want)
    ensures Tallied(s, [Span(0, |s|)], want, |Found(s, want)|)
  {
    hide At, MatchLen;
    var spans := [Span(0, |s|)];
    forall k | 0 <= k < |s| && At(s[k..], want) ensures Inside(spans, k, MatchLen(s[k..])) {
      assert spans[0].start <= k && k + MatchLen(s[k..]) <= spans[0].end;
    }
  }

  // ----- The runs of a paragraph

  /** Where the one text of a run stands in the text of the run; none if it has no text child or more than one. */
  function RunSpans(run: Tree): seq<Span> {
    if |Only(run.children, TextElem)| != 1 then []
    else
      var start := TextBefore(run.children);
      [Span(start, start + |RunText(run)|)]
  }

  /** Where the texts of the runs that the walk reaches stand in the text of a tree. */
  function Spans(t: Tree): seq<Span>
    decreases t, 0
  {
    Shift(SpansAll(t.children), if t.tag == TextElem then |t.text| else 0)
  }

  function SpansOne(c: Tree): seq<Span>
    decreases c, 1
  {
    if c.tag == Run then RunSpans(c) else Spans(c)
  }

  function SpansAll(cs: seq<Tree>): seq<Span>
    decreases cs, 2
  {
    if cs == [] then [] else SpansOne(cs[0]) + Shift(SpansAll(cs[1..]), |TextOf(cs[0])|)
  }

  /** The texts of those runs. */
  function RunTexts(t: Tree): seq<string>
    decreases t, 0
  {
    RunTextsAll(t.children)
  }

  function RunTextsOne(c: Tree): seq<string>
    decreases c, 1
  {
    if c.tag != Run then RunTexts(c)
    else if |Only(c.children, TextElem)| == 1 then [RunText(c)]
    else []
  }

  function RunTextsAll(cs: seq<Tree>): seq<string>
    decreases cs, 2
  {
    if cs == [] then [] else RunTextsOne(cs[0]) + RunTextsAll(cs[1..])
  }

  lemma {:induction false} RunTallied(run: Tree, want: Want)
    requires run.tag == Run
    ensures Tallied(TextOf(run), RunSpans(run), want, |RunTokens(run, want)|)
  {
    hide Found, Tallied;
    RunShows(run);
    if |Only(run.children, TextElem)| == 1 {
      var before, after := OneText(run.children);
      var text := RunText(run);
      TalliedNone(before, want);
      TalliedAll(text, want);
      TalliedNone(after, want);
      TalliedJoin(text, after, [Span(0, |text|)], [], want, |Found(text, want)|, 0);
      assert [Span(0, |text|)] + Shift([], |text|) == [Span(0, |text|)];
      TalliedJoin(before, text + after, [], [Span(0, |text|)], want, 0, |Found(text, want)|);
      assert [] + Shift([Span(0, |text|)], |before|) == RunSpans(run);
      assert before + (text + after) == TextOf(run);
    } else {
      TalliedNone(TextOf(run), want);
    }
  }

  /** Of the tokens of a tree's text the walk sees, in runs, exactly those that lie inside one of the spans: all of them
      if and only if the spans cover them all. */
  lemma {:induction false} TreeTallied(t: Tree, want: Want)
    ensures Tallied(TextOf(t), Spans(t), want, Count(t, want))
    decreases t, 0
  {
    hide Tallied, SpansAll, CountAll, TextOfAll;
    AllTallied(t.children, want);
    var own := if t.tag == TextElem then t.text else "";
    TalliedNone(own, want);
    TalliedJoin(own, TextOfAll(t.children), [], SpansAll(t.children), want, 0, CountAll(t.children, want));
    assert [] + Shift(SpansAll(t.children), |own|) == Spans(t);
  }

  lemma {:induction false} AllTallied(cs: seq<Tree>, want: Want)
    ensures Tallied(TextOfAll(cs), SpansAll(cs), want, CountAll(cs, want))
    decreases cs, 1
  {
    hide Tallied;
    if cs == [] {
      TalliedNone("", want);
    } else {
      if cs[0].tag == Run { RunTallied(cs[0], want); } else { TreeTallied(cs[0], want); }
      AllTallied(cs[1..], want);
      TalliedJoin(TextOf(cs[0]), TextOfAll(cs[1..]), SpansOne(cs[0]), SpansAll(cs[1..]), want,
        CountOne(cs[0], want), CountAll(cs[1..], want));
    }
  }

  /** Each span of the text holds its text. */
  ghost predicate Holds(s: string, spans: seq<Span>, texts: seq<string>) {
    && |spans| == |texts|
    && forall i | 0 <= i < |spans| ::
         spans[i].start <= spans[i].end <= |s| && s[spans[i].start..spans[i].end] == texts[i]
  }

  lemma HoldsJoin(a: string, b: string, spansA: seq<Span>, spansB: seq<Span>, textsA: seq<string>, textsB: seq<string>)
    requires Holds(a, spansA, textsA) && Holds(b, spansB, textsB)
    ensures Holds(a + b, spansA + Shift(spansB, |a|), textsA + textsB)
  {
    var s, spans, texts := a + b, spansA + Shift(spansB, |a|), textsA + textsB;
    forall i | 0 <= i < |spans|
      ensures spans[i].start <= spans[i].end <= |s| && s[spans[i].start..spans[i].end] == texts[i]
    {
      if i < |spansA| {
        assert s[spans[i].start..spans[i].end] == a[spansA[i].start..spansA[i].end];
      } else {
        var j := i - |spansA|;
        assert spans[i] == Shift(spansB, |a|)[j] && s[spans[i].start..spans[i].end] == b[spansB[j].start..spansB[j].end];
      }
    }
  }

  lemma {:induction false} RunHolds(run: Tree)
    requires run.tag == Run
    ensures Holds(TextOf(run), RunSpans(run), RunTextsOne(run))
  {
    RunShows(run);
    if |Only(run.children, TextElem)| == 1 {
      var before, after := OneText(run.children);
      assert (before + RunText(run) + after)[|before|..|before| + |RunText(run)|] == RunText(run);
    }
  }

  /** The spans are those of the runs that the walk reaches and can split, each where its one text stands. */
  lemma {:induction false} SpansHold(t: Tree)
    ensures Holds(TextOf(t), Spans(t), RunTexts(t))
    decreases t, 0
  {
    hide Holds, SpansAll, RunTextsAll, TextOfAll;
    AllHold(t.children);
    var own := if t.tag == TextElem then t.text else "";
    NothingHeld(own);
    HoldsJoin(own, TextOfAll(t.children), [], SpansAll(t.children), [], RunTextsAll(t.children));
    EmptyJoin(Shift(SpansAll(t.children), |own|));
    EmptyJoin(RunTextsAll(t.children));
  }

  lemma {:induction false} AllHold(cs: seq<Tree>)
    ensures Holds(TextOfAll(cs), SpansAll(cs), RunTextsAll(cs))
    decreases cs, 1
  {
    hide Holds;
    if cs == [] {
      NothingHeld("");
    } else {
      if cs[0].tag == Run { RunHolds(cs[0]); } else { SpansHold(cs[0]); }
      AllHold(cs[1..]);
      HoldsJoin(TextOf(cs[0]), TextOfAll(cs[1..]), SpansOne(cs[0]), SpansAll(cs[1..]),
        RunTextsOne(cs[0]), RunTextsAll(cs[1..]));
    }
  }

  lemma EmptyJoin<T>(xs: seq<T>)
    ensures [] + xs == xs
  {
  }

  lemma NothingHeld(s: string)
    ensures Holds(s, [], [])
  {
  }

  // ----- Agreement with the audit

  /** Every token the audit lists lies inside the one text of a run that the walk reaches, and names only available
      numbers. */
  ghost predicate AllLinkable(p: Tree, avail: set<nat>) {
    var s := TextOf(p);
    forall k | 0 <= k < |s| && At(s[k..], Audited()) ::
      Inside(Spans(p), k, MatchLen(s[k..])) && Linkable(s[k..][..MatchLen(s[k..])], avail)
  }

  /** A reader's wanted tokens that are spelled `token`. */
  function Spelled(want: Want, token: string): Want { t => t == token && want(t) }

  /** Per paragraph the linker links no token more often than the audit lists it in the joined text. The two counts are
      equal exactly when every audited token lies inside one reachable single-text run and names only available
      numbers. */
  lemma {:induction false} LinkerAgreesWithAudit(p: Tree, avail: set<nat>)
    ensures Count(p, Available(avail)) <= |Found(TextOf(p), Audited())|
    ensures Count(p, Available(avail)) == |Found(TextOf(p), Audited())| <==> AllLinkable(p, avail)
    ensures forall token ::
              Count(p, Spelled(Available(avail), token)) <= |Found(TextOf(p), Spelled(Audited(), token))|
  {
    hide Found, Count, TextOf, Spans;
    var rejected := Minus(Audited(), Available(avail));
    TreeTallied(p, Audited());
    TreeTallied(p, rejected);
    CountSplit(p, Audited(), Available(avail));
    NoneWanted(TextOf(p), rejected);
    LinkableExactly(p, avail);
    forall token
      ensures Count(p, Spelled(Available(avail), token)) <= |Found(TextOf(p), Spelled(Audited(), token))|
    {
      CountVisible(p, Spelled(Audited(), token));
      CountSplit(p, Spelled(Audited(), token), Spelled(Available(avail), token));
    }
  }

  lemma LinkableExactly(p: Tree, avail: set<nat>)
    ensures var s, rejected := TextOf(p), Minus(Audited(), Available(avail));
            && (Covered(s, Spans(p), Audited()) ==> Covered(s, Spans(p), rejected))
            && (AllLinkable(p, avail) <==>
                  Covered(s, Spans(p), Audited()) && forall k | 0 <= k < |s| :: !At(s[k..], rejected))
  {
    hide TextOf, Spans, MatchLen, Linkable, NamesNumbers, Inside;
    var s, rejected := TextOf(p), Minus(Audited(), Available(avail));
    forall k | 0 <= k < |s|
      ensures At(s[k..], rejected) <==>
                At(s[k..], Audited()) && !Linkable(s[k..][..MatchLen(s[k..])], avail)
    {
    }
  }
}
