/** What the walk keeps: the visible text, the agreement with the audit, and the
    targets of hyperlinks. */
module LinkerText {
  import opened PyText
  import opened Citations
  import opened WordTree
  import opened Linker

  // ----- Visible text

  /** Every run the walk reaches satisfies `ok`. */
  ghost predicate Reached(t: Tree, ok: Tree -> bool)
    decreases t, 0
  {
    ReachedAll(t.children, ok)
  }

  ghost predicate ReachedOne(c: Tree, ok: Tree -> bool)
    decreases c, 1
  {
    if c.tag == Run then ok(c) else Reached(c, ok)
  }

  ghost predicate ReachedAll(cs: seq<Tree>, ok: Tree -> bool)
    decreases cs, 2
  {
    cs == [] || (ReachedOne(cs[0], ok) && ReachedAll(cs[1..], ok))
  }

  /** Run properties hold no text, as in every schema-valid document. */
  function CleanProps(): Tree -> bool {
    (run: Tree) => TextOfAll(Only(run.children, RunProps)) == ""
  }

  /** A run is either left alone or has no visible text besides its one text child. */
  function Keeps(avail: set<nat>): Tree -> bool {
    (run: Tree) => RunTokens(run, Available(avail)) != [] ==> TextOf(run) == RunText(run)
  }

  lemma {:induction false} CloneTextOf(run: Tree, text: string)
    requires run.tag == Run
    ensures TextOf(Clone(run, text)) == TextOfAll(Only(run.children, RunProps)) + text
  {
    TextOfJoin(Only(run.children, RunProps), [TextNode(text)]);
    TextOfOne(TextNode(text));
    assert TextOf(TextNode(text)) == text + "";
  }

  lemma {:induction false} SegmentTextOf(run: Tree, g: Segment, avail: set<nat>)
    requires run.tag == Run
    ensures TextOf(SegmentNode(run, g, avail)) == TextOfAll(Only(run.children, RunProps)) + g.text
  {
    CloneTextOf(run, g.text);
    var n := SegmentNode(run, g, avail);
    if n.tag == Hyperlink {
      TextOfOne(Clone(run, g.text));
      assert TextOf(n) == "" + TextOfAll([Clone(run, g.text)]);
    }
  }

  lemma {:induction false} TokenTextOf(run: Tree, gs: seq<Segment>, avail: set<nat>)
    requires run.tag == Run && CleanProps()(run)
    ensures TextOfAll(TokenNodes(run, gs, avail)) == SegmentsText(gs)
    decreases |gs|
  {
    hide SegmentNode, Only;
    if gs != [] {
      SegmentTextOf(run, gs[0], avail);
      TokenTextOf(run, gs[1..], avail);
      assert "" + gs[0].text == gs[0].text;
      TextOfCons(SegmentNode(run, gs[0], avail), TokenNodes(run, gs[1..], avail));
    }
  }

  lemma {:induction false} RunTextOf(run: Tree, ps: seq<Piece>, avail: set<nat>)
    requires run.tag == Run && CleanProps()(run)
    ensures TextOfAll(RunNodes(run, ps, avail)) == PiecesText(ps)
    decreases |ps|
  {
    if ps != [] {
      PieceTextOf(run, ps[0], avail);
      RunTextOf(run, ps[1..], avail);
      TextOfJoin(PieceNodes(run, ps[0], avail), RunNodes(run, ps[1..], avail));
    }
  }

  lemma {:induction false} PieceTextOf(run: Tree, p: Piece, avail: set<nat>)
    requires run.tag == Run && CleanProps()(run)
    ensures TextOfAll(PieceNodes(run, p, avail)) == p.text
  {
    if p.Plain? {
      CloneTextOf(run, p.text);
      TextOfOne(Clone(run, p.text));
    } else {
      TokenTextOf(run, Segments(p.text), avail);
      SegmentsCut(p.text);
    }
  }

  /** How much text stands before the first text child. */
  function TextBefore(cs: seq<Tree>): nat {
    if cs == [] || cs[0].tag == TextElem then 0 else |TextOf(cs[0])| + TextBefore(cs[1..])
  }

  /** The text of the only text child sits in the text of its parent, at its place. */
  lemma {:induction false} OneText(cs: seq<Tree>) returns (before: string, after: string)
    requires |Only(cs, TextElem)| == 1
    ensures TextOfAll(cs) == before + Only(cs, TextElem)[0].text + after && |before| == TextBefore(cs)
    decreases |cs|
  {
    var text := Only(cs, TextElem)[0].text;
    if cs[0].tag == TextElem {
      before, after := "", TextOfAll(cs[0].children) + TextOfAll(cs[1..]);
      assert cs[0].text == text && TextOf(cs[0]) == text + TextOfAll(cs[0].children);
      hide Only, TextOf;
      Prefixed("", text, TextOfAll(cs[0].children), TextOfAll(cs[1..]));
    } else {
      assert Only(cs, TextElem) == [] + Only(cs[1..], TextElem) == Only(cs[1..], TextElem);
      hide Only, TextOf;
      before, after := OneText(cs[1..]);
      Prefixed(TextOf(cs[0]), before, text, after);
      before := TextOf(cs[0]) + before;
    }
  }

  lemma Prefixed(a: string, b: string, c: string, d: string)
    ensures a + (b + c + d) == (a + b) + c + d && (b + c) + d == "" + b + (c + d)
  {
  }

  lemma {:induction false} SplitRunTextOf(run: Tree, avail: set<nat>)
    requires run.tag == Run && CleanProps()(run)
    ensures |TextOfAll(SplitRun(run, avail))| <= |TextOf(run)|
    ensures TextOfAll(SplitRun(run, avail)) == TextOf(run) <==> Keeps(avail)(run)
  {
    if RunTokens(run, Available(avail)) == [] {
      TextOfOne(run);
    } else {
      PiecesCut(RunText(run), Available(avail));
      RunTextOf(run, Pieces(RunText(run), Available(avail)), avail);
      var before, after := OneText(run.children);
    }
  }

  lemma {:induction false} JoinBoth(a: string, b: string, c: string, d: string)
    requires |a| <= |c| && |b| <= |d|
    ensures a + b == c + d <==> a == c && b == d
  {
    if a + b == c + d {
      assert |a + b| == |c + d|;
      assert a == (a + b)[..|a|] && c == (c + d)[..|c|];
      assert b == (a + b)[|a|..] && d == (c + d)[|c|..];
    }
  }

  /** The walk never adds text, and it keeps the visible text exactly when every run
      it splits has no text besides its one text child. */
  lemma {:induction false} TextKept(t: Tree, avail: set<nat>)
    requires Reached(t, CleanProps())
    ensures |TextOf(LinkTree(t, avail))| <= |TextOf(t)|
    ensures TextOf(LinkTree(t, avail)) == TextOf(t) <==> Reached(t, Keeps(avail))
    decreases t, 0
  {
    TextKeptAll(t.children, avail);
    var own := if t.tag == TextElem then t.text else "";
    JoinBoth(own, TextOfAll(LinkAll(t.children, avail)), own, TextOfAll(t.children));
  }

  lemma {:induction false} TextKeptOne(c: Tree, avail: set<nat>)
    requires ReachedOne(c, CleanProps())
    ensures |TextOfAll(LinkOne(c, avail))| <= |TextOf(c)|
    ensures TextOfAll(LinkOne(c, avail)) == TextOf(c) <==> ReachedOne(c, Keeps(avail))
    decreases c, 1
  {
    if c.tag == Run {
      SplitRunTextOf(c, avail);
    } else {
      TextKept(c, avail);
      TextOfOne(LinkTree(c, avail));
    }
  }

  lemma {:induction false} TextKeptAll(cs: seq<Tree>, avail: set<nat>)
    requires ReachedAll(cs, CleanProps())
    ensures |TextOfAll(LinkAll(cs, avail))| <= |TextOfAll(cs)|
    ensures TextOfAll(LinkAll(cs, avail)) == TextOfAll(cs) <==> ReachedAll(cs, Keeps(avail))
    decreases cs, 2
  {
    if cs != [] {
      TextKeptOne(cs[0], avail);
      TextKeptAll(cs[1..], avail);
      TextOfJoin(LinkOne(cs[0], avail), LinkAll(cs[1..], avail));
      JoinBoth(TextOfAll(LinkOne(cs[0], avail)), TextOfAll(LinkAll(cs[1..], avail)), TextOf(cs[0]), TextOfAll(cs[1..]));
    }
  }

  /** So text can be lost: a run with a linkable citation in its one text child and some further element that shows
      text, such as a ruby annotation, loses that element. */
  lemma {:induction false} TextCanBeLost(full: string, extra: Tree, avail: set<nat>)
    requires Found(full, Available(avail)) != []
    requires extra.tag != TextElem && extra.tag != RunProps && TextOf(extra) != ""
    ensures var run := Node(Run, map[], "", "", [Node(TextElem, map[], full, "", []), extra]);
            var p := Node(Paragraph, map[], "", "", [run]);
            TextOf(LinkTree(p, avail)) != TextOf(p)
  {
    hide Found, LinkTree, Keeps, CleanProps, Reached, TextOf;
    var run := Node(Run, map[], "", "", [Node(TextElem, map[], full, "", []), extra]);
    CrowdedRun(full, extra);
    LosesText(run, avail);
    LoneRun(run, CleanProps());
    LoneRun(run, Keeps(avail));
    TextKept(Node(Paragraph, map[], "", "", [run]), avail);
  }

  lemma LoneRun(run: Tree, ok: Tree -> bool)
    requires run.tag == Run
    ensures Reached(Node(Paragraph, map[], "", "", [run]), ok) <==> ok(run)
  {
    assert [run][1..] == [] && ReachedAll([], ok);
    assert ReachedAll([run], ok) <==> ReachedOne(run, ok);
  }

  lemma RunShows(run: Tree)
    requires run.tag == Run
    ensures TextOf(run) == TextOfAll(run.children)
  {
    assert "" + TextOfAll(run.children) == TextOfAll(run.children);
  }

  lemma LeafText(full: string)
    ensures TextOf(Node(TextElem, map[], full, "", [])) == full
  {
    assert full + "" == full;
  }

  lemma CrowdedRun(full: string, extra: Tree)
    requires extra.tag != TextElem && extra.tag != RunProps && TextOf(extra) != ""
    ensures var run := Node(Run, map[], "", "", [Node(TextElem, map[], full, "", []), extra]);
            && |Only(run.children, TextElem)| == 1 && RunText(run) == full
            && CleanProps()(run) && TextOf(run) != full
  {
    var shown := Node(TextElem, map[], full, "", []);
    var run := Node(Run, map[], "", "", [shown, extra]);
    OnlyTwo(shown, extra, TextElem);
    OnlyTwo(shown, extra, RunProps);
    TextOfOne(extra);
    TextOfCons(shown, [extra]);
    LeafText(full);
    assert [shown] + [extra] == [shown, extra];
    RunShows(run);
    hide TextOf;
    assert |TextOf(run)| == |full| + |TextOf(extra)|;
  }

  lemma OnlyTwo(a: Tree, b: Tree, tag: Tag)
    requires b.tag != tag
    ensures Only([a, b], tag) == if a.tag == tag then [a] else []
  {
    assert [a, b][1..] == [b] && [b][1..] == [];
    assert Only([b], tag) == [];
  }

  lemma LosesText(run: Tree, avail: set<nat>)
    requires |Only(run.children, TextElem)| == 1 && Found(RunText(run), Available(avail)) != []
    requires TextOf(run) != RunText(run)
    ensures !Keeps(avail)(run)
  {
    hide Found;
  }

  // ----- Agreement with the audit

  /** What the walk sees inside single runs is visible in the joined text. */
  lemma {:induction false} CountVisible(t: Tree, want: Want)
    ensures Count(t, want) <= |Found(TextOf(t), want)|
    decreases t, 0
  {
    CountAllVisible(t.children, want);
    FoundJoin(if t.tag == TextElem then t.text else "", TextOfAll(t.children), want);
  }

  lemma {:induction false} CountAllVisible(cs: seq<Tree>, want: Want)
    ensures CountAll(cs, want) <= |Found(TextOfAll(cs), want)|
    decreases cs, 1
  {
    if cs != [] {
      if cs[0].tag == Run { RunVisible(cs[0], want); } else { CountVisible(cs[0], want); }
      CountAllVisible(cs[1..], want);
      FoundJoin(TextOf(cs[0]), TextOfAll(cs[1..]), want);
    }
  }

  lemma {:induction false} RunVisible(run: Tree, want: Want)
    requires run.tag == Run
    ensures |RunTokens(run, want)| <= |Found(TextOf(run), want)|
  {
    if |Only(run.children, TextElem)| == 1 {
      var before, after := OneText(run.children);
      FoundJoin(before, RunText(run), want);
      FoundJoin(before + RunText(run), after, want);
      assert TextOf(run) == TextOfAll(run.children);
    }
  }

  lemma {:induction false} CountSplit(t: Tree, lax: Want, strict: Want)
    requires forall x: string :: strict(x) ==> lax(x)
    ensures Count(t, lax) == Count(t, strict) + Count(t, Minus(lax, strict))
    decreases t, 0
  {
    CountAllSplit(t.children, lax, strict);
  }

  lemma {:induction false} CountAllSplit(cs: seq<Tree>, lax: Want, strict: Want)
    requires forall x: string :: strict(x) ==> lax(x)
    ensures CountAll(cs, lax) == CountAll(cs, strict) + CountAll(cs, Minus(lax, strict))
    decreases cs, 1
  {
    if cs != [] {
      if cs[0].tag == Run {
        if |Only(cs[0].children, TextElem)| == 1 { FoundSplit(RunText(cs[0]), lax, strict); }
      } else {
        CountSplit(cs[0], lax, strict);
      }
      CountAllSplit(cs[1..], lax, strict);
    }
  }

  /** When the audit reports no missing reference number, the linker links every
      audited citation that it can see in one run. */
  lemma {:induction false} NothingMissing(p: Tree, avail: set<nat>)
    requires forall c | c in Found(TextOf(p), Audited()) :: Linkable(c, avail)
    ensures Count(p, Available(avail)) == Count(p, Audited())
  {
    NoneRejected(TextOf(p), avail);
    CountVisible(p, Minus(Audited(), Available(avail)));
    CountSplit(p, Audited(), Available(avail));
  }

  lemma {:induction false} NoneRejected(s: string, avail: set<nat>)
    requires forall c | c in Found(s, Audited()) :: Linkable(c, avail)
    ensures Found(s, Minus(Audited(), Available(avail))) == []
  {
    if s != "" {
      FoundStep(s, Audited());
      NoneRejected(s[1..], avail);
      assert Head(s, Audited()) != [] ==> Head(s, Audited())[0] in Found(s, Audited());
    }
  }

  // ----- Which paragraphs the walk changes

  lemma {:induction false} CountZeroUnchanged(t: Tree, avail: set<nat>)
    ensures Count(t, Available(avail)) == 0 ==> LinkTree(t, avail) == t
    decreases t, 0
  {
    CountZeroAll(t.children, avail);
  }

  lemma {:induction false} CountZeroOne(c: Tree, avail: set<nat>)
    requires CountOne(c, Available(avail)) == 0
    ensures LinkOne(c, avail) == [c]
    decreases c, 1
  {
    if c.tag != Run { CountZeroUnchanged(c, avail); }
  }

  lemma {:induction false} CountZeroAll(cs: seq<Tree>, avail: set<nat>)
    ensures CountAll(cs, Available(avail)) == 0 ==> LinkAll(cs, avail) == cs
    decreases cs, 2
  {
    if cs != [] {
      CountZeroAll(cs[1..], avail);
      if CountOne(cs[0], Available(avail)) == 0 {
        CountZeroOne(cs[0], avail);
        SplitAt(cs, 1);
        assert cs[..1] == [cs[0]];
      }
    }
  }

  /** A paragraph that the walk changes shows a bracket before and after. */
  lemma {:induction false} ChangedShowsBracket(t: Tree, avail: set<nat>)
    requires Count(t, Available(avail)) > 0
    ensures '[' in TextOf(t) && '[' in TextOf(LinkTree(t, avail))
    decreases t, 0
  {
    CountVisible(t, Available(avail));
    FoundBracket(TextOf(t), Available(avail));
    ChangedAll(t.children, avail);
  }

  lemma {:induction false} ChangedAll(cs: seq<Tree>, avail: set<nat>)
    requires CountAll(cs, Available(avail)) > 0
    ensures '[' in TextOfAll(LinkAll(cs, avail))
    decreases cs, 1
  {
    TextOfJoin(LinkOne(cs[0], avail), LinkAll(cs[1..], avail));
    if CountOne(cs[0], Available(avail)) == 0 {
      ChangedAll(cs[1..], avail);
    } else if cs[0].tag == Run {
      PiecesCut(RunText(cs[0]), Available(avail));
      FoundBracket(RunText(cs[0]), Available(avail));
      RunNodesShow(cs[0], Pieces(RunText(cs[0]), Available(avail)), avail, '[');
    } else {
      ChangedShowsBracket(cs[0], avail);
      TextOfOne(LinkTree(cs[0], avail));
    }
  }

  lemma {:induction false} RunNodesShow(run: Tree, ps: seq<Piece>, avail: set<nat>, c: char)
    requires run.tag == Run && c in PiecesText(ps)
    ensures c in TextOfAll(RunNodes(run, ps, avail))
    decreases |ps|
  {
    TextOfJoin(PieceNodes(run, ps[0], avail), RunNodes(run, ps[1..], avail));
    if c in ps[0].text {
      if ps[0].Plain? {
        CloneTextOf(run, ps[0].text);
      } else {
        SegmentsCut(ps[0].text);
        TokenNodesShow(run, Segments(ps[0].text), avail, c);
      }
    } else {
      RunNodesShow(run, ps[1..], avail, c);
    }
  }

  lemma {:induction false} TokenNodesShow(run: Tree, gs: seq<Segment>, avail: set<nat>, c: char)
    requires run.tag == Run && c in SegmentsText(gs)
    ensures c in TextOfAll(TokenNodes(run, gs, avail))
    decreases |gs|
  {
    SegmentTextOf(run, gs[0], avail);
    TextOfCons(SegmentNode(run, gs[0], avail), TokenNodes(run, gs[1..], avail));
    if c !in gs[0].text { TokenNodesShow(run, gs[1..], avail, c); }
  }

  // ----- Hyperlink targets

  /** Hyperlinks that carry an anchor carry a good one. */
  function AnchorIs(good: string -> bool): Tree -> bool {
    (n: Tree) => n.tag == Hyperlink && Anchor in n.attrib ==> good(n.attrib[Anchor])
  }

  /** The walk only adds hyperlinks to `_Ref_n` for available n; whatever else is true
      of all anchors stays true. */
  lemma {:induction false} AnchorsKept(t: Tree, avail: set<nat>, good: string -> bool)
    requires Every(t, AnchorIs(good))
    requires forall n | n in avail :: good(RefName(n))
    ensures Every(LinkTree(t, avail), AnchorIs(good))
    decreases t, 0
  {
    AnchorsKeptAll(t.children, avail, good);
  }

  lemma {:induction false} AnchorsKeptAll(cs: seq<Tree>, avail: set<nat>, good: string -> bool)
    requires EveryOf(cs, AnchorIs(good))
    requires forall n | n in avail :: good(RefName(n))
    ensures EveryOf(LinkAll(cs, avail), AnchorIs(good))
    decreases cs, 1
  {
    if cs != [] {
      if cs[0].tag == Run {
        if RunTokens(cs[0], Available(avail)) != [] {
          RunNodesAnchors(cs[0], Pieces(RunText(cs[0]), Available(avail)), avail, good);
        }
      } else {
        AnchorsKept(cs[0], avail, good);
      }
      AnchorsKeptAll(cs[1..], avail, good);
      EveryJoin(LinkOne(cs[0], avail), LinkAll(cs[1..], avail), AnchorIs(good));
    }
  }

  lemma {:induction false} CloneAnchors(run: Tree, text: string, good: string -> bool)
    requires run.tag == Run && Every(run, AnchorIs(good))
    ensures Every(Clone(run, text), AnchorIs(good))
  {
    EveryOnly(run.children, RunProps, AnchorIs(good));
    EveryJoin(Only(run.children, RunProps), [TextNode(text)], AnchorIs(good));
    assert EveryOf([], AnchorIs(good));
    assert Every(TextNode(text), AnchorIs(good));
    assert [TextNode(text)][1..] == [];
  }

  lemma {:induction false} RunNodesAnchors(run: Tree, ps: seq<Piece>, avail: set<nat>, good: string -> bool)
    requires run.tag == Run && Every(run, AnchorIs(good))
    requires forall n | n in avail :: good(RefName(n))
    ensures EveryOf(RunNodes(run, ps, avail), AnchorIs(good))
    decreases |ps|
  {
    if ps != [] {
      if ps[0].Plain? {
        CloneAnchors(run, ps[0].text, good);
      } else {
        TokenNodesAnchors(run, Segments(ps[0].text), avail, good);
      }
      RunNodesAnchors(run, ps[1..], avail, good);
      EveryJoin(PieceNodes(run, ps[0], avail), RunNodes(run, ps[1..], avail), AnchorIs(good));
    }
  }

  lemma {:induction false} TokenNodesAnchors(run: Tree, gs: seq<Segment>, avail: set<nat>, good: string -> bool)
    requires run.tag == Run && Every(run, AnchorIs(good))
    requires forall n | n in avail :: good(RefName(n))
    ensures EveryOf(TokenNodes(run, gs, avail), AnchorIs(good))
    decreases |gs|
  {
    if gs != [] {
      var n := SegmentNode(run, gs[0], avail);
      var c := Clone(run, gs[0].text);
      CloneAnchors(run, gs[0].text, good);
      assert n != c ==> n.children == [c] && n.children[1..] == [] && EveryOf(n.children, AnchorIs(good));
      TokenNodesAnchors(run, gs[1..], avail, good);
      var rest := TokenNodes(run, gs[1..], avail);
      assert ([n] + rest)[1..] == rest;
    }
  }
}
