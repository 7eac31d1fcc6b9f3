/** What the walk keeps of a run's formatting, character by character. */
module RunFormat {
  import opened PyText
  import opened Citations
  import opened WordTree
  import opened Linker
  import opened LinkerText
  import opened LinkPairs

  // ----- Formatting

  /** What decides the look of a run's text: its attributes and its properties. */
  datatype Format = Format(attrib: map<Key, string>, props: seq<Tree>)

  datatype Painted = Painted(c: char, format: Option<Format>)

  function Paint(text: string, format: Option<Format>): (r: seq<Painted>)
    ensures |r| == |text| && forall k | 0 <= k < |r| :: r[k] == Painted(text[k], format)
  {
    seq(|text|, k requires 0 <= k < |text| => Painted(text[k], format))
  }

  function FormatOf(run: Tree): Option<Format> { Some(Format(run.attrib, Only(run.children, RunProps))) }

  /** The visible characters of a tree, each with the format of the outermost run it stands in. */
  function Look(t: Tree): seq<Painted>
    decreases t, 0
  {
    if t.tag == Run then Paint(TextOf(t), FormatOf(t))
    else Paint(if t.tag == TextElem then t.text else "", None) + LookAll(t.children)
  }

  function LookAll(ts: seq<Tree>): seq<Painted>
    decreases ts, 1
  {
    if ts == [] then [] else Look(ts[0]) + LookAll(ts[1..])
  }

  lemma {:induction false} LookJoin(a: seq<Tree>, b: seq<Tree>)
    ensures LookAll(a + b) == LookAll(a) + LookAll(b)
    decreases |a|
  {
    hide Look;
    if a == [] {
      assert a + b == b;
    } else {
      LookJoin(a[1..], b);
      assert (a + b)[1..] == a[1..] + b;
      Joined(Look(a[0]), LookAll(a[1..]), LookAll(b));
    }
  }

  lemma LookOne(t: Tree)
    ensures LookAll([t]) == Look(t)
  {
    hide Look;
    assert [t][1..] == [] && LookAll([]) == [];
    Alone(Look(t));
  }

  lemma PaintJoin(a: string, b: string, format: Option<Format>)
    ensures Paint(a + b, format) == Paint(a, format) + Paint(b, format)
  {
  }

  /** A clone looks like its run. */
  lemma {:induction false} CloneLook(run: Tree, text: string)
    requires run.tag == Run && CleanProps()(run)
    ensures Look(Clone(run, text)) == Paint(text, FormatOf(run))
  {
    CloneTextOf(run, text);
    assert "" + text == text;
    var t := TextNode(text);
    OnlyJoin(Only(run.children, RunProps), [t], RunProps);
    OnlyTwice(run.children, RunProps, RunProps);
    assert [t][1..] == [] && Only([t], RunProps) == [];
    Alone(Only(run.children, RunProps));
  }

  lemma {:induction false} SegmentLook(run: Tree, g: Segment, avail: set<nat>)
    requires run.tag == Run && CleanProps()(run)
    ensures Look(SegmentNode(run, g, avail)) == Paint(g.text, FormatOf(run))
  {
    hide Clone, FormatOf, Val, RefName;
    CloneLook(run, g.text);
    var n, c := SegmentNode(run, g, avail), Clone(run, g.text);
    if n != c {
      LookOne(c);
      assert n.tag == Hyperlink && n.children == [c] && Paint("", None) == [];
      Alone(Look(c));
    }
  }

  lemma {:induction false} TokenLook(run: Tree, gs: seq<Segment>, avail: set<nat>)
    requires run.tag == Run && CleanProps()(run)
    ensures LookAll(TokenNodes(run, gs, avail)) == Paint(SegmentsText(gs), FormatOf(run))
    decreases |gs|
  {
    hide Look, SegmentNode, FormatOf;
    if gs != [] {
      SegmentLook(run, gs[0], avail);
      TokenLook(run, gs[1..], avail);
      PaintJoin(gs[0].text, SegmentsText(gs[1..]), FormatOf(run));
      var n, rest := SegmentNode(run, gs[0], avail), TokenNodes(run, gs[1..], avail);
      assert ([n] + rest)[1..] == rest;
    }
  }

  lemma {:induction false} RunNodesLook(run: Tree, ps: seq<Piece>, avail: set<nat>)
    requires run.tag == Run && CleanProps()(run)
    ensures LookAll(RunNodes(run, ps, avail)) == Paint(PiecesText(ps), FormatOf(run))
    decreases |ps|
  {
    hide Look, PieceNodes, FormatOf;
    if ps != [] {
      PieceLook(run, ps[0], avail);
      RunNodesLook(run, ps[1..], avail);
      PaintJoin(ps[0].text, PiecesText(ps[1..]), FormatOf(run));
      LookJoin(PieceNodes(run, ps[0], avail), RunNodes(run, ps[1..], avail));
    }
  }

  lemma {:induction false} PieceLook(run: Tree, p: Piece, avail: set<nat>)
    requires run.tag == Run && CleanProps()(run)
    ensures LookAll(PieceNodes(run, p, avail)) == Paint(p.text, FormatOf(run))
  {
    hide Look, Clone, FormatOf, Segments;
    match p
    case Plain(text) =>
      CloneLook(run, text);
      LookOne(Clone(run, text));
    case Citation(text) =>
      TokenLook(run, Segments(text), avail);
      SegmentsCut(text);
  }

  lemma {:induction false} SplitRunLook(run: Tree, avail: set<nat>)
    requires run.tag == Run && CleanProps()(run)
    ensures LookAll(SplitRun(run, avail)) == Paint(TextAfterOne(run, avail), FormatOf(run))
  {
    hide Found, RunNodes, Pieces, FormatOf, TextOf;
    if RunTokens(run, Available(avail)) == [] {
      LookOne(run);
    } else {
      PiecesCut(RunText(run), Available(avail));
      RunNodesLook(run, Pieces(RunText(run), Available(avail)), avail);
    }
  }

  /** The look after the walk: a split run shows its one text in its own format, all else is as it was. */
  function LookAfter(t: Tree, avail: set<nat>): seq<Painted>
    decreases t, 0
  {
    Paint(if t.tag == TextElem then t.text else "", None) + LookAfterAll(t.children, avail)
  }

  function LookAfterOne(c: Tree, avail: set<nat>): seq<Painted>
    decreases c, 1
  {
    if c.tag == Run then Paint(TextAfterOne(c, avail), FormatOf(c)) else LookAfter(c, avail)
  }

  function LookAfterAll(cs: seq<Tree>, avail: set<nat>): seq<Painted>
    decreases cs, 2
  {
    if cs == [] then [] else LookAfterOne(cs[0], avail) + LookAfterAll(cs[1..], avail)
  }

  /** Every character that stays keeps the format of its run. */
  lemma {:induction false} LookExactly(t: Tree, avail: set<nat>)
    requires t.tag != Run && Reached(t, CleanProps())
    ensures Look(LinkTree(t, avail)) == LookAfter(t, avail)
    decreases t, 0
  {
    LookExactlyAll(t.children, avail);
  }

  lemma {:induction false} LookExactlyAll(cs: seq<Tree>, avail: set<nat>)
    requires ReachedAll(cs, CleanProps())
    ensures LookAll(LinkAll(cs, avail)) == LookAfterAll(cs, avail)
    decreases cs, 1
  {
    hide SplitRun, Look, CleanProps, FormatOf, TextAfterOne;
    if cs != [] {
      var c := cs[0];
      LookExactlyAll(cs[1..], avail);
      LookJoin(LinkOne(c, avail), LinkAll(cs[1..], avail));
      if c.tag == Run {
        SplitRunLook(c, avail);
      } else {
        LookExactly(c, avail);
        LookOne(LinkTree(c, avail));
      }
    }
  }

  /** So a paragraph whose text is kept looks the same after the walk. */
  lemma {:induction false} LookKept(t: Tree, avail: set<nat>)
    requires t.tag != Run && Reached(t, CleanProps()) && Reached(t, Keeps(avail))
    ensures Look(LinkTree(t, avail)) == Look(t)
  {
    hide Look, LinkTree;
    LookExactly(t, avail);
    LookSame(t, avail);
  }

  lemma {:induction false} LookSame(t: Tree, avail: set<nat>)
    requires t.tag != Run && Reached(t, Keeps(avail))
    ensures LookAfter(t, avail) == Look(t)
    decreases t, 0
  {
    LookSameAll(t.children, avail);
  }

  lemma {:induction false} LookSameAll(cs: seq<Tree>, avail: set<nat>)
    requires ReachedAll(cs, Keeps(avail))
    ensures LookAfterAll(cs, avail) == LookAll(cs)
    decreases cs, 1
  {
    if cs != [] {
      if cs[0].tag != Run { LookSame(cs[0], avail); }
      LookSameAll(cs[1..], avail);
    }
  }

  // ----- Space at the edge of a text

  /** A text that begins or ends with a space says that it is to be kept. */
  function SpaceMarked(): Tree -> bool {
    (n: Tree) => n.tag == TextElem && n.text != "" && (IsSpace(n.text[0]) || IsSpace(n.text[|n.text| - 1])) ==>
      Space in n.attrib && n.attrib[Space] == "preserve"
  }

  lemma {:induction false} CloneMarked(run: Tree, text: string)
    requires run.tag == Run && Every(run, SpaceMarked())
    ensures Every(Clone(run, text), SpaceMarked())
  {
    EveryOnly(run.children, RunProps, SpaceMarked());
    EveryJoin(Only(run.children, RunProps), [TextNode(text)], SpaceMarked());
    assert [TextNode(text)][1..] == [] && EveryOf([], SpaceMarked());
    assert Every(TextNode(text), SpaceMarked());
  }

  lemma {:induction false} TokenMarked(run: Tree, gs: seq<Segment>, avail: set<nat>)
    requires run.tag == Run && Every(run, SpaceMarked())
    ensures EveryOf(TokenNodes(run, gs, avail), SpaceMarked())
    decreases |gs|
  {
    if gs != [] {
      CloneMarked(run, gs[0].text);
      TokenMarked(run, gs[1..], avail);
      var c := Clone(run, gs[0].text);
      assert [c][1..] == [] && EveryOf([], SpaceMarked());
      hide Clone;
      var n, rest := SegmentNode(run, gs[0], avail), TokenNodes(run, gs[1..], avail);
      assert Every(n, SpaceMarked());
      assert ([n] + rest)[1..] == rest;
    }
  }

  lemma {:induction false} RunNodesMarked(run: Tree, ps: seq<Piece>, avail: set<nat>)
    requires run.tag == Run && Every(run, SpaceMarked())
    ensures EveryOf(RunNodes(run, ps, avail), SpaceMarked())
    decreases |ps|
  {
    hide Every, Clone, SpaceMarked;
    if ps != [] {
      RunNodesMarked(run, ps[1..], avail);
      match ps[0] {
        case Plain(text) =>
          CloneMarked(run, text);
          assert [Clone(run, text)][1..] == [];
        case Citation(text) =>
          TokenMarked(run, Segments(text), avail);
      }
      EveryJoin(PieceNodes(run, ps[0], avail), RunNodes(run, ps[1..], avail), SpaceMarked());
    }
  }

  /** The walk makes no text whose space would be dropped at its edge. */
  lemma {:induction false} SpacesMarked(t: Tree, avail: set<nat>)
    requires Every(t, SpaceMarked())
    ensures Every(LinkTree(t, avail), SpaceMarked())
    decreases t, 0
  {
    SpacesMarkedAll(t.children, avail);
  }

  lemma {:induction false} SpacesMarkedAll(cs: seq<Tree>, avail: set<nat>)
    requires EveryOf(cs, SpaceMarked())
    ensures EveryOf(LinkAll(cs, avail), SpaceMarked())
    decreases cs, 1
  {
    hide Every, Found, SpaceMarked, RunNodes;
    if cs != [] {
      var c := cs[0];
      SpacesMarkedAll(cs[1..], avail);
      EveryJoin(LinkOne(c, avail), LinkAll(cs[1..], avail), SpaceMarked());
      if c.tag != Run {
        SpacesMarked(c, avail);
        assert [LinkTree(c, avail)][1..] == [];
      } else if RunTokens(c, Available(avail)) != [] {
        RunNodesMarked(c, Pieces(RunText(c), Available(avail)), avail);
      } else {
        assert [c][1..] == [];
      }
    }
  }
}
