/** Turning citation tokens into internal hyperlinks: what the walk over one paragraph
    makes of its tree. */
module Linker {
  import opened PyText
  import opened Citations
  import opened WordTree

  function RefName(n: nat): string { "_Ref_" + Dec(n) }

  // ----- New nodes

  predicate EdgeSpace(s: string) { s != "" && (IsSpace(s[0]) || IsSpace(s[|s| - 1])) }

  function TextNode(text: string): Tree {
    Node(TextElem, if EdgeSpace(text) then map[Space := "preserve"] else map[], text, "", [])
  }

  /** A run like `run`, its properties kept, with `text` as its only content. */
  function Clone(run: Tree, text: string): Tree {
    run.(children := Only(run.children, RunProps) + [TextNode(text)])
  }

  function LinkNode(run: Tree, text: string, anchor: string): Tree {
    Node(Hyperlink, map[Anchor := anchor], "", "", [Clone(run, text)])
  }

  function SegmentNode(run: Tree, g: Segment, avail: set<nat>): Tree {
    if g.Digits? && AllDigits(g.text) && Val(g.text) in avail
    then LinkNode(run, g.text, RefName(Val(g.text)))
    else Clone(run, g.text)
  }

  function TokenNodes(run: Tree, gs: seq<Segment>, avail: set<nat>): seq<Tree> {
    if gs == [] then [] else [SegmentNode(run, gs[0], avail)] + TokenNodes(run, gs[1..], avail)
  }

  function PieceNodes(run: Tree, p: Piece, avail: set<nat>): seq<Tree> {
    match p
    case Plain(text) => [Clone(run, text)]
    case Citation(text) => TokenNodes(run, Segments(text), avail)
  }

  function RunNodes(run: Tree, ps: seq<Piece>, avail: set<nat>): seq<Tree> {
    if ps == [] then [] else PieceNodes(run, ps[0], avail) + RunNodes(run, ps[1..], avail)
  }

  // ----- The walk

  /** The wanted tokens of one run: none unless the run has exactly one text child. */
  function RunTokens(run: Tree, want: Want): seq<string> {
    var ts := Only(run.children, TextElem);
    if |ts| == 1 then Found(ts[0].text, want) else []
  }

  function RunText(run: Tree): string
    requires |Only(run.children, TextElem)| == 1
  {
    Only(run.children, TextElem)[0].text
  }

  /** What replaces a run in its parent. */
  function SplitRun(run: Tree, avail: set<nat>): seq<Tree> {
    if RunTokens(run, Available(avail)) == [] then [run]
    else RunNodes(run, Pieces(RunText(run), Available(avail)), avail)
  }

  function LinkTree(t: Tree, avail: set<nat>): (r: Tree)
    ensures r.tag == t.tag
    decreases t, 0
  {
    t.(children := LinkAll(t.children, avail))
  }

  function LinkOne(c: Tree, avail: set<nat>): seq<Tree>
    decreases c, 1
  {
    if c.tag == Run then SplitRun(c, avail) else [LinkTree(c, avail)]
  }

  function LinkAll(cs: seq<Tree>, avail: set<nat>): seq<Tree>
    decreases cs, 2
  {
    if cs == [] then [] else LinkOne(cs[0], avail) + LinkAll(cs[1..], avail)
  }

  /** Wanted tokens in the runs the walk reaches; it does not look inside runs. */
  function Count(t: Tree, want: Want): nat
    decreases t, 0
  {
    CountAll(t.children, want)
  }

  function CountOne(c: Tree, want: Want): nat
    decreases c, 1
  {
    if c.tag == Run then |RunTokens(c, want)| else Count(c, want)
  }

  function CountAll(cs: seq<Tree>, want: Want): nat
    decreases cs, 2
  {
    if cs == [] then 0 else CountOne(cs[0], want) + CountAll(cs[1..], want)
  }

  lemma {:induction false} LinkAllJoin(a: seq<Tree>, b: seq<Tree>, avail: set<nat>)
    ensures LinkAll(a + b, avail) == LinkAll(a, avail) + LinkAll(b, avail)
    ensures CountAll(a + b, Available(avail)) == CountAll(a, Available(avail)) + CountAll(b, Available(avail))
    decreases |a|
  {
    hide LinkOne, CountOne;
    if a == [] {
      assert a + b == b;
    } else {
      LinkAllJoin(a[1..], b, avail);
      assert (a + b)[1..] == a[1..] + b;
      assert LinkAll(a + b, avail) == LinkOne(a[0], avail) + (LinkAll(a[1..], avail) + LinkAll(b, avail));
    }
  }

  /** What replaces a run starts with a run, never with a hyperlink: a token starts with
      its bracket. */
  lemma {:induction false} SplitRunHead(run: Tree, avail: set<nat>)
    requires run.tag == Run
    ensures SplitRun(run, avail) != [] && SplitRun(run, avail)[0].tag == Run
  {
    hide Found, Linkable;
    if RunTokens(run, Available(avail)) != [] {
      var full, want := RunText(run), Available(avail);
      PiecesCut(full, want);
      PiecesHead(full, want);
      var ps := Pieces(full, want);
      if ps[0].Citation? {
        assert Segments(ps[0].text)[0].Gap?;
        assert TokenNodes(run, Segments(ps[0].text), avail)[0] == Clone(run, Segments(ps[0].text)[0].text);
      }
    }
  }

  lemma {:induction false} PiecesHead(full: string, want: Want)
    requires Found(full, want) != []
    ensures Pieces(full, want) != []
    ensures Pieces(full, want)[0].Citation? ==> Pieces(full, want)[0].text != "" && Pieces(full, want)[0].text[0] == '['
  {
    PiecesCut(full, want);
  }

  // ----- Nothing linkable is left, and a second walk changes nothing

  /** The walk passes over `c` without changing it. */
  ghost predicate Inert(c: Tree, avail: set<nat>) {
    LinkOne(c, avail) == [c] && CountOne(c, Available(avail)) == 0
  }

  ghost predicate InertAll(cs: seq<Tree>, avail: set<nat>) {
    cs == [] || (Inert(cs[0], avail) && InertAll(cs[1..], avail))
  }

  lemma {:induction false} InertJoin(a: seq<Tree>, b: seq<Tree>, avail: set<nat>)
    requires InertAll(a, avail) && InertAll(b, avail)
    ensures InertAll(a + b, avail)
    decreases |a|
  {
    if a == [] {
      assert a + b == b;
    } else {
      InertJoin(a[1..], b, avail);
      assert (a + b)[1..] == a[1..] + b;
    }
  }

  lemma {:induction false} InertFixed(cs: seq<Tree>, avail: set<nat>)
    requires InertAll(cs, avail)
    ensures LinkAll(cs, avail) == cs && CountAll(cs, Available(avail)) == 0
    decreases |cs|
  {
    if cs != [] {
      InertFixed(cs[1..], avail);
      assert cs == [cs[0]] + cs[1..];
    }
  }

  lemma {:induction false} CloneText(run: Tree, text: string)
    ensures Only(Clone(run, text).children, TextElem) == [TextNode(text)]
  {
    var props := Only(run.children, RunProps);
    OnlyTwice(run.children, RunProps, TextElem);
    OnlyJoin(props, [TextNode(text)], TextElem);
    assert Only([TextNode(text)], TextElem) == [TextNode(text)];
  }

  lemma {:induction false} CloneInert(run: Tree, text: string, avail: set<nat>)
    requires run.tag == Run && Found(text, Available(avail)) == []
    ensures Inert(Clone(run, text), avail)
  {
    CloneText(run, text);
  }

  lemma {:induction false} TokenNodesInert(run: Tree, gs: seq<Segment>, avail: set<nat>)
    requires run.tag == Run && SegmentsOk(gs)
    ensures InertAll(TokenNodes(run, gs, avail), avail)
    decreases |gs|
  {
    if gs != [] {
      var n := SegmentNode(run, gs[0], avail);
      SegmentNodeInert(run, gs[0], avail);
      TokenNodesInert(run, gs[1..], avail);
      assert ([n] + TokenNodes(run, gs[1..], avail))[1..] == TokenNodes(run, gs[1..], avail);
    }
  }

  lemma {:induction false} SegmentNodeInert(run: Tree, g: Segment, avail: set<nat>)
    requires run.tag == Run && SegmentOk(g)
    ensures Inert(SegmentNode(run, g, avail), avail)
  {
    var c := Clone(run, g.text);
    SegmentInert(g, Available(avail));
    CloneInert(run, g.text, avail);
    InertFixed([c], avail);
    var n := SegmentNode(run, g, avail);
    assert n != c ==> n.children == [c];
  }

  lemma {:induction false} RunNodesInert(run: Tree, ps: seq<Piece>, avail: set<nat>)
    requires run.tag == Run && PiecesOk(ps, Available(avail))
    ensures InertAll(RunNodes(run, ps, avail), avail)
    decreases |ps|
  {
    if ps != [] {
      if ps[0].Plain? {
        CloneInert(run, ps[0].text, avail);
      } else {
        SegmentsCut(ps[0].text);
        TokenNodesInert(run, Segments(ps[0].text), avail);
      }
      RunNodesInert(run, ps[1..], avail);
      InertJoin(PieceNodes(run, ps[0], avail), RunNodes(run, ps[1..], avail), avail);
    }
  }

  lemma {:induction false} SplitRunInert(run: Tree, avail: set<nat>)
    requires run.tag == Run
    ensures InertAll(SplitRun(run, avail), avail)
  {
    if RunTokens(run, Available(avail)) == [] {
      assert [run][1..] == [];
    } else {
      PiecesCut(RunText(run), Available(avail));
      RunNodesInert(run, Pieces(RunText(run), Available(avail)), avail);
    }
  }

  /** After a walk no reachable run with a single text child holds a citation whose
      numbers are all available, and walking again returns the same tree. */
  lemma {:induction false} LinkTreeStable(t: Tree, avail: set<nat>)
    ensures LinkTree(LinkTree(t, avail), avail) == LinkTree(t, avail)
    ensures Count(LinkTree(t, avail), Available(avail)) == 0
    decreases t, 0
  {
    LinkAllInert(t.children, avail);
    InertFixed(LinkAll(t.children, avail), avail);
  }

  lemma {:induction false} LinkAllInert(cs: seq<Tree>, avail: set<nat>)
    ensures InertAll(LinkAll(cs, avail), avail)
    decreases cs, 1
  {
    if cs != [] {
      if cs[0].tag == Run {
        SplitRunInert(cs[0], avail);
      } else {
        LinkTreeStable(cs[0], avail);
        assert LinkOne(cs[0], avail)[1..] == [];
      }
      LinkAllInert(cs[1..], avail);
      InertJoin(LinkOne(cs[0], avail), LinkAll(cs[1..], avail), avail);
    }
  }
}
