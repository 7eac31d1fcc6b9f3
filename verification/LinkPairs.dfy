/** Which hyperlinks the walk makes: for every digit group of a linkable token, its text and where it leads. */
module LinkPairs {
  import opened PyText
  import opened Citations
  import opened WordTree
  import opened Linker
  import opened LinkerText
  import opened TokenSpans
  import opened References
  import opened Crossref
  import opened CrossrefTheorems

  // ----- Hyperlinks of a tree

  /** The visible text of a hyperlink and its anchor. */
  datatype Pair = Pair(text: string, anchor: string)

  function OwnLink(t: Tree, text: string): seq<Pair> {
    if t.tag == Hyperlink && Anchor in t.attrib then [Pair(text, t.attrib[Anchor])] else []
  }

  /** The hyperlinks of a tree in document order. */
  function Links(t: Tree): seq<Pair>
    decreases t, 0
  {
    OwnLink(t, TextOf(t)) + LinksIn(t.children)
  }

  function LinksIn(ts: seq<Tree>): seq<Pair>
    decreases ts, 1
  {
    if ts == [] then [] else Links(ts[0]) + LinksIn(ts[1..])
  }

  lemma {:induction false} LinksJoin(a: seq<Tree>, b: seq<Tree>)
    ensures LinksIn(a + b) == LinksIn(a) + LinksIn(b)
    decreases |a|
  {
    hide Links;
    if a == [] {
      assert a + b == b;
    } else {
      LinksJoin(a[1..], b);
      assert (a + b)[1..] == a[1..] + b;
      Joined(Links(a[0]), LinksIn(a[1..]), LinksIn(b));
    }
  }

  lemma Joined<T>(a: seq<T>, b: seq<T>, c: seq<T>)
    ensures a + (b + c) == (a + b) + c
  {
  }

  lemma Alone<T>(a: seq<T>)
    ensures a + [] == a && [] + a == a
  {
  }

  lemma {:induction false} LinksOne(t: Tree)
    ensures LinksIn([t]) == Links(t)
  {
    hide Links;
    assert [t][1..] == [] && LinksIn([]) == [];
    Alone(Links(t));
  }

  // ----- What the links should be

  /** The longest stretches of digits in a text, from left to right. */
  function DigitGroups(s: string): seq<string>
    decreases |s|
  {
    if s == "" then []
    else if IsDigit(s[0]) then [s[..DigitPrefix(s)]] + DigitGroups(s[DigitPrefix(s)..])
    else DigitGroups(s[1..])
  }

  /** One link for every group that names a number with a reference. */
  function GroupLinks(groups: seq<string>, avail: set<nat>): seq<Pair> {
    if groups == [] then []
    else
      var s := groups[0];
      (if AllDigits(s) && Val(s) in avail then [Pair(s, "_Ref_" + Dec(Val(s)))] else []) + GroupLinks(groups[1..], avail)
  }

  function TokenLinks(tokens: seq<string>, avail: set<nat>): seq<Pair> {
    if tokens == [] then [] else GroupLinks(DigitGroups(tokens[0]), avail) + TokenLinks(tokens[1..], avail)
  }

  /** The wanted tokens of several texts. */
  function FoundAll(texts: seq<string>, want: Want): seq<string> {
    if texts == [] then [] else Found(texts[0], want) + FoundAll(texts[1..], want)
  }

  /** What a tree shows after the walk: a run that is split shows its one text and nothing else. */
  function TextAfter(t: Tree, avail: set<nat>): string
    decreases t, 0
  {
    (if t.tag == TextElem then t.text else "") + TextAfterAll(t.children, avail)
  }

  function TextAfterOne(c: Tree, avail: set<nat>): string
    decreases c, 1
  {
    if c.tag != Run then TextAfter(c, avail)
    else if RunTokens(c, Available(avail)) == [] then TextOf(c)
    else RunText(c)
  }

  function TextAfterAll(cs: seq<Tree>, avail: set<nat>): string
    decreases cs, 2
  {
    if cs == [] then "" else TextAfterOne(cs[0], avail) + TextAfterAll(cs[1..], avail)
  }

  /** The links after the walk: those of the linkable tokens of a run in its place, and all others as they were. */
  function LinksAfter(t: Tree, avail: set<nat>): seq<Pair>
    decreases t, 0
  {
    OwnLink(t, TextAfter(t, avail)) + LinksAfterAll(t.children, avail)
  }

  function LinksAfterOne(c: Tree, avail: set<nat>): seq<Pair>
    decreases c, 1
  {
    if c.tag != Run then LinksAfter(c, avail)
    else if RunTokens(c, Available(avail)) == [] then Links(c)
    else TokenLinks(Found(RunText(c), Available(avail)), avail)
  }

  function LinksAfterAll(cs: seq<Tree>, avail: set<nat>): seq<Pair>
    decreases cs, 2
  {
    if cs == [] then [] else LinksAfterOne(cs[0], avail) + LinksAfterAll(cs[1..], avail)
  }

  /** Run properties show no text and hold no hyperlinks, as in every schema-valid document. */
  function PlainProps(): Tree -> bool {
    (run: Tree) => TextOfAll(Only(run.children, RunProps)) == "" && LinksIn(Only(run.children, RunProps)) == []
  }

  // ----- The nodes of one token

  /** The digit segments of a token are its digit groups. */
  lemma {:induction false} GapSkipped(s: string, n: nat)
    requires n <= |s| && forall i | 0 <= i < n :: !IsDigit(s[i])
    ensures DigitGroups(s) == DigitGroups(s[n..])
    decreases n
  {
    if n > 0 {
      GapSkipped(s[1..], n - 1);
      assert s[1..][n - 1..] == s[n..];
    } else {
      assert s[n..] == s;
    }
  }

  lemma {:induction false} CloneLinks(run: Tree, text: string)
    requires run.tag == Run && PlainProps()(run)
    ensures Links(Clone(run, text)) == [] && TextOf(Clone(run, text)) == text
  {
    var t := TextNode(text);
    LinksJoin(Only(run.children, RunProps), [t]);
    assert LinksIn([]) == [] && Links(t) == [];
    LinksOne(t);
    CloneTextOf(run, text);
    assert "" + text == text;
  }

  lemma {:induction false} SegmentLinks(run: Tree, g: Segment, avail: set<nat>)
    requires run.tag == Run && PlainProps()(run)
    ensures Links(SegmentNode(run, g, avail))
         == if g.Digits? && AllDigits(g.text) && Val(g.text) in avail then [Pair(g.text, "_Ref_" + Dec(Val(g.text)))] else []
  {
    hide Clone, Only, Dec;
    CloneLinks(run, g.text);
    var n := SegmentNode(run, g, avail);
    if g.Digits? && AllDigits(g.text) && Val(g.text) in avail {
      assert n == LinkNode(run, g.text, RefName(Val(g.text)));
      LinkShows(n, Clone(run, g.text));
    }
  }

  lemma LinkShows(n: Tree, c: Tree)
    requires n.tag == Hyperlink && n.children == [c]
    ensures TextOf(n) == TextOf(c) && (Anchor in n.attrib && Links(c) == [] ==> Links(n) == [Pair(TextOf(c), n.attrib[Anchor])])
  {
    TextOfOne(c);
    LinksOne(c);
    assert "" + TextOfAll([c]) == TextOfAll([c]);
  }

  lemma {:induction false} TokenNodesLinks(run: Tree, gs: seq<Segment>, avail: set<nat>)
    requires run.tag == Run && PlainProps()(run)
    ensures LinksIn(TokenNodes(run, gs, avail)) == GroupLinks(DigitTexts(gs), avail)
    decreases |gs|
  {
    hide Links, SegmentNode, Only, Dec, Val;
    if gs != [] {
      var g, rest := gs[0], TokenNodes(run, gs[1..], avail);
      SegmentLinks(run, g, avail);
      TokenNodesLinks(run, gs[1..], avail);
      assert ([SegmentNode(run, g, avail)] + rest)[1..] == rest;
      if g.Digits? {
        assert ([g.text] + DigitTexts(gs[1..]))[1..] == DigitTexts(gs[1..]);
      } else {
        Alone(DigitTexts(gs[1..]));
        Alone(LinksIn(rest));
      }
    }
  }

  function DigitTexts(gs: seq<Segment>): seq<string> {
    if gs == [] then [] else (if gs[0].Digits? then [gs[0].text] else []) + DigitTexts(gs[1..])
  }

  lemma {:induction false} DigitTextsAre(s: string)
    ensures DigitTexts(Segments(s)) == DigitGroups(s)
    decreases |s|
  {
    if s != "" {
      if IsDigit(s[0]) {
        var n := DigitPrefix(s);
        DigitTextsAre(s[n..]);
        assert Segments(s)[1..] == Segments(s[n..]);
      } else {
        var n := GapPrefix(s);
        DigitTextsAre(s[n..]);
        GapSkipped(s, n);
        assert Segments(s)[1..] == Segments(s[n..]);
        Alone(DigitTexts(Segments(s[n..])));
      }
    }
  }

  /** The links of one token: its digit groups that name a reference, each leading to that very one. */
  lemma {:induction false} TokenPairs(run: Tree, token: string, avail: set<nat>)
    requires run.tag == Run
    ensures PlainProps()(run) ==>
              LinksIn(TokenNodes(run, Segments(token), avail)) == GroupLinks(DigitGroups(token), avail)
  {
    hide PlainProps, TokenNodes, Segments, DigitGroups, DigitTexts, GroupLinks, LinksIn;
    if PlainProps()(run) {
      TokenNodesLinks(run, Segments(token), avail);
      DigitTextsAre(token);
    }
  }

  // ----- One run

  lemma {:induction false} PieceLinks(run: Tree, p: Piece, avail: set<nat>)
    requires run.tag == Run && PlainProps()(run)
    ensures LinksIn(PieceNodes(run, p, avail)) == TokenLinks(if p.Citation? then [p.text] else [], avail)
  {
    hide Links, Clone, TokenNodes, GroupLinks, DigitGroups;
    match p
    case Plain(text) =>
      CloneLinks(run, text);
      LinksOne(Clone(run, text));
    case Citation(text) =>
      TokenNodesLinks(run, Segments(text), avail);
      DigitTextsAre(text);
      assert [text][1..] == [];
      Alone(GroupLinks(DigitGroups(text), avail));
  }

  lemma {:induction false} TokenLinksJoin(a: seq<string>, b: seq<string>, avail: set<nat>)
    ensures TokenLinks(a + b, avail) == TokenLinks(a, avail) + TokenLinks(b, avail)
    decreases |a|
  {
    hide GroupLinks, DigitGroups;
    if a == [] {
      Alone(b);
      Alone(TokenLinks(b, avail));
    } else {
      TokenLinksJoin(a[1..], b, avail);
      assert (a + b)[1..] == a[1..] + b;
      Joined(GroupLinks(DigitGroups(a[0]), avail), TokenLinks(a[1..], avail), TokenLinks(b, avail));
    }
  }

  lemma {:induction false} RunNodesLinks(run: Tree, ps: seq<Piece>, avail: set<nat>)
    requires run.tag == Run && PlainProps()(run)
    ensures LinksIn(RunNodes(run, ps, avail)) == TokenLinks(CitationTexts(ps), avail)
    decreases |ps|
  {
    hide Links, PieceNodes;
    if ps != [] {
      PieceLinks(run, ps[0], avail);
      RunNodesLinks(run, ps[1..], avail);
      LinksJoin(PieceNodes(run, ps[0], avail), RunNodes(run, ps[1..], avail));
      TokenLinksJoin(if ps[0].Citation? then [ps[0].text] else [], CitationTexts(ps[1..]), avail);
    }
  }

  lemma {:induction false} SplitRunLinks(run: Tree, avail: set<nat>)
    requires run.tag == Run && PlainProps()(run)
    ensures LinksIn(SplitRun(run, avail)) == LinksAfterOne(run, avail)
    ensures TextOfAll(SplitRun(run, avail)) == TextAfterOne(run, avail)
  {
    hide Found, Links, TextOf, RunNodes, Pieces, TokenLinks;
    if RunTokens(run, Available(avail)) == [] {
      LinksOne(run);
      TextOfOne(run);
    } else {
      var full, want := RunText(run), Available(avail);
      PiecesCut(full, want);
      RunNodesLinks(run, Pieces(full, want), avail);
      RunTextOf(run, Pieces(full, want), avail);
    }
  }

  // ----- A whole tree

  /** What a tree shows after the walk. */
  lemma {:induction false} TextExactly(t: Tree, avail: set<nat>)
    requires Reached(t, PlainProps())
    ensures TextOf(LinkTree(t, avail)) == TextAfter(t, avail)
    decreases t, 0
  {
    TextExactlyAll(t.children, avail);
  }

  lemma {:induction false} TextExactlyAll(cs: seq<Tree>, avail: set<nat>)
    requires ReachedAll(cs, PlainProps())
    ensures TextOfAll(LinkAll(cs, avail)) == TextAfterAll(cs, avail)
    decreases cs, 1
  {
    hide SplitRun, TextOf, PlainProps;
    if cs != [] {
      var c := cs[0];
      TextExactlyAll(cs[1..], avail);
      TextOfJoin(LinkOne(c, avail), LinkAll(cs[1..], avail));
      if c.tag == Run {
        SplitRunLinks(c, avail);
      } else {
        TextExactly(c, avail);
        TextOfOne(LinkTree(c, avail));
      }
    }
  }

  /** The hyperlinks of a paragraph after the walk, their texts and their anchors, in order. */
  lemma {:induction false} LinksExactly(t: Tree, avail: set<nat>)
    requires Reached(t, PlainProps())
    ensures Links(LinkTree(t, avail)) == LinksAfter(t, avail)
    decreases t, 0
  {
    hide TextOf, TextAfter, PlainProps;
    TextExactly(t, avail);
    LinksExactlyAll(t.children, avail);
  }

  lemma {:induction false} LinksExactlyAll(cs: seq<Tree>, avail: set<nat>)
    requires ReachedAll(cs, PlainProps())
    ensures LinksIn(LinkAll(cs, avail)) == LinksAfterAll(cs, avail)
    decreases cs, 1
  {
    hide SplitRun, Links, PlainProps;
    if cs != [] {
      var c := cs[0];
      LinksExactlyAll(cs[1..], avail);
      LinksJoin(LinkOne(c, avail), LinkAll(cs[1..], avail));
      if c.tag == Run {
        SplitRunLinks(c, avail);
      } else {
        LinksExactly(c, avail);
        LinksOne(LinkTree(c, avail));
      }
    }
  }

  // ----- Paragraphs that had no link

  lemma {:induction false} FoundAllJoin(a: seq<string>, b: seq<string>, want: Want)
    ensures FoundAll(a + b, want) == FoundAll(a, want) + FoundAll(b, want)
    decreases |a|
  {
    hide Found;
    if a == [] {
      Alone(b);
      Alone(FoundAll(b, want));
    } else {
      FoundAllJoin(a[1..], b, want);
      assert (a + b)[1..] == a[1..] + b;
      Joined(Found(a[0], want), FoundAll(a[1..], want), FoundAll(b, want));
    }
  }

  lemma {:induction false} NewLinks(t: Tree, avail: set<nat>)
    requires Links(t) == []
    ensures LinksAfter(t, avail) == TokenLinks(FoundAll(RunTexts(t), Available(avail)), avail)
    decreases t, 0
  {
    NewLinksAll(t.children, avail);
    Alone(LinksAfterAll(t.children, avail));
  }

  lemma {:induction false} NewLinksOne(c: Tree, avail: set<nat>)
    requires Links(c) == []
    ensures LinksAfterOne(c, avail) == TokenLinks(FoundAll(RunTextsOne(c), Available(avail)), avail)
    decreases c, 1
  {
    hide Found, TokenLinks;
    if c.tag != Run {
      NewLinks(c, avail);
    } else if |Only(c.children, TextElem)| == 1 {
      assert [RunText(c)][1..] == [];
      Alone(Found(RunText(c), Available(avail)));
      NoTokens(avail);
    } else {
      NoTokens(avail);
    }
  }

  lemma NoTokens(avail: set<nat>)
    ensures TokenLinks([], avail) == [] && FoundAll([], Available(avail)) == []
  {
  }

  lemma {:induction false} NewLinksAll(cs: seq<Tree>, avail: set<nat>)
    requires LinksIn(cs) == []
    ensures LinksAfterAll(cs, avail) == TokenLinks(FoundAll(RunTextsAll(cs), Available(avail)), avail)
    decreases cs, 2
  {
    hide Links, TokenLinks;
    if cs == [] {
      NoTokens(avail);
    } else {
      assert Links(cs[0]) == [] && LinksIn(cs[1..]) == [];
      NewLinksOne(cs[0], avail);
      NewLinksAll(cs[1..], avail);
      FoundAllJoin(RunTextsOne(cs[0]), RunTextsAll(cs[1..]), Available(avail));
      TokenLinksJoin(FoundAll(RunTextsOne(cs[0]), Available(avail)), FoundAll(RunTextsAll(cs[1..]), Available(avail)), avail);
    }
  }

  /** A paragraph without hyperlinks gets, in order, one for each digit group of its linkable tokens whose number has a
      reference: it shows the group and leads to the bookmark of that number. */
  lemma {:induction false} LinksMade(t: Tree, avail: set<nat>)
    requires Reached(t, PlainProps()) && Links(t) == []
    ensures Links(LinkTree(t, avail)) == TokenLinks(FoundAll(RunTexts(t), Available(avail)), avail)
  {
    hide Links, LinkTree, LinksAfter, TokenLinks;
    LinksExactly(t, avail);
    NewLinks(t, avail);
  }

  // ----- The document

  lemma BookmarkLinks(p: Tree, name: string, id: int)
    ensures Links(AddBookmark(p, name, id)) == Links(p)
  {
    var cs, at := p.children, InsertAt(p.children);
    var s, e := StartNode(name, id), EndNode(id);
    BookmarkAdded(p, name, id);
    assert Links(s) == [] && Links(e) == [];
    hide Links, TextOf;
    SplitAt(cs, at);
    LinksJoin(cs[..at] + [s] + cs[at..], [e]);
    LinksJoin(cs[..at] + [s], cs[at..]);
    LinksJoin(cs[..at], [s]);
    LinksJoin(cs[..at], cs[at..]);
    LinksOne(s);
    LinksOne(e);
    Alone(LinksIn(cs[..at]));
    Alone(LinksIn(cs[..at]) + LinksIn(cs[at..]));
    BookmarkedLinks(p, AddBookmark(p, name, id));
  }

  lemma BookmarkedLinks(p: Tree, q: Tree)
    requires q.tag == p.tag && q.attrib == p.attrib && TextOf(q) == TextOf(p) && LinksIn(q.children) == LinksIn(p.children)
    ensures Links(q) == Links(p)
  {
  }

  /** The hyperlinks of every output paragraph: before the heading the walk's, behind it those of the source. */
  lemma {:induction false} DocumentLinks(rd: Reading, doc: Doc, i: nat)
    requires Reasonable(rd) && Plan(rd, doc.paras).Some? && i < |doc.paras| && Reached(doc.paras[i], PlainProps())
    ensures i < |CrossReference(rd, doc).doc.paras|
    ensures Links(CrossReference(rd, doc).doc.paras[i])
         == if i < Heading(rd, doc) then LinksAfter(doc.paras[i], Numbers(rd, doc).Keys) else Links(doc.paras[i])
  {
    hide *;
    OutputParagraphs(rd, doc);
    if i < Heading(rd, doc) {
      LinksExactly(doc.paras[i], Numbers(rd, doc).Keys);
    } else {
      BehindHeading(rd, doc, i);
      var p, q := doc.paras[i], CrossReference(rd, doc).doc.paras[i];
      if q != p {
        var name, id :| q == AddBookmark(p, name, id);
        BookmarkLinks(p, name, id);
      }
    }
  }

  lemma {:induction false} GroupLinkAt(groups: seq<string>, avail: set<nat>, k: nat)
    requires k < |GroupLinks(groups, avail)|
    ensures var p := GroupLinks(groups, avail)[k];
            AllDigits(p.text) && Val(p.text) in avail && p.anchor == RefName(Val(p.text))
    decreases |groups|
  {
    hide Val, Dec;
    var s := groups[0];
    if !(k == 0 && AllDigits(s) && Val(s) in avail) {
      GroupLinkAt(groups[1..], avail, k - if AllDigits(s) && Val(s) in avail then 1 else 0);
    }
  }

  lemma {:induction false} TokenLinkAt(tokens: seq<string>, avail: set<nat>, k: nat)
    requires k < |TokenLinks(tokens, avail)|
    ensures var p := TokenLinks(tokens, avail)[k];
            AllDigits(p.text) && Val(p.text) in avail && p.anchor == RefName(Val(p.text))
    decreases |tokens|
  {
    hide GroupLinks, DigitGroups, Val, RefName;
    var first := GroupLinks(DigitGroups(tokens[0]), avail);
    if k < |first| {
      GroupLinkAt(DigitGroups(tokens[0]), avail, k);
    } else {
      TokenLinkAt(tokens[1..], avail, k - |first|);
    }
  }

  /** A link that shows a number leads to the bookmark in the entry of that very number. */
  lemma {:induction false} LinkLeads(rd: Reading, doc: Doc, tokens: seq<string>, k: nat)
    requires Reasonable(rd) && Plan(rd, doc.paras).Some? && k < |TokenLinks(tokens, Numbers(rd, doc).Keys)|
    ensures var p, index, out := TokenLinks(tokens, Numbers(rd, doc).Keys)[k], Numbers(rd, doc), CrossReference(rd, doc).doc;
            && AllDigits(p.text) && Val(p.text) in index
            && index[Val(p.text)] < |out.paras| && HasBookmark(out.paras[index[Val(p.text)]], p.anchor)
  {
    hide TokenLinks, HasBookmark, CrossReference, Plan, Reasonable, Val, Numbers;
    TokenLinkAt(tokens, Numbers(rd, doc).Keys, k);
    AllBookmarked(rd, doc, Val(TokenLinks(tokens, Numbers(rd, doc).Keys)[k].text));
  }

  // ----- Which tokens are linked

  /** A token of a text is linked exactly when the audit lists it and every number it names has a reference. */
  lemma {:induction false} LinkedTokens(s: string, avail: set<nat>, token: string)
    ensures token in Found(s, Available(avail)) <==>
              token in Found(s, Audited()) && forall n | n in Nums(token) :: n in avail
  {
    hide Nums, MatchLen;
    if s != "" {
      LinkedTokens(s[1..], avail, token);
      FoundStep(s, Available(avail));
      FoundStep(s, Audited());
    }
  }
}
