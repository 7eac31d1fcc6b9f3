/** Where the hyperlinks of a cross-referenced document lead. */
module LinkTargets {
  import opened PyText
  import opened Citations
  import opened WordTree
  import opened Linker
  import opened LinkerText
  import opened References
  import opened Crossref
  import opened CrossrefTheorems

  // ----- What the walk leaves of the source

  /** The source tree without what splitting a run drops: everything in it but its properties. */
  function Pruned(t: Tree, avail: set<nat>): Tree
    decreases t, 0
  {
    t.(children := PrunedAll(t.children, avail))
  }

  function PrunedOne(c: Tree, avail: set<nat>): Tree
    decreases c, 1
  {
    if c.tag != Run then Pruned(c, avail)
    else if RunTokens(c, Available(avail)) == [] then c
    else c.(children := Only(c.children, RunProps))
  }

  function PrunedAll(cs: seq<Tree>, avail: set<nat>): seq<Tree>
    decreases cs, 2
  {
    if cs == [] then [] else [PrunedOne(cs[0], avail)] + PrunedAll(cs[1..], avail)
  }

  // ----- Bookmarks

  lemma {:induction false} BookmarkCons(t: Tree, rest: seq<Tree>, name: string)
    ensures HasBookmarkIn([t] + rest, name) <==> HasBookmark(t, name) || HasBookmarkIn(rest, name)
  {
    hide HasBookmark;
    assert ([t] + rest)[1..] == rest;
  }

  lemma {:induction false} CloneBookmarks(run: Tree, text: string, name: string)
    requires run.tag == Run
    ensures HasBookmark(Clone(run, text), name) <==> HasBookmarkIn(Only(run.children, RunProps), name)
  {
    var t := TextNode(text);
    HasBookmarkJoin(Only(run.children, RunProps), [t], name);
    assert [t][1..] == [] && !HasBookmark(t, name);
  }

  lemma {:induction false} SegmentBookmarks(run: Tree, g: Segment, avail: set<nat>, name: string)
    requires run.tag == Run
    ensures HasBookmark(SegmentNode(run, g, avail), name) <==> HasBookmarkIn(Only(run.children, RunProps), name)
  {
    hide HasBookmarkIn, Only, Clone;
    CloneBookmarks(run, g.text, name);
    var c := Clone(run, g.text);
    BookmarkCons(c, [], name);
    assert [c] + [] == [c];
    NoBookmark(name);
  }

  lemma NoBookmark(name: string)
    ensures !HasBookmarkIn([], name)
  {
  }

  lemma {:induction false} TokenBookmarks(run: Tree, gs: seq<Segment>, avail: set<nat>, name: string)
    requires run.tag == Run
    ensures HasBookmarkIn(TokenNodes(run, gs, avail), name)
       <==> gs != [] && HasBookmarkIn(Only(run.children, RunProps), name)
    decreases |gs|
  {
    hide HasBookmark, SegmentNode, Only;
    if gs != [] {
      SegmentBookmarks(run, gs[0], avail, name);
      TokenBookmarks(run, gs[1..], avail, name);
      BookmarkCons(SegmentNode(run, gs[0], avail), TokenNodes(run, gs[1..], avail), name);
    }
  }

  lemma {:induction false} PieceBookmarks(run: Tree, p: Piece, avail: set<nat>, name: string)
    requires run.tag == Run && p.text != ""
    ensures HasBookmarkIn(PieceNodes(run, p, avail), name) <==> HasBookmarkIn(Only(run.children, RunProps), name)
  {
    hide HasBookmark, HasBookmarkIn, Only, Clone, TokenNodes;
    match p
    case Plain(text) =>
      CloneBookmarks(run, text, name);
      BookmarkCons(Clone(run, text), [], name);
      NoBookmark(name);
      assert [Clone(run, text)] + [] == [Clone(run, text)];
    case Citation(text) =>
      SegmentsCut(text);
      TokenBookmarks(run, Segments(text), avail, name);
  }

  lemma {:induction false} RunNodesBookmarks(run: Tree, ps: seq<Piece>, avail: set<nat>, name: string)
    requires run.tag == Run && PiecesOk(ps, Available(avail))
    ensures HasBookmarkIn(RunNodes(run, ps, avail), name)
       <==> ps != [] && HasBookmarkIn(Only(run.children, RunProps), name)
    decreases |ps|
  {
    hide HasBookmark, PieceNodes, Only;
    if ps != [] {
      PieceBookmarks(run, ps[0], avail, name);
      RunNodesBookmarks(run, ps[1..], avail, name);
      HasBookmarkJoin(PieceNodes(run, ps[0], avail), RunNodes(run, ps[1..], avail), name);
    }
  }

  lemma {:induction false} SplitRunBookmarks(run: Tree, avail: set<nat>, name: string)
    requires run.tag == Run
    ensures HasBookmarkIn(SplitRun(run, avail), name) <==> HasBookmark(PrunedOne(run, avail), name)
  {
    hide Found, RunNodes, Only, Pieces;
    if RunTokens(run, Available(avail)) == [] {
      BookmarkCons(run, [], name);
      assert [run] + [] == [run];
    } else {
      PiecesCut(RunText(run), Available(avail));
      PiecesHead(RunText(run), Available(avail));
      RunNodesBookmarks(run, Pieces(RunText(run), Available(avail)), avail, name);
    }
  }

  /** A bookmark of a paragraph is there after the walk exactly when no split run held it. */
  lemma {:induction false} LinkTreeBookmarks(t: Tree, avail: set<nat>, name: string)
    ensures HasBookmark(LinkTree(t, avail), name) <==> HasBookmark(Pruned(t, avail), name)
    decreases t, 0
  {
    LinkAllBookmarks(t.children, avail, name);
  }

  lemma {:induction false} LinkAllBookmarks(cs: seq<Tree>, avail: set<nat>, name: string)
    ensures HasBookmarkIn(LinkAll(cs, avail), name) <==> HasBookmarkIn(PrunedAll(cs, avail), name)
    decreases cs, 1
  {
    hide SplitRun, HasBookmark;
    if cs != [] {
      var c, rest := cs[0], LinkAll(cs[1..], avail);
      LinkAllBookmarks(cs[1..], avail, name);
      HasBookmarkJoin(LinkOne(c, avail), rest, name);
      BookmarkCons(PrunedOne(c, avail), PrunedAll(cs[1..], avail), name);
      if c.tag == Run {
        SplitRunBookmarks(c, avail, name);
      } else {
        LinkTreeBookmarks(c, avail, name);
        BookmarkCons(LinkTree(c, avail), [], name);
        NoBookmark(name);
        assert [LinkTree(c, avail)] + [] == [LinkTree(c, avail)];
      }
    }
  }

  // ----- Anchors

  lemma {:induction false} EveryCons(t: Tree, rest: seq<Tree>, ok: Tree -> bool)
    ensures EveryOf([t] + rest, ok) <==> Every(t, ok) && EveryOf(rest, ok)
    ensures EveryOf([t], ok) <==> Every(t, ok)
  {
    hide Every;
    assert ([t] + rest)[1..] == rest && [t][1..] == [] && EveryOf([], ok);
  }

  lemma {:induction false} CloneEvery(run: Tree, text: string, good: string -> bool)
    requires run.tag == Run
    ensures Every(Clone(run, text), AnchorIs(good)) <==> EveryOf(Only(run.children, RunProps), AnchorIs(good))
  {
    var t := TextNode(text);
    EveryJoin(Only(run.children, RunProps), [t], AnchorIs(good));
    assert [t][1..] == [] && Every(t, AnchorIs(good)) && EveryOf([t], AnchorIs(good));
  }

  lemma {:induction false} SegmentEvery(run: Tree, g: Segment, avail: set<nat>, good: string -> bool)
    requires run.tag == Run && forall n | n in avail :: good(RefName(n))
    ensures Every(SegmentNode(run, g, avail), AnchorIs(good)) <==> EveryOf(Only(run.children, RunProps), AnchorIs(good))
  {
    hide Only, Clone, EveryOf, RefName;
    CloneEvery(run, g.text, good);
    var c, n := Clone(run, g.text), SegmentNode(run, g, avail);
    EveryCons(c, [], AnchorIs(good));
    if n != c { assert n.children == [c] && AnchorIs(good)(n); }
  }

  lemma {:induction false} TokenEvery(run: Tree, gs: seq<Segment>, avail: set<nat>, good: string -> bool)
    requires run.tag == Run && forall n | n in avail :: good(RefName(n))
    ensures EveryOf(TokenNodes(run, gs, avail), AnchorIs(good))
       <==> gs == [] || EveryOf(Only(run.children, RunProps), AnchorIs(good))
    decreases |gs|
  {
    hide Every, SegmentNode, Only, RefName;
    if gs != [] {
      SegmentEvery(run, gs[0], avail, good);
      TokenEvery(run, gs[1..], avail, good);
      EveryCons(SegmentNode(run, gs[0], avail), TokenNodes(run, gs[1..], avail), AnchorIs(good));
    }
  }

  lemma {:induction false} PieceEvery(run: Tree, p: Piece, avail: set<nat>, good: string -> bool)
    requires run.tag == Run && p.text != "" && forall n | n in avail :: good(RefName(n))
    ensures EveryOf(PieceNodes(run, p, avail), AnchorIs(good))
       <==> EveryOf(Only(run.children, RunProps), AnchorIs(good))
  {
    hide Every, EveryOf, Only, Clone, TokenNodes, RefName;
    match p
    case Plain(text) =>
      CloneEvery(run, text, good);
      EveryCons(Clone(run, text), [], AnchorIs(good));
    case Citation(text) =>
      SegmentsCut(text);
      TokenEvery(run, Segments(text), avail, good);
  }

  lemma {:induction false} RunNodesEvery(run: Tree, ps: seq<Piece>, avail: set<nat>, good: string -> bool)
    requires run.tag == Run && PiecesOk(ps, Available(avail)) && forall n | n in avail :: good(RefName(n))
    ensures EveryOf(RunNodes(run, ps, avail), AnchorIs(good))
       <==> ps == [] || EveryOf(Only(run.children, RunProps), AnchorIs(good))
    decreases |ps|
  {
    hide Every, PieceNodes, Only, RefName;
    if ps != [] {
      PieceEvery(run, ps[0], avail, good);
      RunNodesEvery(run, ps[1..], avail, good);
      EveryJoin(PieceNodes(run, ps[0], avail), RunNodes(run, ps[1..], avail), AnchorIs(good));
    }
  }

  lemma {:induction false} SplitRunEvery(run: Tree, avail: set<nat>, good: string -> bool)
    requires run.tag == Run && forall n | n in avail :: good(RefName(n))
    ensures EveryOf(SplitRun(run, avail), AnchorIs(good)) <==> Every(PrunedOne(run, avail), AnchorIs(good))
  {
    hide Found, RunNodes, Only, Pieces, RefName;
    if RunTokens(run, Available(avail)) == [] {
      EveryCons(run, [], AnchorIs(good));
    } else {
      PiecesCut(RunText(run), Available(avail));
      PiecesHead(RunText(run), Available(avail));
      RunNodesEvery(run, Pieces(RunText(run), Available(avail)), avail, good);
    }
  }

  /** The anchors after the walk are those that no split run held, and names of available references. */
  lemma {:induction false} LinkTreeEvery(t: Tree, avail: set<nat>, good: string -> bool)
    requires forall n | n in avail :: good(RefName(n))
    ensures Every(LinkTree(t, avail), AnchorIs(good)) <==> Every(Pruned(t, avail), AnchorIs(good))
    decreases t, 0
  {
    hide RefName;
    LinkAllEvery(t.children, avail, good);
  }

  lemma {:induction false} LinkAllEvery(cs: seq<Tree>, avail: set<nat>, good: string -> bool)
    requires forall n | n in avail :: good(RefName(n))
    ensures EveryOf(LinkAll(cs, avail), AnchorIs(good)) <==> EveryOf(PrunedAll(cs, avail), AnchorIs(good))
    decreases cs, 1
  {
    hide SplitRun, Every, RefName;
    if cs != [] {
      var c, rest := cs[0], LinkAll(cs[1..], avail);
      LinkAllEvery(cs[1..], avail, good);
      EveryJoin(LinkOne(c, avail), rest, AnchorIs(good));
      EveryCons(PrunedOne(c, avail), PrunedAll(cs[1..], avail), AnchorIs(good));
      if c.tag == Run {
        SplitRunEvery(c, avail, good);
      } else {
        LinkTreeEvery(c, avail, good);
        EveryCons(LinkTree(c, avail), [], AnchorIs(good));
      }
    }
  }

  /** Pruning takes anchors away and adds none. */
  lemma {:induction false} PrunedEvery(t: Tree, avail: set<nat>, ok: Tree -> bool, good: string -> bool)
    requires ok == AnchorIs(good) && Every(t, ok)
    ensures Every(Pruned(t, avail), ok)
    decreases t, 0
  {
    PrunedAllEvery(t.children, avail, ok, good);
  }

  lemma {:induction false} PrunedAllEvery(cs: seq<Tree>, avail: set<nat>, ok: Tree -> bool, good: string -> bool)
    requires ok == AnchorIs(good) && EveryOf(cs, ok)
    ensures EveryOf(PrunedAll(cs, avail), ok)
    decreases cs, 1
  {
    if cs != [] {
      PrunedAllEvery(cs[1..], avail, ok, good);
      EveryCons(PrunedOne(cs[0], avail), PrunedAll(cs[1..], avail), ok);
      if cs[0].tag != Run {
        PrunedEvery(cs[0], avail, ok, good);
      } else {
        EveryOnly(cs[0].children, RunProps, ok);
      }
    }
  }

  lemma {:induction false} EverySame(t: Tree, f: string -> bool, g: string -> bool)
    requires forall a :: f(a) ==> g(a)
    requires Every(t, AnchorIs(f))
    ensures Every(t, AnchorIs(g))
    decreases t, 0
  {
    EveryOfSame(t.children, f, g);
  }

  lemma {:induction false} EveryOfSame(ts: seq<Tree>, f: string -> bool, g: string -> bool)
    requires forall a :: f(a) ==> g(a)
    requires EveryOf(ts, AnchorIs(f))
    ensures EveryOf(ts, AnchorIs(g))
    decreases ts, 1
  {
    if ts != [] {
      EverySame(ts[0], f, g);
      EveryOfSame(ts[1..], f, g);
    }
  }

  // ----- Paragraphs with a new bookmark

  lemma {:induction false} AddedKeeps(p: Tree, name: string, id: int, other: string, good: string -> bool)
    ensures HasBookmark(AddBookmark(p, name, id), other) ==> HasBookmark(p, other) || other == name
    ensures HasBookmark(p, other) ==> HasBookmark(AddBookmark(p, name, id), other)
    ensures Every(AddBookmark(p, name, id), AnchorIs(good)) <==> Every(p, AnchorIs(good))
  {
    var cs, at := p.children, InsertAt(p.children);
    var s, e := StartNode(name, id), EndNode(id);
    SplitAt(cs, at);
    assert p.children == cs[..at] + cs[at..];
    AroundBookmarks(cs[..at], s, cs[at..], e, other);
    AroundAnchors(cs[..at], s, cs[at..], e, AnchorIs(good));
  }

  lemma AroundBookmarks(a: seq<Tree>, s: Tree, b: seq<Tree>, e: Tree, name: string)
    requires s.children == e.children == [] && e.tag != BookmarkStart
    ensures HasBookmarkIn(a + [s] + b + [e], name) <==> HasBookmarkIn(a + b, name) || IsBookmark(s, name)
  {
    HasBookmarkJoin(a + [s] + b, [e], name);
    HasBookmarkJoin(a + [s], b, name);
    HasBookmarkJoin(a, [s], name);
    HasBookmarkJoin(a, b, name);
    BookmarkAlone(s, name);
    BookmarkAlone(e, name);
  }

  lemma BookmarkAlone(t: Tree, name: string)
    requires t.children == []
    ensures HasBookmarkIn([t], name) <==> IsBookmark(t, name)
  {
    assert [t][1..] == [] && !HasBookmarkIn([], name);
    assert HasBookmark(t, name) <==> IsBookmark(t, name);
  }

  lemma AroundAnchors(a: seq<Tree>, s: Tree, b: seq<Tree>, e: Tree, ok: Tree -> bool)
    requires s.children == e.children == [] && ok(s) && ok(e)
    ensures EveryOf(a + [s] + b + [e], ok) <==> EveryOf(a + b, ok)
  {
    EveryJoin(a + [s] + b, [e], ok);
    EveryJoin(a + [s], b, ok);
    EveryJoin(a, [s], ok);
    EveryJoin(a, b, ok);
    EveryAlone(s, ok);
    EveryAlone(e, ok);
  }

  lemma {:induction false} EveryAlone(t: Tree, ok: Tree -> bool)
    requires t.children == [] && ok(t)
    ensures EveryOf([t], ok)
  {
    assert [t][1..] == [];
  }

  // ----- The document

  /** The paragraphs of the source without what the walk drops. */
  function Survivors(rd: Reading, doc: Doc): (r: seq<Tree>)
    requires Reasonable(rd) && Plan(rd, doc.paras).Some?
    ensures |r| == |doc.paras|
  {
    seq(|doc.paras|, i requires 0 <= i < |doc.paras| =>
      if i < Heading(rd, doc) then Pruned(doc.paras[i], Numbers(rd, doc).Keys) else doc.paras[i])
  }

  /** The name is a bookmark of the paragraphs or of what is outside them, or the name of one of the numbers. */
  ghost predicate Marked(paras: seq<Tree>, outer: seq<Tree>, numbers: set<nat>, name: string) {
    HasBookmarkIn(paras, name) || HasBookmarkIn(outer, name) || exists n | n in numbers :: RefName(n) == name
  }

  /** Anchors into the reference list have a bookmark to go to. */
  ghost function Resolves(doc: Doc): string -> bool {
    (a: string) => StartsWith(a, "_Ref_") ==> Marked(doc.paras, doc.outer, {}, a)
  }

  /** Anchors into the reference list have a bookmark that survives or is made. */
  ghost function StaysMarked(rd: Reading, doc: Doc): string -> bool
    requires Reasonable(rd) && Plan(rd, doc.paras).Some?
  {
    var kept, numbers := Survivors(rd, doc), Numbers(rd, doc).Keys;
    (a: string) => StartsWith(a, "_Ref_") ==> Marked(kept, doc.outer, numbers, a)
  }

  /** No split run holds the last bookmark of the name, unless the run makes a new one. */
  ghost function KeepsBookmark(rd: Reading, doc: Doc): string -> bool
    requires Reasonable(rd) && Plan(rd, doc.paras).Some?
  {
    var kept, numbers := Survivors(rd, doc), Numbers(rd, doc).Keys;
    (a: string) => HasBookmarkIn(doc.paras, a) ==> Marked(kept, doc.outer, numbers, a)
  }

  /** What becomes of one paragraph, as far as bookmarks and anchors go. */
  lemma {:induction false} ParagraphKept(rd: Reading, doc: Doc, i: nat, a: string, good: string -> bool)
    requires Reasonable(rd) && Plan(rd, doc.paras).Some? && i < |doc.paras|
    requires forall n | n in Numbers(rd, doc) :: good(RefName(n))
    ensures |CrossReference(rd, doc).doc.paras| == |doc.paras|
    ensures var p, q := Survivors(rd, doc)[i], CrossReference(rd, doc).doc.paras[i];
            && (HasBookmark(p, a) ==> HasBookmark(q, a))
            && (HasBookmark(q, a) ==> HasBookmark(p, a) || exists n | n in Numbers(rd, doc) :: RefName(n) == a)
            && (Every(q, AnchorIs(good)) <==> Every(p, AnchorIs(good)))
  {
    hide HasBookmark, AddBookmark, RefName, LinkTree, Every, Reasonable, Plan, CrossReference, Pruned;
    hide Heading, Numbers, SortedNumbers, IdFor, NeedsBookmark;
    OutputParagraphs(rd, doc);
    var index, nums := Numbers(rd, doc), SortedNumbers(rd, doc);
    if i < Heading(rd, doc) {
      LinkTreeBookmarks(doc.paras[i], index.Keys, a);
      LinkTreeEvery(doc.paras[i], index.Keys, good);
    } else if k :| 0 <= k < |nums| && index[nums[k]] == i {
      AddedKeeps(doc.paras[i], RefName(nums[k]), IdFor(rd, doc, k), a, good);
    }
  }

  lemma {:induction false} HasBookmarkSome(ts: seq<Tree>, name: string)
    ensures HasBookmarkIn(ts, name) <==> exists i | 0 <= i < |ts| :: HasBookmark(ts[i], name)
    decreases |ts|
  {
    hide HasBookmark;
    if ts != [] {
      HasBookmarkSome(ts[1..], name);
      assert forall i | 0 <= i < |ts| - 1 :: ts[1..][i] == ts[i + 1];
      assert forall i | 1 <= i < |ts| :: ts[i] == ts[1..][i - 1];
    }
  }

  /** The bookmarks of the output are those that survive and those of the references. */
  lemma {:induction false} OutputBookmarks(rd: Reading, doc: Doc, a: string)
    requires Reasonable(rd) && Plan(rd, doc.paras).Some?
    ensures HasBookmarkIn(CrossReference(rd, doc).doc.paras, a) <==>
              HasBookmarkIn(Survivors(rd, doc), a) || exists n | n in Numbers(rd, doc) :: RefName(n) == a
  {
    hide HasBookmark, HasBookmarkIn, RefName, Reasonable, Plan, CrossReference, Survivors, Numbers, Every;
    var p, q := Survivors(rd, doc), CrossReference(rd, doc).doc.paras;
    forall i | 0 <= i < |p|
      ensures |p| == |q| && (HasBookmark(p[i], a) ==> HasBookmark(q[i], a))
      ensures HasBookmark(q[i], a) ==> HasBookmark(p[i], a) || exists n | n in Numbers(rd, doc) :: RefName(n) == a
    {
      ParagraphKept(rd, doc, i, a, (x: string) => true);
    }
    OutputLength(rd, doc);
    HasBookmarkSome(p, a);
    HasBookmarkSome(q, a);
    if n :| n in Numbers(rd, doc) && RefName(n) == a {
      AllBookmarked(rd, doc, n);
      assert HasBookmark(q[Numbers(rd, doc)[n]], a);
    }
  }

  lemma OutputLength(rd: Reading, doc: Doc)
    requires Reasonable(rd) && Plan(rd, doc.paras).Some?
    ensures |CrossReference(rd, doc).doc.paras| == |doc.paras| && CrossReference(rd, doc).doc.outer == doc.outer
  {
    hide CrossReference, Reasonable, Plan;
    OutputParagraphs(rd, doc);
  }

  lemma {:induction false} OutputResolves(rd: Reading, doc: Doc, a: string)
    requires Reasonable(rd) && Plan(rd, doc.paras).Some?
    ensures Resolves(CrossReference(rd, doc).doc)(a) == StaysMarked(rd, doc)(a)
  {
    hide HasBookmarkIn, RefName, Reasonable, Plan, CrossReference, Survivors, Numbers;
    OutputBookmarks(rd, doc, a);
    OutputLength(rd, doc);
  }

  /** The output has no dangling anchor exactly when every anchor that no split run held has a bookmark that no split
      run held, or the name of a reference. */
  lemma {:induction false} LinksResolveExactly(rd: Reading, doc: Doc)
    requires Reasonable(rd) && Plan(rd, doc.paras).Some?
    ensures var out := CrossReference(rd, doc).doc;
            EveryOf(out.paras, AnchorIs(Resolves(out))) <==> EveryOf(Survivors(rd, doc), AnchorIs(StaysMarked(rd, doc)))
  {
    hide Reasonable, Plan, CrossReference, Survivors, Numbers, Every, EveryOf, Resolves, StaysMarked, Heading, HasBookmark;
    var out, kept := CrossReference(rd, doc).doc, Survivors(rd, doc);
    var good := Resolves(out);
    forall a ensures good(a) == StaysMarked(rd, doc)(a) { OutputResolves(rd, doc, a); }
    forall n | n in Numbers(rd, doc) ensures good(RefName(n)) { NumberMarked(rd, doc, n); }
    OutputLength(rd, doc);
    forall i | 0 <= i < |kept| ensures Every(out.paras[i], AnchorIs(good)) <==> Every(kept[i], AnchorIs(good)) {
      ParagraphKept(rd, doc, i, "", good);
    }
    EveryAt(out.paras, AnchorIs(good));
    EveryAt(kept, AnchorIs(good));
    if EveryOf(kept, AnchorIs(good)) { EveryOfSame(kept, good, StaysMarked(rd, doc)); }
    if EveryOf(kept, AnchorIs(StaysMarked(rd, doc))) { EveryOfSame(kept, StaysMarked(rd, doc), good); }
  }

  lemma NumberMarked(rd: Reading, doc: Doc, n: nat)
    requires Reasonable(rd) && Plan(rd, doc.paras).Some? && n in Numbers(rd, doc)
    ensures Resolves(CrossReference(rd, doc).doc)(RefName(n))
  {
    hide HasBookmarkIn, RefName, Reasonable, Plan, CrossReference, Survivors, Numbers;
    OutputBookmarks(rd, doc, RefName(n));
  }

  lemma {:induction false} EveryAt(ts: seq<Tree>, ok: Tree -> bool)
    ensures EveryOf(ts, ok) <==> forall i | 0 <= i < |ts| :: Every(ts[i], ok)
    decreases |ts|
  {
    hide Every;
    if ts != [] {
      EveryAt(ts[1..], ok);
      assert forall i | 1 <= i < |ts| :: ts[i] == ts[1..][i - 1];
      assert forall i | 0 <= i < |ts| - 1 :: ts[1..][i] == ts[i + 1];
    }
  }

  lemma {:induction false} SurvivorsEvery(rd: Reading, doc: Doc, good: string -> bool)
    requires Reasonable(rd) && Plan(rd, doc.paras).Some? && EveryOf(doc.paras, AnchorIs(good))
    ensures EveryOf(Survivors(rd, doc), AnchorIs(good))
  {
    hide Every, EveryOf, Pruned, Reasonable, Plan;
    var kept := Survivors(rd, doc);
    EveryAt(doc.paras, AnchorIs(good));
    forall i | 0 <= i < |kept| ensures Every(kept[i], AnchorIs(good)) {
      if i < Heading(rd, doc) { PrunedEvery(doc.paras[i], Numbers(rd, doc).Keys, AnchorIs(good), good); }
    }
    EveryAt(kept, AnchorIs(good));
  }

  lemma {:induction false} EveryBoth(ts: seq<Tree>, f: string -> bool, g: string -> bool)
    requires EveryOf(ts, AnchorIs(f)) && EveryOf(ts, AnchorIs(g))
    ensures EveryOf(ts, AnchorIs((a: string) => f(a) && g(a)))
    decreases ts, 1
  {
    if ts != [] {
      EveryBothOne(ts[0], f, g);
      EveryBoth(ts[1..], f, g);
    }
  }

  lemma {:induction false} EveryBothOne(t: Tree, f: string -> bool, g: string -> bool)
    requires Every(t, AnchorIs(f)) && Every(t, AnchorIs(g))
    ensures Every(t, AnchorIs((a: string) => f(a) && g(a)))
    decreases t, 0
  {
    EveryBoth(t.children, f, g);
  }

  /** No dangling links: if every anchor of the source has its bookmark in the source, and no split run holds the last
      bookmark of an anchor in use, every anchor of the output has its bookmark in the output. */
  lemma {:induction false} NoDanglingLinks(rd: Reading, doc: Doc)
    requires Reasonable(rd) && Plan(rd, doc.paras).Some?
    ensures var out := CrossReference(rd, doc).doc;
            EveryOf(doc.paras, AnchorIs(Resolves(doc))) && EveryOf(doc.paras, AnchorIs(KeepsBookmark(rd, doc))) ==>
              EveryOf(out.paras, AnchorIs(Resolves(out)))
  {
    hide Reasonable, Plan, CrossReference, Survivors, Numbers, Every, EveryOf, HasBookmarkIn;
    LinksResolveExactly(rd, doc);
    var f, g := Resolves(doc), KeepsBookmark(rd, doc);
    if EveryOf(doc.paras, AnchorIs(f)) && EveryOf(doc.paras, AnchorIs(g)) {
      EveryBoth(doc.paras, f, g);
      EveryOfSame(doc.paras, (a: string) => f(a) && g(a), StaysMarked(rd, doc));
      SurvivorsEvery(rd, doc, StaysMarked(rd, doc));
    }
  }
}
