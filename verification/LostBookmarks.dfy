/** A document whose link loses its bookmark when a run is split. */
module LostBookmarks {
  import opened PyText
  import opened Citations
  import opened WordTree
  import opened Linker
  import opened LinkerText
  import opened References
  import opened Crossref
  import opened CrossrefTheorems
  import opened LinkTargets

  // ----- The run that is split

  function TextRun(text: string): Tree { Node(Run, map[], "", "", [Node(TextElem, map[], text, "", [])]) }

  /** A run that shows a text and starts a bookmark behind it. */
  function MarkedRun(full: string, name: string, id: int): Tree {
    Node(Run, map[], "", "", [Node(TextElem, map[], full, "", []), StartNode(name, id)])
  }

  function LinkTo(name: string): Tree { Node(Hyperlink, map[Anchor := name], "", "", []) }

  function Para(children: seq<Tree>): Tree { Node(Paragraph, map[], "", "", children) }

  lemma MarkedRunText(full: string, name: string, id: int)
    ensures var run := MarkedRun(full, name, id);
            && |Only(run.children, TextElem)| == 1 && RunText(run) == full && Only(run.children, RunProps) == []
            && TextOf(run) == full && HasBookmark(run, name)
  {
    var text, start := Node(TextElem, map[], full, "", []), StartNode(name, id);
    OnlyTwo(text, start, TextElem);
    OnlyTwo(text, start, RunProps);
    TextOfCons(text, [start]);
    TextOfOne(start);
    LeafText(full);
    assert TextOf(start) == "" && full + "" == full;
    assert [text] + [start] == [text, start];
    BookmarkCons(text, [start], name);
    BookmarkAlone(start, name);
  }

  /** A split run with a bookmark: the paragraph has it before the walk and not after. */
  lemma {:induction false} BookmarkLost(full: string, name: string, id: int, rest: seq<Tree>, avail: set<nat>)
    requires Found(full, Available(avail)) != [] && !HasBookmarkIn(PrunedAll(rest, avail), name)
    ensures var p := Para([MarkedRun(full, name, id)] + rest);
            && HasBookmark(p, name) && !HasBookmark(Pruned(p, avail), name) && !HasBookmark(LinkTree(p, avail), name)
  {
    hide Found, LinkTree, HasBookmarkIn, MarkedRun;
    var run := MarkedRun(full, name, id);
    var p := Para([run] + rest);
    MarkedRunText(full, name, id);
    BookmarkCons(run, rest, name);
    assert ([run] + rest)[1..] == rest;
    MarkedRunPruned(full, name, id, avail);
    BookmarkCons(PrunedOne(run, avail), PrunedAll(rest, avail), name);
    NoBookmark(name);
    LinkTreeBookmarks(p, avail, name);
  }

  lemma MarkedRunPruned(full: string, name: string, id: int, avail: set<nat>)
    requires Found(full, Available(avail)) != []
    ensures PrunedOne(MarkedRun(full, name, id), avail) == Node(Run, map[], "", "", [])
  {
    hide Found;
    MarkedRunText(full, name, id);
  }

  /** A document of three paragraphs: a citation in a run with a bookmark and a link to that bookmark, the heading, and
      one reference. */
  function LinkedDoc(full: string, name: string, title: string, entry: string): Doc {
    Doc([], [Para([MarkedRun(full, name, 1), LinkTo(name)]), Para([TextRun(title)]), Para([TextRun(entry)])])
  }

  lemma TextRunPlain(text: string, name: string, ok: Tree -> bool, good: string -> bool)
    requires ok == AnchorIs(good)
    ensures var p := Para([TextRun(text)]);
            TextOf(p) == text && !HasBookmark(p, name) && Every(p, ok)
  {
    var leaf, run := Node(TextElem, map[], text, "", []), TextRun(text);
    LeafText(text);
    TextOfOne(leaf);
    TextOfOne(run);
    RunShows(run);
    assert "" + TextOfAll([run]) == text;
    BookmarkAlone(leaf, name);
    BookmarkCons(run, [], name);
    EveryAlone(leaf, ok);
    assert [run] + [] == [run];
    EveryCons(run, [], ok);
  }

  lemma LinkedText(full: string, name: string, title: string, entry: string)
    ensures Texts(LinkedDoc(full, name, title, entry).paras) == [full, title, entry]
  {
    hide TextOf;
    var run, link := MarkedRun(full, name, 1), LinkTo(name);
    MarkedRunText(full, name, 1);
    TextOfCons(run, [link]);
    TextOfOne(link);
    LinkText(name);
    ParaText([run, link]);
    assert [run] + [link] == [run, link] && full + "" == full;
    TextRunPlain(title, name, AnchorIs(_ => true), _ => true);
    TextRunPlain(entry, name, AnchorIs(_ => true), _ => true);
  }

  lemma LinkText(name: string)
    ensures TextOf(LinkTo(name)) == ""
  {
  }

  lemma ParaText(cs: seq<Tree>)
    ensures TextOf(Para(cs)) == TextOfAll(cs)
  {
    assert "" + TextOfAll(cs) == TextOfAll(cs);
  }

  /** The plan read from that document. */
  lemma {:induction false} LinkedPlan(rd: Reading, full: string, name: string, title: string, entry: string, n: nat)
    requires Reasonable(rd) && '[' in full && rd.heading(title) && !Blank(entry) && rd.number(Strip(entry)) == Some(n)
    ensures Plan(rd, LinkedDoc(full, name, title, entry).paras) == Some((1, map[n := 2]))
  {
    hide Read, Texts, LinkedDoc, Blank;
    var doc, texts := LinkedDoc(full, name, title, entry), [full, title, entry];
    LinkedText(full, name, title, entry);
    PlanFrom(rd, doc.paras);
    assert HeadingFrom(rd, texts, 1) == 1 && HeadingFrom(rd, texts, 0) == 1;
    assert Items(texts, 3) == [] && Items(texts, 2) == [Item(2, entry)];
    OneEntry(rd, Item(2, entry), n);
  }

  lemma OneEntry(rd: Reading, item: Item, n: nat)
    requires rd.number(Strip(item.text)) == Some(n)
    ensures Index(Entries(rd, [item])) == map[n := item.idx]
  {
    var ref, begin := Ref(n, item.idx, Strip(item.text)), State([], None, 1);
    assert begin.All() == [];
    assert [item][..0] == [] && Fold(rd, [item]) == Step(rd, begin, item);
    hide Fold, Step;
    OneStep(rd, item, n);
    assert Entries(rd, [item]) == [ref];
    assert [ref][..0] == [] && Index([]) == map[];
  }

  lemma OneStep(rd: Reading, item: Item, n: nat)
    requires rd.number(Strip(item.text)) == Some(n)
    ensures Step(rd, State([], None, 1), item).All() == [Ref(n, item.idx, Strip(item.text))]
  {
    hide Strip;
    var ref := Ref(n, item.idx, Strip(item.text));
    assert State([], None, 1).All() == [] && [] + [ref] == [ref];
  }

  lemma LinkedResolves(full: string, name: string, title: string, entry: string)
    ensures var doc := LinkedDoc(full, name, title, entry);
            EveryOf(doc.paras, AnchorIs(Resolves(doc)))
  {
    hide HasBookmark, Every, EveryOf;
    var doc := LinkedDoc(full, name, title, entry);
    var p, good := doc.paras[0], Resolves(doc);
    var run, link := MarkedRun(full, name, 1), LinkTo(name);
    MarkedRunText(full, name, 1);
    assert [run] + [link] == [run, link];
    BookmarkCons(run, [link], name);
    assert HasBookmark(p, name) by { ParaBookmark([run, link], name); }
    HasBookmarkSome(doc.paras, name);
    assert good(name);
    LinkedAnchors(full, name, good);
    TextRunPlain(title, name, AnchorIs(good), good);
    TextRunPlain(entry, name, AnchorIs(good), good);
    EveryAt(doc.paras, AnchorIs(good));
  }

  lemma ParaBookmark(cs: seq<Tree>, name: string)
    ensures HasBookmark(Para(cs), name) <==> HasBookmarkIn(cs, name)
  {
  }

  lemma LinkedAnchors(full: string, name: string, good: string -> bool)
    ensures Every(Para([MarkedRun(full, name, 1), LinkTo(name)]), AnchorIs(good)) <==> good(name)
  {
    var run, link := MarkedRun(full, name, 1), LinkTo(name);
    var text, start := run.children[0], run.children[1];
    EveryAlone(text, AnchorIs(good));
    EveryCons(text, [start], AnchorIs(good));
    EveryAlone(start, AnchorIs(good));
    assert [text] + [start] == run.children && Every(run, AnchorIs(good));
    EveryCons(run, [link], AnchorIs(good));
    EveryCons(link, [], AnchorIs(good));
    assert [run] + [link] == [run, link];
    assert Every(link, AnchorIs(good)) <==> good(name);
  }

  /** A link that led to a bookmark leads nowhere afterwards: the run with the bookmark is split for its citation. */
  lemma {:induction false} LinkDangles(rd: Reading, full: string, name: string, title: string, entry: string, n: nat)
    requires Reasonable(rd) && rd.heading(title) && !Blank(entry) && rd.number(Strip(entry)) == Some(n)
    requires Found(full, Available({n})) != [] && StartsWith(name, "_Ref_") && name != RefName(n)
    ensures var doc := LinkedDoc(full, name, title, entry);
            && Plan(rd, doc.paras).Some?
            && EveryOf(doc.paras, AnchorIs(Resolves(doc)))
            && var out := CrossReference(rd, doc).doc;
            !EveryOf(out.paras, AnchorIs(Resolves(out)))
  {
    hide Plan, CrossReference, Found, Blank, HasBookmark, Every, EveryOf, Pruned, StartsWith, RefName, Reasonable;
    var doc := LinkedDoc(full, name, title, entry);
    FoundBracket(full, Available({n}));
    LinkedPlan(rd, full, name, title, entry, n);
    LinkedResolves(full, name, title, entry);
    LinksResolveExactly(rd, doc);
    var kept, good := Survivors(rd, doc), StaysMarked(rd, doc);
    assert Numbers(rd, doc).Keys == {n} && Heading(rd, doc) == 1;
    PrunedPara(full, name, {n});
    TextRunPlain(title, name, AnchorIs(good), good);
    TextRunPlain(entry, name, AnchorIs(good), good);
    HasBookmarkSome(kept, name);
    HasBookmarkSome(doc.outer, name);
    assert !good(name);
    PrunedAnchors(full, name, {n}, good);
    EveryAt(kept, AnchorIs(good));
  }

  lemma PrunedPara(full: string, name: string, avail: set<nat>)
    requires Found(full, Available(avail)) != []
    ensures !HasBookmark(Pruned(Para([MarkedRun(full, name, 1), LinkTo(name)]), avail), name)
  {
    hide Found, HasBookmark, LinkTree, Pruned, MarkedRun;
    var link := LinkTo(name);
    PrunedLink(name, avail);
    BookmarkLost(full, name, 1, [link], avail);
    assert [MarkedRun(full, name, 1)] + [link] == [MarkedRun(full, name, 1), link];
  }

  lemma PrunedLink(name: string, avail: set<nat>)
    ensures PrunedAll([LinkTo(name)], avail) == [LinkTo(name)] && !HasBookmarkIn([LinkTo(name)], name)
  {
    var link := LinkTo(name);
    assert [link][1..] == [] && PrunedAll([], avail) == [] && Pruned(link, avail) == link;
    BookmarkAlone(LinkTo(name), name);
  }

  lemma PrunedAnchors(full: string, name: string, avail: set<nat>, good: string -> bool)
    requires Found(full, Available(avail)) != [] && !good(name)
    ensures !Every(Pruned(Para([MarkedRun(full, name, 1), LinkTo(name)]), avail), AnchorIs(good))
  {
    hide Found;
    var run, link := MarkedRun(full, name, 1), LinkTo(name);
    MarkedRunPruned(full, name, 1, avail);
    PrunedLink(name, avail);
    assert [run, link][1..] == [link];
    var gone := Node(Run, map[], "", "", []);
    assert Pruned(Para([run, link]), avail).children == [gone] + [link];
    EveryCons(gone, [link], AnchorIs(good));
    EveryCons(link, [], AnchorIs(good));
  }

  /** The tool's own reading, on a citation of the one reference. */
  lemma {:induction false} LinkDanglesHere() returns (doc: Doc)
    ensures Reasonable(Standard()) && Plan(Standard(), doc.paras).Some?
    ensures EveryOf(doc.paras, AnchorIs(Resolves(doc)))
    ensures var out := CrossReference(Standard(), doc).doc;
            !EveryOf(out.paras, AnchorIs(Resolves(out)))
  {
    hide Plan, CrossReference, Found, EveryOf, Reasonable, LinkedDoc, Resolves;
    StandardIsReasonable();
    StandardReads();
    OneFound();
    assert RefName(1) == "_Ref_" + "1" && StartsWith("_Ref_old", "_Ref_");
    LinkDangles(Standard(), "[1]", "_Ref_old", "References", "[1] A.", 1);
    doc := LinkedDoc("[1]", "_Ref_old", "References", "[1] A.");
  }

  lemma StandardReads()
    ensures Standard().heading("References") && Standard().number(Strip("[1] A.")) == Some(1) && !Blank("[1] A.")
  {
    StripFixed("References");
    StripFixed("[1] A.");
    assert Lower("References") == "references";
    var rest := "[1] A."[1..];
    assert rest == "1] A." && rest[1..] == "] A.";
    assert DigitPrefix("] A.") == 0 && DigitPrefix(rest) == 1;
    ValOne();
    assert rest[..1] == "1";
  }

  lemma ValOne()
    ensures AllDigits("1") && Val("1") == 1
  {
    assert "1"[..0] == "" && DigitVal('1') == 1;
  }

  lemma OneFound()
    ensures Found("[1]", Available({1})) != []
  {
    var token := "[1]";
    MatchShape(token, 3);
    assert token[..3] == token && token[1..2] == "1" && token[1..|token| - 1] == "1";
    ValOne();
    StripFixed("1");
    assert "1"[1..] == "" && CommaPrefix("1") == 1 && "1"[..1] == "1";
    assert PartsNums("1") == [1] + [] == [1];
    assert Nums(token) == [1];
    assert Linkable(token, {1});
    assert At(token, Available({1}));
  }
}
