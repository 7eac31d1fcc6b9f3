/** The document as the tool holds it: mutable elements with child lists that are edited
    in place. Ghost maps tie every element to the tree it stands for. */
module WordElements {
  import opened PyText
  import opened Citations
  import opened WordTree
  import opened Linker
  import opened CitationScan
  import opened LinkerSteps
  import opened References
  import opened Crossref
  import LinkPairs

  class Element {
    const tag: Tag
    var attrib: map<Key, string>
    var text: string
    var tail: string
    var children: seq<Element>

    constructor (tag: Tag, attrib: map<Key, string>, text: string, tail: string, children: seq<Element>)
      ensures this.tag == tag && this.attrib == attrib && this.text == text && this.tail == tail
      ensures this.children == children
    {
      this.tag, this.attrib, this.text, this.tail, this.children := tag, attrib, text, tail, children;
    }

    method Insert(at: nat, e: Element)
      requires at <= |children|
      modifies this`children
      ensures children == old(children[..at]) + [e] + old(children[at..])
    {
      children := children[..at] + [e] + children[at..];
    }

    method Append(e: Element)
      modifies this`children
      ensures children == old(children) + [e]
    {
      children := children + [e];
    }

    /** Inserts `start` behind the paragraph properties, if any, and appends `end`. */
    method Surround(start: Element, end: Element) returns (at: nat)
      modifies this`children
      ensures at == if old(|children|) > 0 && old(children[0]).tag == ParaProps then 1 else 0
      ensures at <= old(|children|) && children == old(children[..at]) + [start] + old(children[at..]) + [end]
    {
      at := if |children| > 0 && children[0].tag == ParaProps then 1 else 0;
      Insert(at, start);
      Append(end);
    }

    /** Removes the first child that is the very object `e`. */
    method Remove(e: Element)
      requires e in children
      modifies this`children
      ensures exists k | 0 <= k < |old(children)| ::
                && old(children)[k] == e && (forall j | 0 <= j < k :: old(children)[j] != e)
                && children == old(children[..k]) + old(children[k + 1..])
    {
      var k := 0;
      while children[k] != e
        invariant k < |children|
        invariant forall j | 0 <= j < k :: children[j] != e
        decreases |children| - k
      {
        k := k + 1;
      }
      children := children[..k] + children[k + 1..];
    }

    /** Removes the child at `i` and inserts the nodes one by one where it stood. */
    method Replace(i: nat, nodes: seq<Element>)
      requires i < |children| && NoDup(children)
      modifies this`children
      ensures children == old(children[..i]) + nodes + old(children[i + 1..])
    {
      ghost var before := children;
      Remove(children[i]);
      assert children == before[..i] + before[i + 1..];
      for offset := 0 to |nodes|
        invariant children == before[..i] + nodes[..offset] + before[i + 1..]
      {
        Insert(i + offset, nodes[offset]);
        assert nodes[..offset + 1] == nodes[..offset] + [nodes[offset]];
      }
      assert nodes[..|nodes|] == nodes;
    }
  }

  ghost predicate NoDup(es: seq<Element>) {
    forall i, j | 0 <= i < j < |es| :: es[i] != es[j]
  }

  datatype Report = Refused | Report(bookmarksAdded: nat, linksAdded: nat, referenceCount: nat)

  class Document {
    /** Elements that are nobody's child here: the paragraphs and what lies outside them. */
    var paras: seq<Element>
    var outer: seq<Element>
    /** The numbers that have a reference. */
    var avail: set<nat>

    /** The tree each element stands for: as it was found, or as it was created. */
    ghost var tree: map<Element, Tree>
    /** The elements the walk may enter; all others are never changed. */
    ghost var walk: set<Element>
    /** The parent of an element that the walk may enter. */
    ghost var par: map<Element, Element>
    /** Elements whose children the walk has finished with. */
    ghost var done: set<Element>
    /** Elements waiting on the stack. */
    ghost var open: set<Element>

    ghost predicate Root(e: Element)
      reads `paras, `outer
    {
      e in paras || e in outer
    }

    // ----- One element

    ghost predicate FieldsFit(e: Element, t: Tree)
      reads e
    {
      && e.tag == t.tag && e.attrib == t.attrib && e.text == t.text && e.tail == t.tail
      && |e.children| == |t.children|
    }

    /** The element stands for its tree, given that its children do. */
    ghost predicate Fits(e: Element)
      reads `tree, e
    {
      && e in tree && FieldsFit(e, tree[e])
      && forall i | 0 <= i < |e.children| :: e.children[i] in tree && tree[e.children[i]] == tree[e].children[i]
    }

    /** The tree an element is to become: the linked one if the walk enters it. */
    ghost function Goal(e: Element): Tree
      requires e in tree
      reads `tree, `walk, `avail
    {
      if e in walk then LinkTree(tree[e], avail) else tree[e]
    }

    /** The element stands for its linked tree, given that its children will. */
    ghost predicate FitsGoal(e: Element)
      reads `tree, `walk, `avail, `done, `open, e
    {
      && e in tree && FieldsFit(e, LinkTree(tree[e], avail))
      && forall i | 0 <= i < |e.children| ::
           && e.children[i] in tree && Goal(e.children[i]) == LinkTree(tree[e], avail).children[i]
           && (e.children[i] in walk ==> e.children[i] in done || e.children[i] in open)
    }

    /** An unfinished element of the walk: its runs are frozen, all its other children are
        its own and can be walked. */
    ghost predicate Branch(e: Element)
      reads `walk, `par, e
    {
      && NoDup(e.children)
      && forall i | 0 <= i < |e.children| ::
           && (e.children[i] in walk <==> e.children[i].tag != Run)
           && (e.children[i] in walk ==> e.children[i] in par && par[e.children[i]] == e)
    }

    ghost predicate Frozen(e: Element)
      reads `walk, e
    {
      forall i | 0 <= i < |e.children| :: e.children[i] !in walk
    }

    ghost predicate NoRootBelow(e: Element)
      reads `paras, `outer, e
    {
      forall i | 0 <= i < |e.children| :: !Root(e.children[i])
    }

    // ----- All elements

    ghost predicate Sets(x: set<Element>)
      reads `tree, `walk, `par, `done, `open, `paras, `outer
    {
      && done <= walk && open <= walk && walk <= tree.Keys && open !! done && x <= open
        && par.Keys <= walk && NoDup(paras)
      && (forall e | e in walk :: e.tag != Run)
      && (forall e | e in paras :: e in walk && e !in par)
      && (forall e | e in outer :: e in tree && e !in walk)
      && (forall e | e in par && (e in done || e in open) :: par[e] in done || par[e] in x)
    }

    /** Every element but those in `x` stands for its tree or, once finished, for its
        linked tree. */
    ghost predicate ValidExcept(x: set<Element>)
      reads this, tree.Keys
    {
      && Sets(x)
      && (forall e | e in tree && e !in x && e !in done :: Fits(e))
      && (forall e | e in done :: FitsGoal(e))
      && (forall e | e in walk && e !in done && e !in x :: Branch(e))
      && (forall e | e in tree && e !in walk :: Frozen(e))
      && (forall e | e in tree :: NoRootBelow(e))
    }

    /** New elements may have joined; the trees of the old ones stay. */
    twostate predicate Joined()
      reads this
    {
      && old(tree.Keys) <= tree.Keys && (forall e | e in old(tree) :: tree[e] == old(tree[e]))
      && old(walk) <= walk && (forall e | e in walk && e in old(tree) :: e in old(walk))
      && par == old(par) && avail == old(avail) && paras == old(paras) && outer == old(outer)
    }

    /** Only new elements have joined; what is known of the old ones stays. */
    twostate predicate Grown()
      reads this
    {
      Joined() && done == old(done) && open == old(open)
    }

    ghost function Trees(es: seq<Element>): (ts: seq<Tree>)
      requires forall i | 0 <= i < |es| :: es[i] in tree
      reads `tree
      ensures |ts| == |es| && forall i | 0 <= i < |es| :: ts[i] == tree[es[i]]
    {
      var m := tree;
      seq(|es|, i requires 0 <= i < |es| && es[i] in m => m[es[i]])
    }

    /** Children a new element may have. */
    ghost predicate Usable(kids: seq<Element>)
      reads `tree, `walk, `paras, `outer
    {
      forall i | 0 <= i < |kids| :: kids[i] in tree && kids[i] !in walk && !Root(kids[i])
    }

    // What is known of an old element stays known while others join.

    twostate lemma KeepFits(e: Element)
      requires Grown()
      requires unchanged(e)
      requires old(Fits(e))
      ensures Fits(e)
    {
    }

    twostate lemma KeepFitsGoal(e: Element)
      requires Grown()
      requires unchanged(e)
      requires old(FitsGoal(e))
      ensures FitsGoal(e)
    {
      hide LinkTree;
    }

    twostate lemma KeepBranch(e: Element)
      requires Grown()
      requires unchanged(e)
      requires old(Branch(e))
      requires old(Fits(e))
      ensures Branch(e)
    {
    }

    twostate lemma KeepNoRoot(e: Element)
      requires Grown()
      requires unchanged(e)
      requires old(NoRootBelow(e))
      ensures NoRootBelow(e)
    {
    }

    twostate lemma KeepFrozen(e: Element)
      requires Grown()
      requires unchanged(e)
      requires old(Frozen(e))
      requires old(Fits(e))
      ensures Frozen(e)
    {
    }

    /** Registers a new element; `enter` if the walk may enter it. */
    ghost method Adopt(e: Element, enter: bool, x: set<Element>)
      requires ValidExcept(x) && e !in tree && Usable(e.children)
      requires enter ==> e.tag != Run && NoDup(e.children) && forall i | 0 <= i < |e.children| :: e.children[i].tag == Run
      modifies this`tree, this`walk
      ensures tree == old(tree)[e := Node(e.tag, e.attrib, e.text, e.tail, old(Trees(e.children)))]
      ensures walk == old(walk) + if enter then {e} else {}
      ensures ValidExcept(x)
    {
      hide LinkTree, Fits, FitsGoal, Branch, Frozen, NoRootBelow;
      tree := tree[e := Node(e.tag, e.attrib, e.text, e.tail, Trees(e.children))];
      if enter { walk := walk + {e}; }
      NewFits(e, enter);
      KeepOthers(x);
      forall y | y in x ensures NoRootBelow(y) { KeepNoRoot(y); }
    }

    twostate lemma NewFits(e: Element, new enter: bool)
      requires old(Usable(e.children)) && unchanged(e) && e !in old(tree) && paras == old(paras) && outer == old(outer)
      requires tree == old(tree)[e := Node(e.tag, e.attrib, e.text, e.tail, old(Trees(e.children)))]
      requires walk == old(walk) + if enter then {e} else {}
      requires enter ==> NoDup(e.children) && forall i | 0 <= i < |e.children| :: e.children[i].tag == Run
      ensures Fits(e) && NoRootBelow(e) && (if enter then Branch(e) else Frozen(e))
    {
    }

    /** What holds of all old elements still holds of them. */
    twostate lemma KeepOthers(x: set<Element>)
      requires old(ValidExcept(x)) && Grown() && forall e | e in old(tree) && e !in x :: unchanged(e)
      ensures forall e | e in old(tree) && e !in x && e !in done :: Fits(e)
      ensures forall e | e in done :: FitsGoal(e)
      ensures forall e | e in old(walk) && e !in done && e !in x :: Branch(e)
      ensures forall e | e in old(tree) && e !in old(walk) :: Frozen(e)
      ensures forall e | e in old(tree) && e !in x :: NoRootBelow(e)
    {
      hide Fits, FitsGoal, Branch, Frozen, NoRootBelow;
      forall e | e in old(tree) && e !in x && e !in done ensures Fits(e) { KeepFits(e); }
      forall e | e in done ensures FitsGoal(e) { KeepFitsGoal(e); }
      forall e | e in old(walk) && e !in done && e !in x ensures Branch(e) { KeepBranch(e); }
      forall e | e in old(tree) && e !in old(walk) ensures Frozen(e) { KeepFrozen(e); }
      forall e | e in old(tree) && e !in x ensures NoRootBelow(e) { KeepNoRoot(e); }
    }

    // ----- New elements

    lemma FrozenKids(e: Element, x: set<Element>)
      requires ValidExcept(x) && e in tree && e !in walk
      ensures Fits(e)
      ensures Usable(e.children)
    {
      assert Fits(e) && Frozen(e) && NoRootBelow(e);
    }

    lemma RootsHaveTrees(x: set<Element>)
      requires ValidExcept(x)
      ensures (forall e | e in paras :: e in tree) && (forall e | e in outer :: e in tree)
    {
    }

    /** New elements, each frozen or a hyperlink the walk may enter, standing for `ts`. */
    ghost predicate Stand(es: seq<Element>, ts: seq<Tree>)
      reads `tree, `walk
    {
      && |es| == |ts|
      && forall i | 0 <= i < |es| ::
           es[i] in tree && tree[es[i]] == ts[i] && es[i].tag == ts[i].tag && (es[i] in walk <==> es[i].tag != Run)
    }

    method NewText(text: string, ghost x: set<Element>) returns (t: Element)
      requires ValidExcept(x)
      modifies this`tree, this`walk
      ensures ValidExcept(x) && Grown() && fresh(tree.Keys - old(tree).Keys)
      ensures fresh(t) && t in tree && t !in walk && tree[t] == TextNode(text)
    {
      hide ValidExcept, LinkTree, EdgeSpace;
      t := new Element(TextElem, map[], text, "", []);
      if EdgeSpace(text) { t.attrib := t.attrib[Space := "preserve"]; }
      Adopt(t, false, x);
    }

    /** `copy.deepcopy` of an element that the walk does not enter. */
    method CopyElement(s: Element, ghost x: set<Element>) returns (c: Element)
      requires ValidExcept(x) && s in tree && s !in walk
      modifies this`tree, this`walk
      ensures ValidExcept(x) && Grown() && fresh(tree.Keys - old(tree).Keys)
      ensures fresh(c) && c in tree && c !in walk && tree[c] == tree[s] && walk == old(walk)
      decreases tree[s]
    {
      hide ValidExcept, LinkTree;
      FrozenKids(s, x);
      RootsHaveTrees(x);
      var kids: seq<Element> := [];
      for i := 0 to |s.children|
        invariant ValidExcept(x) && Grown() && fresh(tree.Keys - old(tree).Keys) && walk == old(walk)
        invariant |kids| == i
        invariant forall k | 0 <= k < i :: kids[k] in tree && kids[k] !in old(tree) && kids[k] !in walk
        invariant forall k | 0 <= k < i :: tree[kids[k]] == tree[s].children[k]
      {
        FrozenKids(s, x);
        var kid := CopyElement(s.children[i], x);
        kids := kids + [kid];
      }
      c := new Element(s.tag, s.attrib, s.text, s.tail, kids);
      Adopt(c, false, x);
    }

    /** Copies of the run properties of a run. */
    method CopyProps(run: Element, ghost x: set<Element>) returns (kids: seq<Element>)
      requires ValidExcept(x) && run in tree && run !in walk && run.tag == Run
      modifies this`tree, this`walk
      ensures ValidExcept(x) && Grown() && fresh(tree.Keys - old(tree).Keys)
      ensures forall k | 0 <= k < |kids| :: kids[k] in tree && kids[k] !in old(tree) && kids[k] !in walk
      ensures Trees(kids) == Only(tree[run].children, RunProps)
    {
      hide ValidExcept, LinkTree, Only;
      FrozenKids(run, x);
      kids := [];
      OnlyNil(RunProps);
      for i := 0 to |run.children|
        invariant ValidExcept(x) && Grown() && fresh(tree.Keys - old(tree).Keys)
        invariant forall k | 0 <= k < |kids| :: kids[k] in tree && kids[k] !in old(tree) && kids[k] !in walk
        invariant Trees(kids) == Only(tree[run].children[..i], RunProps)
      {
        FrozenKids(run, x);
        FrozenKids(run.children[i], x);
        OnlySnoc(tree[run].children, i, RunProps);
        if run.children[i].tag == RunProps {
          ghost var before := Trees(kids);
          var kid := CopyElement(run.children[i], x);
          assert Trees(kids) == before && Trees(kids + [kid]) == before + [tree[kid]];
          kids := kids + [kid];
        }
      }
      FrozenKids(run, x);
      assert tree[run].children[..|run.children|] == tree[run].children;
    }

    lemma RunFields(run: Element, x: set<Element>)
      requires ValidExcept(x) && run in tree && run !in walk
      ensures run.tag == tree[run].tag && run.attrib == tree[run].attrib
      ensures run.text == tree[run].text && run.tail == tree[run].tail
    {
      FrozenKids(run, x);
    }

    /** The children of a clone: copies of the run's properties, then the text. */
    method CloneChildren(run: Element, text: string, ghost x: set<Element>) returns (kids: seq<Element>)
      requires ValidExcept(x) && run in tree && run !in walk && run.tag == Run
      modifies this`tree, this`walk
      ensures ValidExcept(x) && Grown() && fresh(tree.Keys - old(tree).Keys)
      ensures Usable(kids) && Trees(kids) == Clone(tree[run], text).children
    {
      hide ValidExcept, LinkTree, TextNode, Only, Fits, Stand;
      RootsHaveTrees(x);
      kids := CopyProps(run, x);
      ghost var props := Trees(kids);
      var t := NewText(text, x);
      assert Trees(kids + [t]) == props + [tree[t]];
      kids := kids + [t];
    }

    /** A run with the attributes and properties of `run` and one text child. */
    method CloneRun(run: Element, text: string, ghost x: set<Element>) returns (c: Element)
      requires ValidExcept(x) && run in tree && run !in walk && run.tag == Run
      modifies this`tree, this`walk
      ensures ValidExcept(x) && Grown() && fresh(tree.Keys - old(tree).Keys)
      ensures fresh(c) && c in tree && c !in walk && c.tag == Run && tree[c] == Clone(tree[run], text)
    {
      hide ValidExcept, LinkTree, TextNode, Only, Fits, Stand;
      var kids := CloneChildren(run, text, x);
      RunFields(run, x);
      c := new Element(Run, run.attrib, run.text, run.tail, kids);
      Adopt(c, false, x);
    }

    method HyperlinkRun(run: Element, text: string, anchor: string, ghost x: set<Element>) returns (h: Element)
      requires ValidExcept(x) && run in tree && run !in walk && run.tag == Run
      modifies this`tree, this`walk
      ensures ValidExcept(x) && Grown() && fresh(tree.Keys - old(tree).Keys)
      ensures fresh(h) && h in tree && h in walk && h.tag == Hyperlink && tree[h] == LinkNode(tree[run], text, anchor)
    {
      hide ValidExcept, LinkTree, Clone;
      RootsHaveTrees(x);
      var c := CloneRun(run, text, x);
      h := new Element(Hyperlink, map[Anchor := anchor], "", "", [c]);
      Adopt(h, true, x);
    }

    lemma RunTag(e: Element, x: set<Element>)
      requires ValidExcept(x) && e in tree && e !in walk
      ensures tree[e].tag == e.tag
    {
      FrozenKids(e, x);
    }

    method SegmentRun(run: Element, g: Segment, ghost x: set<Element>) returns (node: Element)
      requires ValidExcept(x) && run in tree && run !in walk && run.tag == Run && SegmentOk(g)
      modifies this`tree, this`walk
      ensures ValidExcept(x) && Grown() && fresh(tree.Keys - old(tree).Keys)
      ensures Stand([node], [SegmentNode(tree[run], g, avail)]) && node !in old(tree)
    {
      hide ValidExcept, LinkTree, Dec;
      RunTag(run, x);
      if g.Digits? && Val(g.text) in avail {
        node := HyperlinkRun(run, g.text, RefName(Val(g.text)), x);
      } else {
        node := CloneRun(run, g.text, x);
      }
    }

    /** The nodes of one citation token: a hyperlink for each digit group whose number
        has a reference, plain runs for the other groups and the text between them. */
    method CitationNodes(run: Element, token: string, ghost x: set<Element>) returns (nodes: seq<Element>)
      requires ValidExcept(x) && run in tree && run !in walk && run.tag == Run
      modifies this`tree, this`walk
      ensures ValidExcept(x) && Grown() && fresh(tree.Keys - old(tree).Keys)
      ensures Stand(nodes, TokenNodes(tree[run], Segments(token), avail))
      ensures NoDup(nodes) && forall k | 0 <= k < |nodes| :: nodes[k] !in old(tree)
      ensures LinkPairs.PlainProps()(tree[run]) ==>
                LinkPairs.LinksIn(Trees(nodes)) == LinkPairs.GroupLinks(LinkPairs.DigitGroups(token), avail)
    {
      hide ValidExcept, LinkTree, TokenNodes, Segments, Stand, NoDup;
      hide LinkPairs.PlainProps, LinkPairs.LinksIn, LinkPairs.GroupLinks, LinkPairs.DigitGroups;
      RunTag(run, x);
      nodes := SegmentRuns(run, token, x);
      NodesLink(nodes, tree[run], token);
    }

    /** Segment by segment over the token. */
    method SegmentRuns(run: Element, token: string, ghost x: set<Element>) returns (nodes: seq<Element>)
      requires ValidExcept(x) && run in tree && run !in walk && run.tag == Run
      modifies this`tree, this`walk
      ensures ValidExcept(x) && Grown() && fresh(tree.Keys - old(tree).Keys)
      ensures Stand(nodes, TokenNodes(tree[run], Segments(token), avail))
      ensures NoDup(nodes) && forall k | 0 <= k < |nodes| :: nodes[k] !in old(tree)
    {
      hide ValidExcept, LinkTree, TokenNodes, Segments, SegmentNode, SegmentOk;
      RunTag(run, x);
      nodes := [];
      var last := 0;
      ghost var ts: seq<Tree> := [];
      ghost var source := tree[run];
      assert token[0..] == token;
      while last < |token|
        invariant last <= |token| && run in tree && tree[run] == source
        invariant ValidExcept(x) && Grown() && fresh(tree.Keys - old(tree).Keys)
        invariant Stand(nodes, ts)
        invariant NoDup(nodes) && forall k | 0 <= k < |nodes| :: nodes[k] !in old(tree)
        invariant ts + TokenNodes(source, Segments(token[last..]), avail) == TokenNodes(source, Segments(token), avail)
      {
        var g := NextSegment(token[last..]);
        NextNode(source, token[last..], g, avail);
        assert token[last..][|g.text|..] == token[last + |g.text|..];
        var node := SegmentRun(run, g, x);
        Regroup(ts, [SegmentNode(source, g, avail)], TokenNodes(source, Segments(token[last + |g.text|..]), avail));
        nodes, ts := nodes + [node], ts + [SegmentNode(source, g, avail)];
        last := last + |g.text|;
      }
      NoNodes(source, avail);
      assert token[last..] == "" && ts + [] == ts;
    }

    lemma NodesLink(nodes: seq<Element>, source: Tree, token: string)
      requires Stand(nodes, TokenNodes(source, Segments(token), avail)) && source.tag == Run
      ensures LinkPairs.PlainProps()(source) ==>
                LinkPairs.LinksIn(Trees(nodes)) == LinkPairs.GroupLinks(LinkPairs.DigitGroups(token), avail)
    {
      hide LinkPairs.PlainProps, LinkPairs.LinksIn, LinkPairs.GroupLinks, LinkPairs.DigitGroups, TokenNodes;
      LinkPairs.TokenPairs(source, token, avail);
      assert Trees(nodes) == TokenNodes(source, Segments(token), avail);
    }

    /** `run.findall("w:t")`. */
    method TextChildren(run: Element, ghost x: set<Element>) returns (ts: seq<Element>)
      requires ValidExcept(x) && run in tree && run !in walk
      ensures forall k | 0 <= k < |ts| :: ts[k] in tree && ts[k] !in walk
      ensures Trees(ts) == Only(tree[run].children, TextElem)
    {
      hide ValidExcept, LinkTree, Only;
      FrozenKids(run, x);
      ts := [];
      OnlyNil(TextElem);
      for i := 0 to |run.children|
        invariant forall k | 0 <= k < |ts| :: ts[k] in tree && ts[k] !in walk
        invariant Trees(ts) == Only(tree[run].children[..i], TextElem)
      {
        RunTag(run.children[i], x);
        OnlySnoc(tree[run].children, i, TextElem);
        if run.children[i].tag == TextElem {
          assert Trees(ts + [run.children[i]]) == Trees(ts) + [tree[run.children[i]]];
          ts := ts + [run.children[i]];
        }
      }
      assert tree[run].children[..|run.children|] == tree[run].children;
    }

    /** The new nodes for all pieces of a run's text. */
    method PieceRuns(run: Element, pieces: seq<Piece>, ghost x: set<Element>) returns (nodes: seq<Element>)
      requires ValidExcept(x) && run in tree && run !in walk && run.tag == Run
      modifies this`tree, this`walk
      ensures ValidExcept(x) && Grown() && fresh(tree.Keys - old(tree).Keys)
      ensures Stand(nodes, RunNodes(tree[run], pieces, avail))
      ensures NoDup(nodes) && forall k | 0 <= k < |nodes| :: nodes[k] !in old(tree)
    {
      hide ValidExcept, LinkTree, RunNodes, TokenNodes, Segments, Clone;
      nodes := [];
      ghost var ts: seq<Tree> := [];
      ghost var source := tree[run];
      assert pieces[0..] == pieces;
      for k := 0 to |pieces|
        invariant run in tree && tree[run] == source
        invariant ValidExcept(x) && Grown() && fresh(tree.Keys - old(tree).Keys)
        invariant Stand(nodes, ts)
        invariant NoDup(nodes) && forall k | 0 <= k < |nodes| :: nodes[k] !in old(tree)
        invariant ts + RunNodes(source, pieces[k..], avail) == RunNodes(source, pieces, avail)
      {
        RunNodesStep(source, pieces, k, avail);
        var part := PieceRun(run, pieces[k], x);
        Regroup(ts, PieceNodes(source, pieces[k], avail), RunNodes(source, pieces[k + 1..], avail));
        nodes, ts := nodes + part, ts + PieceNodes(source, pieces[k], avail);
      }
      RunNodesStep(source, pieces, |pieces|, avail);
      assert ts + [] == ts;
    }

    method PieceRun(run: Element, piece: Piece, ghost x: set<Element>) returns (nodes: seq<Element>)
      requires ValidExcept(x) && run in tree && run !in walk && run.tag == Run
      modifies this`tree, this`walk
      ensures ValidExcept(x) && Grown() && fresh(tree.Keys - old(tree).Keys)
      ensures Stand(nodes, PieceNodes(tree[run], piece, avail))
      ensures NoDup(nodes) && forall k | 0 <= k < |nodes| :: nodes[k] !in old(tree)
    {
      hide ValidExcept, LinkTree, TokenNodes, Segments;
      RunTag(run, x);
      match piece {
        case Plain(text) =>
          var c := CloneRun(run, text, x);
          nodes := [c];
        case Citation(text) =>
          nodes := CitationNodes(run, text, x);
      }
    }

    /** Replaces the run at `i` by its cut, in place, and reports the citations linked. */
    method SplitRunForCitations(parent: Element, i: nat) returns (changes: nat, ghost nodes: seq<Element>)
      requires ValidExcept({parent}) && i < |parent.children| && NoDup(parent.children)
      requires parent.children[i] in tree && parent.children[i] !in walk && parent.children[i].tag == Run
      modifies this`tree, this`walk, parent`children
      ensures ValidExcept({parent}) && Grown() && fresh(tree.Keys - old(tree).Keys)
      ensures parent.children == old(parent.children[..i]) + nodes + old(parent.children[i + 1..])
      ensures Stand(nodes, SplitRun(old(tree[parent.children[i]]), avail))
      ensures NoDup(nodes)
      ensures nodes == [old(parent.children[i])] || forall k | 0 <= k < |nodes| :: nodes[k] !in old(tree)
      ensures changes == |RunTokens(old(tree[parent.children[i]]), Available(avail))|
    {
      hide ValidExcept, LinkTree, RunNodes, Pieces, Found, Available, Only;
      var run := parent.children[i];
      nodes := [run];
      RunTag(run, {parent});
      assert parent.children == parent.children[..i] + nodes + parent.children[i + 1..];
      var texts := TextChildren(run, {parent});
      if |texts| != 1 {
        return 0, nodes;
      }
      FrozenKids(texts[0], {parent});
      var full := texts[0].text;
      var pieces, n := CutPieces(full, avail);
      if n == 0 {
        return 0, nodes;
      }
      var freshNodes := PieceRuns(run, pieces, {parent});
      nodes := freshNodes;
      ReplaceChild(parent, i, freshNodes);
      changes := n;
    }

    method ReplaceChild(parent: Element, i: nat, nodes: seq<Element>)
      requires ValidExcept({parent}) && i < |parent.children| && NoDup(parent.children)
      requires forall k | 0 <= k < |nodes| :: !Root(nodes[k])
      modifies parent`children
      ensures ValidExcept({parent})
      ensures parent.children == old(parent.children[..i]) + nodes + old(parent.children[i + 1..])
    {
      hide LinkTree;
      parent.Replace(i, nodes);
      assert NoRootBelow(parent);
      assert Grown();
      KeepOthers({parent});
      hide Fits, FitsGoal, Branch, Frozen, NoRootBelow;
    }

    // ----- The walk

    /** Elements of the stack: the walk may enter them and nothing above them is a child
        list of theirs. */
    ghost predicate Waiting(es: seq<Element>)
      reads `tree, `open, `walk, `paras, `outer
    {
      forall k | 0 <= k < |es| :: es[k] in tree && es[k] in open && es[k] in walk && !Root(es[k])
    }

    lemma VisitingBounds(e: Element, i: nat, rest: seq<Tree>, before: seq<Tree>)
      requires Visiting(e, i, rest, before) && ValidExcept({e})
      ensures |e.children| == i + |rest| && |before| == i && i <= |e.children| && e in tree && e in open
      ensures i < |e.children| ==> e.children[i].tag == rest[0].tag && e.children[i] in tree && !Root(e.children[i])
      ensures i < |e.children| ==> e.children[i] !in open && (e.children[i].tag != Run ==> e.children[i] in walk)
    {
      hide LinkTree;
      assert NoRootBelow(e);
    }

    /** Children that are final or wait on the stack, and will be `before`. */
    ghost predicate Behind(es: seq<Element>, before: seq<Tree>)
      reads `tree, `walk, `avail, `open
    {
      && |es| == |before|
      && forall k | 0 <= k < |es| ::
           es[k] in tree && Goal(es[k]) == before[k] && (es[k] in walk ==> es[k] in open)
    }

    /** Children of `e` still to be visited, standing for `rest`. */
    ghost predicate Ahead(es: seq<Element>, rest: seq<Tree>, e: Element)
      reads `tree, `walk, `open, `done, `par
    {
      && |es| == |rest|
      && forall k | 0 <= k < |es| ::
           && es[k] in tree && tree[es[k]] == rest[k] && es[k].tag == rest[k].tag
           && (es[k] in walk <==> es[k].tag != Run) && es[k] !in open && es[k] !in done
           && (es[k] in par ==> par[es[k]] == e)
    }

    /** The walk has entered `e`; nothing but its child list has changed. */
    ghost predicate Entered(e: Element)
      reads `tree, `open, e
    {
      && e in open && e in tree && NoDup(e.children)
      && e.tag == tree[e].tag && e.attrib == tree[e].attrib && e.text == tree[e].text && e.tail == tree[e].tail
    }

    /** The walk stands before child `i` of `e`. */
    ghost predicate Visiting(e: Element, i: nat, rest: seq<Tree>, before: seq<Tree>)
      reads `tree, `walk, `avail, `open, `done, `par, e
    {
      Entered(e) && i <= |e.children| && Behind(e.children[..i], before) && Ahead(e.children[i..], rest, e)
    }

    lemma AheadJoin(a: seq<Element>, b: seq<Element>, s: seq<Tree>, t: seq<Tree>, e: Element)
      requires Ahead(a, s, e) && Ahead(b, t, e)
      ensures Ahead(a + b, s + t, e)
    {
    }

    twostate lemma KeepAll(es: seq<Element>)
      requires Grown()
      requires old(forall k | 0 <= k < |es| :: es[k] in tree)
      ensures forall k | 0 <= k < |es| :: es[k] in tree && tree[es[k]] == old(tree[es[k]])
      ensures forall k | 0 <= k < |es| :: Goal(es[k]) == old(Goal(es[k])) && (es[k] in walk <==> es[k] in old(walk))
    {
      hide LinkTree;
    }

    /** New nodes, or the old run itself, are still to be visited. */
    twostate lemma NodesAhead(new run: Element, new nodes: seq<Element>, new ns: seq<Tree>, e: Element)
      requires Grown()
      requires old(ValidExcept({e}))
      requires old(run in tree) && old(run !in walk)
      requires Stand(nodes, ns)
      requires nodes == [run] || forall k | 0 <= k < |nodes| :: nodes[k] !in old(tree)
      ensures Ahead(nodes, ns, e)
    {
      hide LinkTree, Fits, FitsGoal, Branch, Frozen, NoRootBelow;
    }

    method VisitRun(e: Element, i: nat, ghost rest: seq<Tree>, ghost before: seq<Tree>) returns (delta: nat)
      requires ValidExcept({e}) && Visiting(e, i, rest, before) && i < |e.children| && e.children[i].tag == Run
      modifies this`tree, this`walk, e`children
      ensures ValidExcept({e}) && Grown() && fresh(tree.Keys - old(tree).Keys)
      ensures rest != [] && rest[0].tag == Run && SplitRun(rest[0], avail) != []
      ensures Visiting(e, i + 1, AfterRun(rest, avail), before + [SplitRun(rest[0], avail)[0]])
      ensures delta == |RunTokens(rest[0], Available(avail))|
    {
      hide ValidExcept, LinkTree, SplitRun, RunTokens, Available;
      ghost var run, done0, ahead := e.children[i], e.children[..i], e.children[i + 1..];
      KidsKnown(e, i, rest, before);
      assert e.children[i..] == [run] + ahead;
      SplitRunHead(rest[0], avail);
      assert Ahead(ahead, rest[1..], e);
      ghost var ns := SplitRun(rest[0], avail);
      ghost var nodes;
      delta, nodes := SplitRunForCitations(e, i);
      hide Stand, NoDup, Goal;
      NoDupMiddle(old(e.children), i, nodes, old(tree).Keys);
      NodesAhead(run, nodes, ns, e);
      KeepAll(done0);
      KeepAll(ahead);
      assert Entered(e);
      assert Behind(done0, before) && Ahead(ahead, rest[1..], e);
      VisitedRun(e, i, done0, nodes, ahead, before, ns, rest[1..]);
    }

    lemma KidsKnown(e: Element, i: nat, rest: seq<Tree>, before: seq<Tree>)
      requires Visiting(e, i, rest, before)
      ensures forall k | 0 <= k < |e.children| :: e.children[k] in tree
    {
      hide LinkTree;
      forall k | 0 <= k < |e.children| ensures e.children[k] in tree {
        if k < i { assert e.children[..i][k] in tree; } else { assert e.children[i..][k - i] in tree; }
      }
    }

    lemma VisitedRun(e: Element, i: nat, a: seq<Element>, nodes: seq<Element>, b: seq<Element>,
                     before: seq<Tree>, ns: seq<Tree>, rest: seq<Tree>)
      requires Entered(e) && |a| == i && e.children == a + nodes + b
      requires Behind(a, before) && Ahead(nodes, ns, e) && Ahead(b, rest, e) && ns != [] && ns[0].tag == Run
      ensures Visiting(e, i + 1, ns[1..] + rest, before + [ns[0]])
    {
      hide LinkTree, NoDup;
      assert e.children[..i + 1] == a + [nodes[0]] && e.children[i + 1..] == nodes[1..] + b;
      assert Ahead(nodes[1..], ns[1..], e);
      AheadJoin(nodes[1..], b, ns[1..], rest, e);
    }

    method VisitOther(e: Element, i: nat, ghost rest: seq<Tree>, ghost before: seq<Tree>)
      requires ValidExcept({e}) && Visiting(e, i, rest, before) && i < |e.children| && e.children[i].tag != Run
      modifies this`open
      ensures open == old(open) + {e.children[i]} && ValidExcept({e})
      ensures rest != [] && rest[0].tag != Run && rest[0] == tree[e.children[i]]
      ensures Visiting(e, i + 1, rest[1..], before + [LinkTree(rest[0], avail)])
    {
      hide LinkTree;
      ghost var child, done0, ahead := e.children[i], e.children[..i], e.children[i + 1..];
      assert Ahead(e.children[i..], rest, e) && e.children[i..][0] == child && e.children[i..][1..] == ahead;
      assert Behind(done0, before) && Ahead(ahead, rest[1..], e) && child !in ahead;
      OpenChild(e, child);
      hide ValidExcept;
      assert Behind(done0 + [child], before + [LinkTree(rest[0], avail)]);
      assert e.children[..i + 1] == done0 + [child];
    }

    ghost method OpenChild(e: Element, child: Element)
      requires ValidExcept({e}) && e in open && child in walk && child !in done && (child in par ==> par[child] == e)
      modifies this`open
      ensures open == old(open) + {child} && ValidExcept({e})
    {
      hide LinkTree, Fits, FitsGoal, Branch, Frozen, NoRootBelow;
      open := open + {child};
      forall x | x in done ensures FitsGoal(x) { KeepOpening(x); }
    }

    /** The walk enters an element: it stands before the first child. */
    lemma Enter(e: Element)
      requires ValidExcept({}) && e in open
      ensures e in tree && e in walk && ValidExcept({e}) && Visiting(e, 0, tree[e].children, [])
    {
      hide LinkTree;
      assert Fits(e) && Branch(e);
      forall k | 0 <= k < |e.children|
        ensures e.children[k].tag == tree[e].children[k].tag
        ensures e.children[k] !in open && e.children[k] !in done
      {
        TagFits(e.children[k]);
      }
    }

    lemma TagFits(e: Element)
      requires ValidExcept({}) && e in tree
      ensures tree[e].tag == e.tag
    {
      assert e in done ==> FitsGoal(e);
      assert e !in done ==> Fits(e);
    }

    /** The walk leaves an element whose children are all final or on the stack. */
    ghost method Leave(e: Element, before: seq<Tree>)
      requires ValidExcept({e}) && e in tree && e in walk && Visiting(e, |e.children|, [], before)
      requires before == LinkTree(tree[e], avail).children
      modifies this`done, this`open
      ensures ValidExcept({}) && done == old(done) + {e} && open == old(open) - {e}
    {
      hide LinkAll, Fits, Branch, Frozen, NoRootBelow;
      done, open := done + {e}, open - {e};
      assert FitsGoal(e);
    }

    /** The inner loop: visits the children of `e`, which grow in number while runs are
        cut, and returns those to be pushed and the number of citations linked. */
    method WalkChildren(e: Element) returns (pushed: seq<Element>, changes: nat)
      requires ValidExcept({}) && e in open
      modifies this`tree, this`walk, this`open, this`done, e`children
      ensures ValidExcept({}) && Joined() && fresh(tree.Keys - old(tree).Keys)
      ensures done == old(done) + {e} && open == (old(open) - {e}) + Elems(pushed)
      ensures NoDup(pushed) && Waiting(pushed)
      ensures Apart(pushed, old(open))
      ensures e in tree && changes + PendingLinks(Trees(pushed), Available(avail)) == Count(tree[e], Available(avail))
      ensures Pending(Trees(pushed), avail) < Size(LinkTree(tree[e], avail))
    {
      hide ValidExcept, LinkTree, LinkAll, Available, Visiting, Pending, PendingLinks, CountAll, Count, Size, SizeAll;
      Enter(e);
      pushed, changes := [], 0;
      var i := 0;
      ghost var source := tree[e];
      ghost var rest, before := source.children, [];
      LinkTreeKids(source, avail);
      Nothing(avail);
      assert [] + LinkAll(rest, avail) == LinkAll(rest, avail) && Trees(pushed) == [];
      while i < |e.children|
        invariant ValidExcept({e}) && Joined() && fresh(tree.Keys - old(tree).Keys) && done == old(done)
        invariant e in tree && tree[e] == source && e in walk
        invariant Visiting(e, i, rest, before)
        invariant open == old(open) + Elems(pushed) && NoDup(pushed) && Waiting(pushed) && Apart(pushed, old(open))
        invariant before + LinkAll(rest, avail) == LinkAll(source.children, avail)
        invariant changes + PendingLinks(Trees(pushed), Available(avail)) + CountAll(rest, Available(avail))
                == CountAll(source.children, Available(avail))
        invariant Pending(Trees(pushed), avail) + SizeAll(LinkAll(rest, avail)) <= SizeAll(LinkAll(source.children, avail))
        decreases CountAll(rest, Available(avail)), |rest|
      {
        VisitingBounds(e, i, rest, before);
        var delta;
        pushed, delta, rest, before := VisitChild(e, i, rest, before, pushed, old(open));
        changes := changes + delta;
        i := i + 1;
      }
      VisitingBounds(e, i, rest, before);
      assert rest == [] && before + [] == before;
      Leave(e, before);
    }

    method VisitChild(e: Element, i: nat, ghost rest: seq<Tree>, ghost before: seq<Tree>, pushed: seq<Element>,
                      ghost others: set<Element>)
      returns (pushed': seq<Element>, delta: nat, ghost rest': seq<Tree>, ghost before': seq<Tree>)
      requires ValidExcept({e}) && Visiting(e, i, rest, before) && i < |e.children| && NoDup(pushed) && Waiting(pushed)
      requires open == others + Elems(pushed) && Apart(pushed, others)
      modifies this`tree, this`walk, this`open, e`children
      ensures ValidExcept({e}) && Joined() && fresh(tree.Keys - old(tree).Keys) && done == old(done)
      ensures Visiting(e, i + 1, rest', before') && NoDup(pushed') && Waiting(pushed')
      ensures open == others + Elems(pushed') && Apart(pushed', others)
      ensures before' + LinkAll(rest', avail) == before + LinkAll(rest, avail)
      ensures delta + PendingLinks(Trees(pushed'), Available(avail)) + CountAll(rest', Available(avail))
           == PendingLinks(old(Trees(pushed)), Available(avail)) + CountAll(rest, Available(avail))
      ensures Pending(Trees(pushed'), avail) + SizeAll(LinkAll(rest', avail))
           <= Pending(old(Trees(pushed)), avail) + SizeAll(LinkAll(rest, avail))
      ensures CountAll(rest', Available(avail)) <= CountAll(rest, Available(avail))
      ensures CountAll(rest', Available(avail)) == CountAll(rest, Available(avail)) ==> |rest'| < |rest|
    {
      hide ValidExcept, LinkTree, LinkAll, SplitRun, RunTokens, Available, Visiting, AfterRun;
      hide Pending, PendingLinks, CountAll, Count, Size, SizeAll;
      VisitingBounds(e, i, rest, before);
      ghost var waiting := Trees(pushed);
      if e.children[i].tag == Run {
        delta := VisitRun(e, i, rest, before);
        assert Trees(pushed) == waiting;
        RunStep(rest, avail);
        SizeCons(SplitRun(rest[0], avail)[0], LinkAll(AfterRun(rest, avail), avail));
        pushed', rest', before' := pushed, AfterRun(rest, avail), before + [SplitRun(rest[0], avail)[0]];
        Regroup(before, [SplitRun(rest[0], avail)[0]], LinkAll(rest', avail));
      } else {
        var child := e.children[i];
        VisitOther(e, i, rest, before);
        TreeStep(rest, avail);
        PendingSnoc(waiting, rest[0], avail);
        ElemsSnoc(pushed, child);
        delta, pushed', rest', before' := 0, pushed + [child], rest[1..], before + [LinkTree(rest[0], avail)];
        assert Trees(pushed') == waiting + [rest[0]];
        Regroup(before, [LinkTree(rest[0], avail)], LinkAll(rest', avail));
      }
    }

    ghost predicate OnStack(es: seq<Element>)
      reads `tree, `open
    {
      open == Elems(es) && NoDup(es) && forall k | 0 <= k < |es| :: es[k] in tree
    }

    /** Pops the stack and visits the children of the element found there. */
    method WalkTop(stack: seq<Element>) returns (stack': seq<Element>, changes: nat)
      requires ValidExcept({}) && stack != [] && OnStack(stack)
      modifies this`tree, this`walk, this`open, this`done, stack
      ensures ValidExcept({}) && Joined() && fresh(tree.Keys - old(tree).Keys) && OnStack(stack')
      ensures done == old(done) + {stack[|stack| - 1]}
      ensures changes + PendingLinks(Trees(stack'), Available(avail)) == PendingLinks(old(Trees(stack)), Available(avail))
      ensures Pending(Trees(stack'), avail) < Pending(old(Trees(stack)), avail)
      ensures forall k | 0 <= k < |stack'| :: (k < |stack| - 1 && stack'[k] == stack[k]) || !Root(stack'[k])
    {
      hide ValidExcept, LinkTree, LinkAll, Available, Pending, PendingLinks, Count, Size, NoDup, Elems, Apart;
      var e, below := stack[|stack| - 1], stack[..|stack| - 1];
      ghost var waiting := Trees(below);
      PopStack(stack);
      assert Trees(stack) == waiting + [tree[e]];
      PendingSnoc(waiting, tree[e], avail);
      var pushed;
      pushed, changes := WalkChildren(e);
      StillThere(below);
      JoinStack(below, pushed, old(open));
      stack' := below + pushed;
      assert Trees(stack') == waiting + Trees(pushed);
      PendingJoin(waiting, Trees(pushed), avail);
    }

    twostate lemma StillThere(es: seq<Element>)
      requires Joined() && old(forall k | 0 <= k < |es| :: es[k] in tree)
      ensures forall k | 0 <= k < |es| :: es[k] in tree
      ensures Trees(es) == old(Trees(es))
    {
    }

    /** The outer loop for one paragraph: a stack of elements whose children are still to
        be visited. It ends because the linked trees that wait get smaller. */
    method WalkParagraph(p: Element) returns (count: nat)
      requires ValidExcept({}) && open == {} && p in paras && p !in done
      modifies this`tree, this`walk, this`open, this`done, tree.Keys
      ensures ValidExcept({}) && open == {} && Joined() && fresh(tree.Keys - old(tree).Keys)
      ensures p in tree && count == Count(tree[p], Available(avail))
      ensures forall q | q in paras :: q in done <==> q == p || q in old(done)
    {
      hide ValidExcept, LinkTree, LinkAll, Available, Pending, PendingLinks, Count, Size;
      Begin(p);
      var stack := [p];
      count := 0;
      Nothing(avail);
      ElemsSnoc([], p);
      PendingSnoc([], tree[p], avail);
      assert [] + [p] == [p] && Trees(stack) == [] + [tree[p]];
      while stack != []
        invariant ValidExcept({}) && Joined() && fresh(tree.Keys - old(tree).Keys) && OnStack(stack)
        invariant p in tree && (p in done || stack == [p])
        invariant count + PendingLinks(Trees(stack), Available(avail)) == Count(tree[p], Available(avail))
        invariant forall k | 0 <= k < |stack| :: stack[k] == p || !Root(stack[k])
        invariant forall q | q in paras && q != p :: q in done <==> q in old(done)
        decreases Pending(Trees(stack), avail)
      {
        var changes;
        stack, changes := WalkTop(stack);
        count := count + changes;
      }
      assert Trees(stack) == [];
    }

    ghost method Begin(p: Element)
      requires ValidExcept({}) && open == {} && p in paras && p !in done
      modifies this`open
      ensures ValidExcept({}) && open == {p} && p in tree
    {
      hide LinkTree, Fits, FitsGoal, Branch, Frozen, NoRootBelow;
      open := {p};
      forall e | e in done ensures FitsGoal(e) { KeepOpening(e); }
    }

    twostate lemma KeepOpening(e: Element)
      requires tree == old(tree) && walk == old(walk) && avail == old(avail) && done == old(done) && old(open) <= open
      requires unchanged(e)
      requires old(FitsGoal(e))
      ensures FitsGoal(e)
    {
      hide LinkTree;
    }

    // ----- Reading the tree

    /** No walk has begun: every element stands for its own tree. */
    ghost predicate Untouched()
      reads this, tree.Keys
    {
      ValidExcept({}) && done == {} && open == {}
    }

    lemma Whole(e: Element)
      requires Untouched() && e in tree
      ensures Fits(e)
    {
    }

    /** `paragraph_text`: the `w:t` text below an element. */
    method ReadText(e: Element) returns (text: string)
      requires Untouched() && e in tree
      ensures text == TextOf(tree[e])
      decreases tree[e]
    {
      hide Untouched, ValidExcept;
      Whole(e);
      text := if e.tag == TextElem then e.text else "";
      ghost var own := text;
      assert tree[e].children[..0] == [] && own + "" == own;
      for i := 0 to |e.children|
        invariant text == own + TextOfAll(tree[e].children[..i])
      {
        var part := ReadText(e.children[i]);
        SnocLast(tree[e].children, i);
        TextOfJoin(tree[e].children[..i], [tree[e].children[i]]);
        TextOfOne(tree[e].children[i]);
        text := text + part;
      }
      SnocAll(tree[e].children);
    }

    /** Whether a bookmark of that name starts below an element. */
    method FindBookmark(e: Element, name: string) returns (found: bool)
      requires Untouched() && e in tree
      ensures found == HasBookmark(tree[e], name)
      decreases tree[e]
    {
      hide Untouched, ValidExcept;
      Whole(e);
      found := e.tag == BookmarkStart && Name in e.attrib && e.attrib[Name] == name;
      ghost var own := found;
      assert tree[e].children[..0] == [];
      for i := 0 to |e.children|
        invariant found == (own || HasBookmarkIn(tree[e].children[..i], name))
      {
        var below := FindBookmark(e.children[i], name);
        SnocLast(tree[e].children, i);
        HasBookmarkJoin(tree[e].children[..i], [tree[e].children[i]], name);
        HasBookmarkOne(tree[e].children[i], name);
        found := found || below;
      }
      SnocAll(tree[e].children);
    }

    /** The integer ids of the bookmark elements below an element, in document order. */
    method ReadIds(e: Element) returns (ids: seq<int>)
      requires Untouched() && e in tree
      ensures ids == Ids(tree[e])
      decreases tree[e]
    {
      hide Untouched, ValidExcept, OwnId;
      Whole(e);
      ids := ReadOwnId(e);
      ghost var own := ids;
      assert tree[e].children[..0] == [] && own + [] == own;
      for i := 0 to |e.children|
        invariant ids == own + IdsIn(tree[e].children[..i])
      {
        var below := ReadIds(e.children[i]);
        SnocLast(tree[e].children, i);
        IdsJoin(tree[e].children[..i], [tree[e].children[i]]);
        IdsOne(tree[e].children[i]);
        Regroup(own, IdsIn(tree[e].children[..i]), below);
        ids := ids + below;
      }
      SnocAll(tree[e].children);
    }

    method ReadOwnId(e: Element) returns (ids: seq<int>)
      requires Untouched() && e in tree
      ensures ids == OwnId(tree[e])
    {
      hide Untouched, ValidExcept, PyInt;
      Whole(e);
      ids := [];
      if (e.tag == BookmarkStart || e.tag == BookmarkEnd) && Id in e.attrib && e.attrib[Id] != "" {
        match PyInt(e.attrib[Id]) {
          case Some(n) => ids := [n];
          case None =>
        }
      }
    }

    method ReadAllIds(es: seq<Element>) returns (ids: seq<int>)
      requires Untouched() && forall k | 0 <= k < |es| :: es[k] in tree
      ensures ids == IdsIn(Trees(es))
    {
      hide Untouched, ValidExcept, Ids;
      ids := [];
      assert Trees(es)[..0] == [];
      for i := 0 to |es|
        invariant ids == IdsIn(Trees(es)[..i])
      {
        var below := ReadIds(es[i]);
        SnocLast(Trees(es), i);
        IdsJoin(Trees(es)[..i], [tree[es[i]]]);
        IdsOne(tree[es[i]]);
        ids := ids + below;
      }
      SnocAll(Trees(es));
    }

    // ----- Bookmarks

    /** A new bookmark element, not yet anybody's child. */
    method NewMark(tag: Tag, attrib: map<Key, string>) returns (e: Element)
      requires Untouched() && tag != Run
      modifies this`tree, this`walk
      ensures Untouched() && fresh(e) && tree == old(tree)[e := Node(tag, attrib, "", "", [])]
      ensures walk == old(walk) + {e} && e !in par && !Root(e)
    {
      hide LinkTree, ValidExcept;
      RootTrees();
      e := new Element(tag, attrib, "", "", []);
      NewOutside(e);
      Adopt(e, true, {});
    }

    lemma NewOutside(e: Element)
      requires ValidExcept({}) && e !in tree
      ensures e !in par && !Root(e)
    {
    }

    /** Inserts a bookmark's start behind the paragraph properties and appends its end. */
    method AddReferenceBookmark(p: Element, name: string, id: int)
      requires Untouched() && p in paras
      modifies this`tree, this`walk, this`par, p`children
      ensures Untouched() && p in old(tree) && p in tree && tree[p] == AddBookmark(old(tree[p]), name, id)
      ensures fresh(tree.Keys - old(tree).Keys) && old(tree.Keys) <= tree.Keys
      ensures forall e | e in old(tree) && e != p :: tree[e] == old(tree[e])
    {
      hide LinkTree, DecInt, ValidExcept;
      RootTrees();
      Whole(p);
      var start := NewMark(BookmarkStart, map[Id := DecInt(id), Name := name]);
      var end := NewMark(BookmarkEnd, map[Id := DecInt(id)]);
      Attach(p, start, end, name, id);
    }

    method Attach(p: Element, start: Element, end: Element, name: string, id: int)
      requires Untouched() && p in paras && start != end
      requires p in tree && start in tree && end in tree
      requires start in walk && start !in par && !Root(start) && tree[start] == StartNode(name, id)
      requires end in walk && end !in par && !Root(end) && tree[end] == EndNode(id)
      requires start !in p.children && end !in p.children
      modifies this`tree, this`par, p`children
      ensures Untouched() && p in old(tree) && tree == old(tree)[p := AddBookmark(old(tree[p]), name, id)]
    {
      hide Untouched, ValidExcept, LinkTree, DecInt, Fits, InsertAt, AddBookmark;
      FirstTag(p);
      ghost var at := p.Surround(start, end);
      par := par[start := p][end := p];
      tree := tree[p := AddBookmark(tree[p], name, id)];
      AttachedAll(p, start, end, name, id, at);
    }

    twostate lemma AttachedAll(p: Element, new start: Element, new end: Element,
        new name: string, new id: int, new at: nat)
      requires old(Untouched())
      requires old(p in paras)
      requires old(p in tree)
      requires old(start in walk)
      requires old(end in walk)
      requires old(start in tree)
      requires old(end in tree)
      requires old(start !in par)
      requires old(end !in par)
      requires start !in old(paras) && start !in old(outer) && end !in old(paras) && end !in old(outer)
      requires start != end
      requires old(tree[start]) == StartNode(name, id)
      requires old(tree[end]) == EndNode(id)
      requires walk == old(walk)
      requires paras == old(paras)
      requires outer == old(outer)
      requires done == old(done)
      requires open == old(open)
      requires par == old(par)[start := p][end := p]
      requires tree == old(tree)[p := AddBookmark(old(tree[p]), name, id)]
      requires forall e | e in old(tree) && e != p :: unchanged(e)
      requires p.attrib == old(p.attrib)
      requires p.text == old(p.text)
      requires p.tail == old(p.tail)
      requires start !in old(p.children)
      requires end !in old(p.children)
      requires InsertAt(old(tree[p]).children) == at
      requires at <= old(|p.children|)
      requires p.children == old(p.children)[..at] + [start] + old(p.children)[at..] + [end]
      ensures Untouched()
    {
      hide AddBookmark, LinkTree, DecInt, Fits, Branch, NoRootBelow, Frozen;
      AttachedBranch(p, start, end, at);
      AttachedFits(p, start, end, name, id, at);
      forall e | e in tree && e != p ensures Fits(e) && NoRootBelow(e) && (e in walk ==> Branch(e)) {
        KeepBesides(e, p, start, end);
      }
    }

    twostate lemma AttachedFits(p: Element, new start: Element, new end: Element,
        new name: string, new id: int, new at: nat)
      requires old(p in tree)
      requires old(Fits(p))
      requires old(NoRootBelow(p))
      requires old(Root(p))
      requires paras == old(paras)
      requires outer == old(outer)
      requires tree == old(tree)[p := AddBookmark(old(tree[p]), name, id)]
      requires start in tree
      requires end in tree
      requires tree[start] == StartNode(name, id)
      requires tree[end] == EndNode(id)
      requires start != p
      requires end != p
      requires p.attrib == old(p.attrib)
      requires p.text == old(p.text)
      requires p.tail == old(p.tail)
      requires InsertAt(old(tree[p]).children) == at
      requires at <= old(|p.children|)
      requires p.children == old(p.children)[..at] + [start] + old(p.children)[at..] + [end]
      ensures Fits(p)
    {
      hide StartNode, EndNode;
    }

    twostate lemma AttachedBranch(p: Element, new start: Element, new end: Element, new at: nat)
      requires old(p in tree)
      requires old(NoRootBelow(p))
      requires old(Branch(p))
      requires walk == old(walk)
      requires paras == old(paras)
      requires outer == old(outer)
      requires par == old(par)[start := p][end := p]
      requires start != end
      requires start in walk
      requires end in walk
      requires start.tag != Run
      requires end.tag != Run
      requires !Root(start)
      requires !Root(end)
      requires start !in old(p.children)
      requires end !in old(p.children)
      requires at <= old(|p.children|)
      requires p.children == old(p.children)[..at] + [start] + old(p.children)[at..] + [end]
      ensures NoRootBelow(p) && Branch(p)
    {
    }

    twostate lemma KeepBesides(e: Element, new p: Element, new start: Element, new end: Element)
      requires old(e in tree)
      requires old(Fits(e))
      requires old(NoRootBelow(e))
      requires old((e in walk ==> Branch(e)))
      requires unchanged(e)
      requires p in old(paras) || p in old(outer)
      requires walk == old(walk)
      requires paras == old(paras)
      requires outer == old(outer)
      requires par == old(par)[start := p][end := p]
      requires start !in old(par)
      requires end !in old(par)
      requires p in tree
      requires tree == old(tree)[p := tree[p]]
      requires e != p
      ensures Fits(e) && NoRootBelow(e) && (e in walk ==> Branch(e))
    {
    }

    lemma FirstTag(p: Element)
      requires Untouched() && p in paras
      ensures p in tree && InsertAt(tree[p].children) <= |p.children|
      ensures InsertAt(tree[p].children) == if |p.children| > 0 && p.children[0].tag == ParaProps then 1 else 0
    {
      hide LinkTree;
      Whole(p);
      if p.children != [] { Whole(p.children[0]); }
    }

    // ----- The elements and the document they stand for

    /** A paragraph that is not finished, or any element outside the walk, stands for its
        own tree, all the way down. */
    lemma OwnTree(e: Element)
      requires ValidExcept({}) && e in tree && e !in done && (open == {} || e !in walk)
      ensures Realizes(e, tree[e], tree.Keys)
      decreases tree[e]
    {
      hide LinkTree;
      assert Fits(e) && FieldsFit(e, tree[e]);
      forall i | 0 <= i < |e.children| ensures Realizes(e.children[i], tree[e].children[i], tree.Keys) {
        if e in walk { assert Branch(e); } else { assert Frozen(e); }
        OwnTree(e.children[i]);
      }
    }

    /** A finished element stands for its linked tree, all the way down. */
    lemma LinkedTree(e: Element)
      requires ValidExcept({}) && open == {} && e in done
      ensures e in tree && Realizes(e, LinkTree(tree[e], avail), tree.Keys)
      decreases LinkTree(tree[e], avail)
    {
      hide LinkTree;
      assert FitsGoal(e);
      forall i | 0 <= i < |e.children|
        ensures Realizes(e.children[i], LinkTree(tree[e], avail).children[i], tree.Keys)
      {
        if e.children[i] in walk { LinkedTree(e.children[i]); } else { OwnTree(e.children[i]); }
      }
    }

    // ----- The whole tool

    ghost function Value(): Doc
      requires ValidExcept({})
      reads this, tree.Keys
    {
      Doc(Trees(outer), Trees(paras))
    }

    /** The non-empty paragraphs with their positions. */
    method ReadItems() returns (items: seq<Item>)
      requires Untouched()
      ensures items == Items(Texts(Trees(paras)), 0)
    {
      hide LinkTree, TextOf, Blank, Fits, Branch, Frozen, NoRootBelow;
      items := [];
      ghost var texts := Texts(Trees(paras));
      assert [] + Items(texts, 0) == Items(texts, 0);
      for i := 0 to |paras|
        invariant items + Items(texts, i) == Items(texts, 0)
      {
        var text := ReadText(paras[i]);
        assert text == texts[i];
        Regroup(items, if Blank(text) then [] else [Item(i, text)], Items(texts, i + 1));
        if !Blank(text) {
          items := items + [Item(i, text)];
        } else {
          assert items + [] == items;
        }
      }
      assert items + [] == items;
    }

    method BuildIndex(refs: seq<Ref>) returns (index: map<nat, nat>)
      ensures index == Index(refs)
    {
      index := map[];
      for k := 0 to |refs|
        invariant index == Index(refs[..k])
      {
        assert refs[..k + 1][..k] == refs[..k];
        index := index[refs[k].num := refs[k].paraIdx];
      }
      assert refs[..|refs|] == refs;
    }

    /** The loop over the sorted numbers: a bookmark for each entry that has none. */
    method PlaceBookmarks(nums: seq<nat>, index: map<nat, nat>, next: int) returns (added: nat)
      requires Untouched() && Targets(nums, index, |paras|)
      modifies this`tree, this`walk, this`par, paras
      ensures Untouched() && fresh(tree.Keys - old(tree).Keys) && old(tree.Keys) <= tree.Keys
      ensures Trees(outer) == old(Trees(outer)) && avail == old(avail)
      ensures Placed(Trees(paras), added) == Place(old(Trees(paras)), nums, index, next, |nums|)
    {
      hide LinkTree, HasBookmark, AddBookmark, RefName, ValidExcept, Untouched, Place;
      added := 0;
      WasUntouched();
      PlaceNothing(Trees(paras), nums, index, next);
      for k := 0 to |nums|
        invariant Untouched() && fresh(tree.Keys - old(tree).Keys) && old(tree.Keys) <= tree.Keys
        invariant (forall e | e in paras :: e in tree) && (forall e | e in outer :: e in tree)
        invariant Trees(outer) == old(Trees(outer))
        invariant Placed(Trees(paras), added) == Place(old(Trees(paras)), nums, index, next, k)
      {
        PlaceStep(old(Trees(paras)), nums, index, next, k);
        var already := PlaceOne(index[nums[k]], RefName(nums[k]), next + added);
        if !already { added := added + 1; }
      }
    }

    /** One turn of the loop: leaves a paragraph that has the bookmark alone. */
    method PlaceOne(i: nat, name: string, id: int) returns (already: bool)
      requires Untouched() && i < |paras|
      modifies this`tree, this`walk, this`par, paras
      ensures Untouched() && fresh(tree.Keys - old(tree).Keys) && old(tree.Keys) <= tree.Keys
      ensures forall e | e in paras :: e in tree && e in old(tree)
      ensures forall e | e in outer :: e in tree && e in old(tree)
      ensures already == HasBookmark(old(tree[paras[i]]), name)
      ensures Trees(paras) == if already then old(Trees(paras))
                              else old(Trees(paras))[i := AddBookmark(old(tree[paras[i]]), name, id)]
      ensures Trees(outer) == old(Trees(outer))
    {
      hide LinkTree, HasBookmark, AddBookmark, ValidExcept, Untouched;
      WasUntouched();
      already := FindBookmark(paras[i], name);
      if !already { AddReferenceBookmark(paras[i], name, id); }
    }

    lemma WasUntouched()
      requires Untouched()
      ensures NoDup(paras) && forall e | e in paras :: e in tree && e in walk
      ensures forall e | e in outer :: e in tree && e !in walk && e !in done && e !in paras
    {
      RootTrees();
    }

    lemma RootTrees()
      requires ValidExcept({})
      ensures NoDup(paras) && forall e | e in paras :: e in tree && e in walk
      ensures forall e | e in outer :: e in tree && e !in walk && e !in done && e !in paras
    {
    }

    /** The loop over the paragraphs before the heading. */
    method LinkParagraphs(h: nat) returns (count: nat)
      requires Untouched() && h <= |paras|
      modifies this`tree, this`walk, this`open, this`done, tree.Keys
      ensures ValidExcept({}) && open == {} && Joined()
      ensures count == CountBefore(Trees(paras), h, Available(avail))
      ensures forall i | 0 <= i < |paras| :: paras[i] in done <==> i < h
    {
      hide LinkTree, Count, Available, ValidExcept, CountBefore;
      count := 0;
      RootTrees();
      NoCount(Trees(paras), Available(avail));
      hide Untouched;
      for i := 0 to |paras|
        invariant ValidExcept({}) && open == {} && Joined() && fresh(tree.Keys - old(tree).Keys)
        invariant (forall e | e in paras :: e in tree) && Trees(paras) == old(Trees(paras))
        invariant count == CountBefore(Trees(paras), if i < h then i else h, Available(avail))
        invariant forall j | 0 <= j < |paras| :: paras[j] in done <==> j < i && j < h
      {
        if i < h {
          NextCount(Trees(paras), i, Available(avail));
          var n := WalkParagraph(paras[i]);
          count := count + n;
        }
      }
    }

    /** The elements spell out the document `d`. */
    ghost predicate SpellsOut(d: Doc)
      reads this, tree.Keys
    {
      && |outer| == |d.outer| && |paras| == |d.paras|
      && (forall i | 0 <= i < |outer| :: Realizes(outer[i], d.outer[i], tree.Keys))
      && (forall i | 0 <= i < |paras| :: Realizes(paras[i], d.paras[i], tree.Keys))
    }

    /** The whole tool, in place: afterwards the elements spell out the cross-referenced
        document, and the counts are its counts. */
    method CrossReferenceInPlace(rd: Reading) returns (r: Report)
      requires Untouched() && Reasonable(rd)
      modifies this`tree, this`walk, this`par, this`open, this`done, this`avail, tree.Keys
      ensures paras == old(paras) && outer == old(outer)
      ensures var outcome := CrossReference(rd, old(Value()));
              match outcome
              case NoHeadingFound => r == Refused && SpellsOut(old(Value()))
              case Done(out, bookmarks, links, references) => r == Report(bookmarks, links, references) && SpellsOut(out)
    {
      hide LinkTree, Place, NextId, CountBefore, Available, ValidExcept, Plan, Realizes, SpellsOut;
      RootTrees();
      ghost var source := Value();
      var plan, next := ReadPlan(rd);
      if plan.None? {
        SpelledUntouched();
        return Refused;
      }
      var (h, index) := plan.value;
      var nums := Sorted(index.Keys);
      PlanTargets(rd, source.paras);
      var added := PlaceBookmarks(nums, index, next);
      ghost var placed := Value();
      label Before:
      avail := index.Keys;
      StillUntouched@Before();
      var linked := LinkParagraphs(h);
      SpelledLinked(placed, h);
      r := Report(added, linked, |index|);
    }

    /** What the tool reads before it changes anything: the heading, where each number
        points, and the first free bookmark id. */
    method ReadPlan(rd: Reading) returns (plan: Option<(nat, map<nat, nat>)>, next: int)
      requires Untouched()
      ensures plan == Plan(rd, Trees(paras)) && next == NextId(Value())
    {
      hide LinkTree, Index, Read, Items, Texts, IdsIn, ValidExcept;
      RootTrees();
      var items := ReadItems();
      var bib := FindReferences(rd, items);
      var outerIds := ReadAllIds(outer);
      var paraIds := ReadAllIds(paras);
      next := MaxOr(outerIds + paraIds, 0) + 1;
      plan := None;
      if bib.Bibliography? {
        var index := BuildIndex(bib.refs);
        plan := Some((bib.heading, index));
      }
    }

    lemma SpelledUntouched()
      requires Untouched()
      ensures SpellsOut(Value())
    {
      hide LinkTree;
      forall i | 0 <= i < |outer| ensures Realizes(outer[i], tree[outer[i]], tree.Keys) { OwnTree(outer[i]); }
      forall i | 0 <= i < |paras| ensures Realizes(paras[i], tree[paras[i]], tree.Keys) { OwnTree(paras[i]); }
    }

    lemma SpelledLinked(placed: Doc, h: nat)
      requires ValidExcept({}) && open == {} && Value() == placed && h <= |paras|
      requires forall i | 0 <= i < |paras| :: paras[i] in done <==> i < h
      ensures SpellsOut(placed.(paras := LinkBefore(placed.paras, h, avail)))
    {
      hide LinkTree, ValidExcept, Realizes;
      RootTrees();
      forall i | 0 <= i < |outer| ensures Realizes(outer[i], tree[outer[i]], tree.Keys) { OwnTree(outer[i]); }
      forall i | 0 <= i < |paras|
        ensures Realizes(paras[i], if i < h then LinkTree(tree[paras[i]], avail) else tree[paras[i]], tree.Keys)
      {
        if i < h { LinkedTree(paras[i]); } else { OwnTree(paras[i]); }
      }
    }

    twostate lemma StillUntouched()
      requires old(Untouched())
      requires tree == old(tree)
      requires walk == old(walk)
      requires par == old(par)
      requires done == old(done)
      requires open == old(open)
      requires paras == old(paras)
      requires outer == old(outer)
      requires forall e | e in tree :: unchanged(e)
      ensures Untouched()
    {
      hide LinkTree, Fits, Branch, Frozen, NoRootBelow;
    }

    // ----- Loading

    /** The document held after parsing: one element for each node of each tree. */
    constructor (doc: Doc)
      requires forall i | 0 <= i < |doc.paras| :: doc.paras[i].tag != Run
      ensures Untouched() && Value() == doc && fresh(tree.Keys)
    {
      paras, outer, avail := [], [], {};
      tree, walk, par, done, open := map[], {}, map[], {}, {};
      new;
      NothingLoaded();
      hide Untouched, ValidExcept;
      AddAllOuter(doc.outer);
      AddParagraphs(doc.paras);
    }

    method AddAllOuter(ts: seq<Tree>)
      requires Untouched() && outer == [] && paras == []
      modifies this`tree, this`walk, this`outer
      ensures Untouched() && fresh(tree.Keys - old(tree).Keys) && paras == [] && Trees(outer) == ts
    {
      hide ValidExcept;
      assert ts[..0] == [];
      for i := 0 to |ts|
        invariant Untouched() && fresh(tree.Keys - old(tree).Keys) && paras == []
        invariant (forall k | 0 <= k < |outer| :: outer[k] in tree) && Trees(outer) == ts[..i]
      {
        AddOuter(ts[i]);
        RootTrees();
        SnocLast(ts, i);
      }
      SnocAll(ts);
    }

    method AddParagraphs(ts: seq<Tree>)
      requires Untouched() && paras == [] && forall i | 0 <= i < |ts| :: ts[i].tag != Run
      modifies this`tree, this`walk, this`par, this`paras
      ensures Untouched() && fresh(tree.Keys - old(tree).Keys) && outer == old(outer)
      ensures Trees(outer) == old(Trees(outer)) && Trees(paras) == ts
    {
      RootTrees();
      hide Untouched, ValidExcept;
      assert ts[..0] == [];
      for i := 0 to |ts|
        invariant Untouched() && fresh(tree.Keys - old(tree).Keys) && outer == old(outer)
        invariant Trees(outer) == old(Trees(outer)) && Trees(paras) == ts[..i]
      {
        AddParagraph(ts[i]);
        SnocLast(ts, i);
      }
      SnocAll(ts);
    }

    lemma NothingLoaded()
      requires paras == [] && outer == [] && tree == map[] && walk == {} && par == map[] && done == {} && open == {}
      ensures Untouched()
    {
    }

    /** Loading adds elements, and only new ones get a parent. */
    twostate predicate Loaded()
      reads this
    {
      && old(tree.Keys) <= tree.Keys && (forall e | e in old(tree) :: tree[e] == old(tree[e]))
      && old(walk) <= walk && (forall e | e in walk && e in old(tree) :: e in old(walk))
      && (forall e | e in old(par) :: e in par && par[e] == old(par[e]))
      && (forall e | e in par && e in old(tree) :: e in old(par))
    }

    /** The element is nobody's child. */
    ghost predicate Loose(e: Element)
      reads this, tree.Keys
    {
      e in tree && e !in par && !Root(e) && forall x | x in tree :: e !in x.children
    }

    twostate lemma LooseNew(e: Element)
      requires old(Untouched())
      requires e !in old(tree)
      requires tree.Keys == old(tree.Keys) + {e}
      requires !Root(e)
      requires e !in par
      requires e !in e.children && forall x | x in old(tree) :: unchanged(x)
      ensures Loose(e)
    {
      hide LinkTree;
      forall x | x in old(tree) ensures e !in x.children {
        assert old(Fits(x));
      }
    }

    method LoadFrozen(t: Tree) returns (e: Element)
      requires Untouched()
      modifies this`tree, this`walk
      ensures Untouched() && Loaded() && fresh(tree.Keys - old(tree).Keys) && e !in old(tree)
      ensures e in tree && e !in walk && e.tag == t.tag && tree[e] == t && Loose(e)
      decreases t
    {
      hide ValidExcept, LinkTree, Loose;
      var kids: seq<Element> := [];
      for i := 0 to |t.children|
        invariant Untouched() && Loaded() && fresh(tree.Keys - old(tree).Keys) && |kids| == i
        invariant forall k | 0 <= k < i :: kids[k] in tree && kids[k] !in old(tree) && kids[k] !in walk
        invariant forall k | 0 <= k < i :: tree[kids[k]] == t.children[k]
      {
        var kid := LoadFrozen(t.children[i]);
        kids := kids + [kid];
      }
      RootTrees();
      e := NewFrozen(t, kids);
    }

    method NewFrozen(t: Tree, kids: seq<Element>) returns (e: Element)
      requires Untouched() && |kids| == |t.children|
      requires forall k | 0 <= k < |kids| ::
                 kids[k] in tree && kids[k] !in walk && !Root(kids[k]) && tree[kids[k]] == t.children[k]
      modifies this`tree, this`walk
      ensures Untouched() && Loaded() && tree.Keys == old(tree.Keys) + {e} && fresh(e) && e !in old(tree)
      ensures e !in walk && e.tag == t.tag && tree[e] == t && Loose(e)
    {
      hide ValidExcept, LinkTree, Loose;
      e := new Element(t.tag, t.attrib, t.text, t.tail, kids);
      label Before:
      Adopt(e, false, {});
      LooseNew@Before(e);
    }

    /** An element the walk may enter, with its runs frozen. */
    method LoadBranch(t: Tree) returns (e: Element)
      requires Untouched() && t.tag != Run
      modifies this`tree, this`walk, this`par
      ensures Untouched() && Loaded() && fresh(tree.Keys - old(tree).Keys) && e !in old(tree)
      ensures e in walk && e in tree && e.tag == t.tag && tree[e] == t && Loose(e)
      decreases t, 0
    {
      hide ValidExcept, LinkTree, Loose;
      var kids: seq<Element> := [];
      for i := 0 to |t.children|
        invariant Untouched() && Loaded() && fresh(tree.Keys - old(tree).Keys) && |kids| == i && NoDup(kids)
        invariant forall k | 0 <= k < i :: kids[k] in tree && kids[k] !in old(tree) && tree[kids[k]] == t.children[k]
        invariant forall k | 0 <= k < i :: (kids[k] in walk <==> kids[k].tag != Run) && kids[k] !in par
      {
        var kid := LoadKid(t.children[i]);
        kids := kids + [kid];
      }
      RootTrees();
      e := new Element(t.tag, t.attrib, t.text, t.tail, kids);
      label Before:
      AdoptBranch(e);
      LooseNew@Before(e);
    }

    method LoadKid(t: Tree) returns (e: Element)
      requires Untouched()
      modifies this`tree, this`walk, this`par
      ensures Untouched() && Loaded() && fresh(tree.Keys - old(tree).Keys) && e !in old(tree)
      ensures e in tree && (e in walk <==> e.tag != Run) && e !in par && tree[e] == t
      decreases t, 1
    {
      hide ValidExcept, LinkTree;
      if t.tag == Run { e := LoadFrozen(t); } else { e := LoadBranch(t); }
    }

    ghost method AdoptBranch(e: Element)
      requires Untouched() && e !in tree && e !in par && e.tag != Run && !Root(e) && NoDup(e.children) && e !in e.children
      requires forall k | 0 <= k < |e.children| :: e.children[k] in tree && e.children[k] !in par && !Root(e.children[k])
      requires forall k | 0 <= k < |e.children| :: e.children[k] in walk <==> e.children[k].tag != Run
      modifies this`tree, this`walk, this`par
      ensures tree == old(tree)[e := Node(e.tag, e.attrib, e.text, e.tail, old(Trees(e.children)))]
      ensures walk == old(walk) + {e}
      ensures par == old(par) + map c | c in e.children && c in old(walk) :: e
      ensures Untouched()
    {
      hide LinkTree, Fits, Branch, Frozen, NoRootBelow, Sets;
      tree := tree[e := Node(e.tag, e.attrib, e.text, e.tail, Trees(e.children))];
      walk := walk + {e};
      par := par + map c | c in e.children && c in old(walk) :: e;
      SetsBranch(e);
      NewBranch(e);
      forall x | x in old(tree)
        ensures Fits(x) && NoRootBelow(x) && (x in walk ==> Branch(x)) && (x !in walk ==> Frozen(x))
      {
        KeepLoaded(x, e);
      }
    }

    twostate lemma SetsBranch(e: Element)
      requires old(Sets({}))
      requires old(done) == {} && old(open) == {} && done == {} && open == {}
      requires paras == old(paras) && outer == old(outer) && walk == old(walk) + {e} && tree.Keys == old(tree.Keys) + {e}
      requires e.tag != Run && e !in paras && e !in outer && unchanged(e)
      requires forall c | c in e.children :: !Root(c)
      requires par == old(par) + map c | c in e.children && c in old(walk) :: e
      ensures Sets({})
    {
    }

    twostate lemma NewBranch(e: Element)
      requires old(e !in tree)
      requires old(NoDup(e.children))
      requires old(e !in e.children)
      requires unchanged(e)
      requires old(forall k | 0 <= k < |e.children| :: e.children[k] in tree && !Root(e.children[k]))
      requires old(forall k | 0 <= k < |e.children| :: e.children[k] in walk <==> e.children[k].tag != Run)
      requires paras == old(paras)
      requires outer == old(outer)
      requires walk == old(walk) + {e}
      requires tree == old(tree)[e := Node(e.tag, e.attrib, e.text, e.tail, old(Trees(e.children)))]
      requires par == old(par) + map c | c in e.children && c in old(walk) :: e
      ensures Fits(e) && NoRootBelow(e) && Branch(e)
    {
    }

    twostate lemma KeepLoaded(x: Element, new e: Element)
      requires old(Untouched())
      requires old(x in tree)
      requires unchanged(x)
      requires paras == old(paras)
      requires outer == old(outer)
      requires e !in old(tree)
      requires tree.Keys == old(tree.Keys) + {e}
      requires tree == old(tree)[e := tree[e]]
      requires walk == old(walk) + {e} && forall c | c in old(par) :: c in par && par[c] == old(par[c])
      ensures Fits(x) && NoRootBelow(x) && (x in walk ==> Branch(x)) && (x !in walk ==> Frozen(x))
    {
      hide LinkTree;
      assert old(Fits(x)) && old(NoRootBelow(x));
      if x in walk { assert old(Branch(x)); } else { assert old(Frozen(x)); }
    }

    method AddOuter(t: Tree)
      requires Untouched()
      modifies this`tree, this`walk, this`outer
      ensures Untouched() && fresh(tree.Keys - old(tree).Keys) && paras == old(paras)
      ensures Trees(outer) == old(Trees(outer)) + [t]
    {
      hide ValidExcept, LinkTree, Loose;
      RootTrees();
      var e := LoadFrozen(t);
      label Before:
      outer := outer + [e];
      NewRoot@Before(e);
    }

    method AddParagraph(t: Tree)
      requires Untouched() && t.tag != Run
      modifies this`tree, this`walk, this`par, this`paras
      ensures Untouched() && fresh(tree.Keys - old(tree).Keys) && outer == old(outer)
      ensures Trees(outer) == old(Trees(outer)) && Trees(paras) == old(Trees(paras)) + [t]
    {
      hide ValidExcept, LinkTree, Loose;
      RootTrees();
      var e := LoadBranch(t);
      label Before:
      paras := paras + [e];
      NewRoot@Before(e);
    }

    twostate lemma NewRoot(e: Element)
      requires old(Untouched())
      requires old(Loose(e))
      requires tree == old(tree)
      requires walk == old(walk)
      requires par == old(par)
      requires done == old(done)
      requires open == old(open)
      requires (paras == old(paras) && outer == old(outer) + [e] && e !in walk)
            || (paras == old(paras) + [e] && outer == old(outer) && e in walk)
      requires forall x | x in tree :: unchanged(x)
      ensures Untouched()
    {
      hide LinkTree, Fits, Branch, Frozen;
      forall x | x in tree ensures NoRootBelow(x) { assert old(NoRootBelow(x)); }
    }
  }

  /** An element and everything below it spell out a tree. */
  ghost predicate Realizes(e: Element, t: Tree, s: set<Element>)
    reads s
    decreases t
  {
    && e in s && e.tag == t.tag && e.attrib == t.attrib && e.text == t.text && e.tail == t.tail
    && |e.children| == |t.children|
    && forall i | 0 <= i < |t.children| :: Realizes(e.children[i], t.children[i], s)
  }

  ghost predicate Apart(es: seq<Element>, others: set<Element>) {
    forall k | 0 <= k < |es| :: es[k] !in others
  }

  /** The digit group or the gap at the start of a text. */
  function NextSegment(s: string): (g: Segment)
    requires s != ""
    ensures g.text <= s && g.text != "" && SegmentOk(g)
  {
    if IsDigit(s[0]) then Digits(s[..DigitPrefix(s)]) else Gap(s[..GapPrefix(s)])
  }

  lemma {:induction false} NextNode(run: Tree, s: string, g: Segment, avail: set<nat>)
    requires s != "" && g == NextSegment(s)
    ensures TokenNodes(run, Segments(s), avail)
              == [SegmentNode(run, g, avail)] + TokenNodes(run, Segments(s[|g.text|..]), avail)
  {
    hide SegmentNode, TokenNodes;
    assert Segments(s) == [g] + Segments(s[|g.text|..]);
    hide Segments, NextSegment;
    NodesCons(run, g, Segments(s[|g.text|..]), avail);
  }

  lemma NodesCons(run: Tree, g: Segment, gs: seq<Segment>, avail: set<nat>)
    ensures TokenNodes(run, [g] + gs, avail) == [SegmentNode(run, g, avail)] + TokenNodes(run, gs, avail)
  {
    hide SegmentNode;
    assert ([g] + gs)[1..] == gs;
  }

  /** A child without a double stays so when it is replaced by itself or by new elements. */
  lemma NoDupMiddle(es: seq<Element>, i: nat, nodes: seq<Element>, known: set<Element>)
    requires i < |es| && NoDup(es) && NoDup(nodes) && forall k | 0 <= k < |es| :: es[k] in known
    requires nodes == [es[i]] || forall k | 0 <= k < |nodes| :: nodes[k] !in known
    ensures NoDup(es[..i] + nodes + es[i + 1..])
  {
    var m := |nodes|;
    var all := es[..i] + nodes + es[i + 1..];
    if nodes == [es[i]] {
      assert all == es;
    } else {
      forall j, k | 0 <= j < k < |all| ensures all[j] != all[k] {
        NewOrOld(es, i, nodes, known, j);
        NewOrOld(es, i, nodes, known, k);
      }
    }
  }

  lemma NewOrOld(es: seq<Element>, i: nat, nodes: seq<Element>, known: set<Element>, j: nat)
    requires i < |es| && j < |es| - 1 + |nodes| && forall k | 0 <= k < |es| :: es[k] in known
    requires forall k | 0 <= k < |nodes| :: nodes[k] !in known
    ensures var all, m := es[..i] + nodes + es[i + 1..], |nodes|;
            && |all| == |es| - 1 + m
            && (i <= j < i + m ==> all[j] == nodes[j - i] && all[j] !in known)
            && (j < i ==> all[j] == es[j] && all[j] in known)
            && (i + m <= j ==> all[j] == es[j - m + 1] && all[j] in known)
  {
  }

  ghost function Elems(es: seq<Element>): set<Element> { set k | 0 <= k < |es| :: es[k] }

  lemma ElemsSnoc(es: seq<Element>, e: Element)
    ensures Elems(es + [e]) == Elems(es) + {e}
  {
    var all := es + [e];
    assert forall k | 0 <= k < |es| :: all[k] == es[k];
    assert all[|es|] == e;
  }

  lemma ElemsJoin(a: seq<Element>, b: seq<Element>)
    ensures Elems(a + b) == Elems(a) + Elems(b)
    decreases |b|
  {
    if b == [] {
      assert a + b == a;
    } else {
      ElemsJoin(a, b[..|b| - 1]);
      ElemsSnoc(a + b[..|b| - 1], b[|b| - 1]);
      ElemsSnoc(b[..|b| - 1], b[|b| - 1]);
      assert a + b == a + b[..|b| - 1] + [b[|b| - 1]] && b == b[..|b| - 1] + [b[|b| - 1]];
    }
  }

  lemma SnocLast<T>(ts: seq<T>, i: nat)
    requires i < |ts|
    ensures ts[..i + 1] == ts[..i] + [ts[i]]
  {
  }

  lemma SnocAll<T>(ts: seq<T>)
    ensures ts[..|ts|] == ts
  {
  }

  lemma NoCount(paras: seq<Tree>, want: Want)
    ensures CountBefore(paras, 0, want) == 0
  {
  }

  lemma NextCount(paras: seq<Tree>, i: nat, want: Want)
    requires i < |paras|
    ensures CountBefore(paras, i + 1, want) == CountBefore(paras, i, want) + Count(paras[i], want)
  {
  }

  lemma PlaceNothing(paras: seq<Tree>, nums: seq<nat>, index: map<nat, nat>, next: int)
    requires Targets(nums, index, |paras|)
    ensures Place(paras, nums, index, next, 0) == Placed(paras, 0)
  {
  }

  lemma PlaceStep(paras: seq<Tree>, nums: seq<nat>, index: map<nat, nat>, next: int, k: nat)
    requires Targets(nums, index, |paras|) && k < |nums|
    ensures var s, i := Place(paras, nums, index, next, k), index[nums[k]];
            var t := Place(paras, nums, index, next, k + 1);
            if HasBookmark(s.paras[i], RefName(nums[k])) then t == s
            else t == Placed(s.paras[i := AddBookmark(s.paras[i], RefName(nums[k]), next + s.added)], s.added + 1)
  {
    hide HasBookmark, AddBookmark, RefName;
  }

  lemma HasBookmarkOne(t: Tree, name: string)
    ensures HasBookmarkIn([t], name) == HasBookmark(t, name)
  {
    assert [t][1..] == [];
  }

  lemma IdsOne(t: Tree)
    ensures IdsIn([t]) == Ids(t)
  {
    assert [t][1..] == [] && Ids(t) + [] == Ids(t);
  }

  lemma {:induction false} IdsJoin(a: seq<Tree>, b: seq<Tree>)
    ensures IdsIn(a + b) == IdsIn(a) + IdsIn(b)
    decreases |a|
  {
    hide Ids;
    if a == [] {
      assert a + b == b;
    } else {
      IdsJoin(a[1..], b);
      assert (a + b)[1..] == a[1..] + b;
      assert Ids(a[0]) + (IdsIn(a[1..]) + IdsIn(b)) == Ids(a[0]) + IdsIn(a[1..]) + IdsIn(b);
    }
  }

  lemma PopStack(es: seq<Element>)
    requires es != [] && NoDup(es)
    ensures var e, below := es[|es| - 1], es[..|es| - 1];
            NoDup(below) && e in Elems(es) && Elems(below) == Elems(es) - {e}
  {
    var e, below := es[|es| - 1], es[..|es| - 1];
    assert es == below + [e];
    ElemsSnoc(below, e);
  }

  lemma JoinStack(a: seq<Element>, b: seq<Element>, others: set<Element>)
    requires NoDup(a) && NoDup(b) && Elems(a) <= others && Apart(b, others)
    ensures NoDup(a + b) && Elems(a + b) == Elems(a) + Elems(b)
  {
    ElemsJoin(a, b);
    forall i, j | 0 <= i < |a| && 0 <= j < |b| ensures a[i] != b[j] { assert a[i] in Elems(a); }
  }

  lemma Nothing(avail: set<nat>)
    ensures LinkAll([], avail) == [] && CountAll([], Available(avail)) == 0 && SizeAll([]) == 0
    ensures Pending([], avail) == 0 && PendingLinks([], Available(avail)) == 0
    ensures Elems([]) == {}
  {
  }

  lemma LinkTreeKids(t: Tree, avail: set<nat>)
    ensures LinkTree(t, avail).children == LinkAll(t.children, avail)
    ensures Size(LinkTree(t, avail)) == 1 + SizeAll(LinkAll(t.children, avail))
    ensures Count(t, Available(avail)) == CountAll(t.children, Available(avail))
  {
  }

  lemma {:induction false} RunNodesStep(run: Tree, ps: seq<Piece>, k: nat, avail: set<nat>)
    requires k <= |ps|
    ensures RunNodes(run, ps[k..], avail) ==
              if k == |ps| then [] else PieceNodes(run, ps[k], avail) + RunNodes(run, ps[k + 1..], avail)
  {
    hide PieceNodes;
    if k < |ps| { assert ps[k..][1..] == ps[k + 1..]; }
  }

  lemma NoNodes(run: Tree, avail: set<nat>)
    ensures TokenNodes(run, Segments(""), avail) == []
  {
  }

  lemma OnlyNil(tag: Tag)
    ensures Only([], tag) == []
  {
  }

  lemma {:induction false} OnlySnoc(ts: seq<Tree>, i: nat, tag: Tag)
    requires i < |ts|
    ensures Only(ts[..i + 1], tag) == if ts[i].tag == tag then Only(ts[..i], tag) + [ts[i]] else Only(ts[..i], tag)
  {
    assert ts[..i + 1] == ts[..i] + [ts[i]];
    OnlyJoin(ts[..i], [ts[i]], tag);
    assert [ts[i]][1..] == [];
  }
}
