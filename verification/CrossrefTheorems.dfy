/** What cross-referencing a whole document guarantees. */
module CrossrefTheorems {
  import opened PyText
  import opened Citations
  import opened WordTree
  import opened Linker
  import opened LinkerText
  import opened TokenSpans
  import opened References
  import opened Crossref

  function Heading(rd: Reading, doc: Doc): nat
    requires Plan(rd, doc.paras).Some?
  {
    Plan(rd, doc.paras).value.0
  }

  function Numbers(rd: Reading, doc: Doc): map<nat, nat>
    requires Plan(rd, doc.paras).Some?
  {
    Plan(rd, doc.paras).value.1
  }

  /** The number at place k of the sorted list of reference numbers. */
  function SortedNumbers(rd: Reading, doc: Doc): seq<nat>
    requires Plan(rd, doc.paras).Some?
  {
    Sorted(Numbers(rd, doc).Keys)
  }

  /** The id that the bookmark of the k-th number gets, if it needs one. */
  function IdFor(rd: Reading, doc: Doc, k: nat): int
    requires Reasonable(rd) && Plan(rd, doc.paras).Some? && k < |SortedNumbers(rd, doc)|
  {
    PlanTargets(rd, doc.paras);
    NextId(doc) + Place(doc.paras, SortedNumbers(rd, doc), Numbers(rd, doc), NextId(doc), k).added
  }

  /** The source document has no bookmark yet for the k-th number in its entry. */
  predicate NeedsBookmark(rd: Reading, doc: Doc, k: nat)
    requires Reasonable(rd) && Plan(rd, doc.paras).Some? && k < |SortedNumbers(rd, doc)|
  {
    PlanTargets(rd, doc.paras);
    var n := SortedNumbers(rd, doc)[k];
    !HasBookmark(doc.paras[Numbers(rd, doc)[n]], RefName(n))
  }

  // ----- Where each output paragraph comes from

  /** The document in closed form: paragraphs before the heading are walked, the entry of
      each number has its bookmark, and all others are as they were. */
  lemma {:induction false} OutputParagraphs(rd: Reading, doc: Doc)
    requires Reasonable(rd) && Plan(rd, doc.paras).Some?
    ensures var out, h := CrossReference(rd, doc).doc, Heading(rd, doc);
            var index, nums := Numbers(rd, doc), SortedNumbers(rd, doc);
            && out.outer == doc.outer && |out.paras| == |doc.paras| && h < |doc.paras|
            && (forall i | 0 <= i < h :: out.paras[i] == LinkTree(doc.paras[i], index.Keys))
            && (forall k | 0 <= k < |nums| :: nums[k] in index && h < index[nums[k]] < |doc.paras|
                  && out.paras[index[nums[k]]] ==
                       if !NeedsBookmark(rd, doc, k) then doc.paras[index[nums[k]]]
                       else AddBookmark(doc.paras[index[nums[k]]], RefName(nums[k]), IdFor(rd, doc, k)))
            && (forall i | h <= i < |doc.paras| && (forall k | 0 <= k < |nums| :: index[nums[k]] != i) ::
                  out.paras[i] == doc.paras[i])
  {
    hide HasBookmark, AddBookmark, RefName, NextId, LinkTree, Place, Reasonable, Plan, Sorted, CountBefore, Available, Targets;
    var h, index, nums := Heading(rd, doc), Numbers(rd, doc), SortedNumbers(rd, doc);
    PlanTargets(rd, doc.paras);
    PlaceClosed(doc.paras, nums, index, NextId(doc), |nums|);
    var placed := Place(doc.paras, nums, index, NextId(doc), |nums|).paras;
    var out := CrossReference(rd, doc).doc;
    assert out.paras == LinkBefore(placed, h, index.Keys);
    forall k | 0 <= k < |nums| ensures nums[k] in index && h < index[nums[k]] { assert nums[k] in nums; }
    forall i | 0 <= i < h ensures out.paras[i] == LinkTree(doc.paras[i], index.Keys) {
      assert placed[i] == doc.paras[i];
    }
  }

  /** A property of paragraphs that bookmarks do not disturb holds of every output
      paragraph behind the heading if it holds of the source paragraph. */
  lemma {:induction false} BehindHeading(rd: Reading, doc: Doc, i: nat)
    requires Reasonable(rd) && Plan(rd, doc.paras).Some? && Heading(rd, doc) <= i < |doc.paras|
    ensures i < |CrossReference(rd, doc).doc.paras|
    ensures var p, q := doc.paras[i], CrossReference(rd, doc).doc.paras[i];
            q == p || exists name, id :: q == AddBookmark(p, name, id)
  {
    hide HasBookmark, AddBookmark, RefName, NextId, LinkTree, Place, Reasonable, Plan, Sorted, CrossReference, IdFor;
    OutputParagraphs(rd, doc);
    var index, nums := Numbers(rd, doc), SortedNumbers(rd, doc);
    if k :| 0 <= k < |nums| && index[nums[k]] == i {
    }
  }

  // ----- Visible text

  lemma {:induction false} JoinPointwise(a: seq<Tree>, b: seq<Tree>)
    requires |a| == |b| && forall i | 0 <= i < |a| :: |TextOf(a[i])| <= |TextOf(b[i])|
    ensures |TextOfAll(a)| <= |TextOfAll(b)|
    ensures TextOfAll(a) == TextOfAll(b) <==> forall i | 0 <= i < |a| :: TextOf(a[i]) == TextOf(b[i])
    decreases |a|
  {
    if a != [] {
      JoinPointwise(a[1..], b[1..]);
      JoinBoth(TextOf(a[0]), TextOfAll(a[1..]), TextOf(b[0]), TextOfAll(b[1..]));
      assert forall i | 0 <= i < |a| - 1 :: a[1..][i] == a[i + 1] && b[1..][i] == b[i + 1];
      assert (forall i | 0 <= i < |a| :: TextOf(a[i]) == TextOf(b[i])) <==>
             TextOf(a[0]) == TextOf(b[0]) && forall i | 0 <= i < |a| - 1 :: TextOf(a[1..][i]) == TextOf(b[1..][i]);
    }
  }

  /** A paragraph before the heading keeps its text exactly when every run that is split has no text besides its one
      text child; paragraphs of the reference list always keep theirs. No paragraph gains text. */
  lemma {:induction false} VisibleParagraph(rd: Reading, doc: Doc, i: nat)
    requires Reasonable(rd) && Plan(rd, doc.paras).Some? && i < |doc.paras|
    requires Reached(doc.paras[i], CleanProps())
    ensures i < |CrossReference(rd, doc).doc.paras|
    ensures var p, q := doc.paras[i], CrossReference(rd, doc).doc.paras[i];
            && |TextOf(q)| <= |TextOf(p)|
            && (TextOf(q) == TextOf(p) <==> i >= Heading(rd, doc) || Reached(p, Keeps(Numbers(rd, doc).Keys)))
  {
    hide *;
    OutputParagraphs(rd, doc);
    if i < Heading(rd, doc) {
      TextKept(doc.paras[i], Numbers(rd, doc).Keys);
    } else {
      TextBehind(rd, doc, i);
    }
  }

  /** The text of the document is kept exactly when every run that is split, in a paragraph before the heading, has no
      text besides its one text child. */
  lemma {:induction false} VisibleText(rd: Reading, doc: Doc)
    requires Reasonable(rd) && Plan(rd, doc.paras).Some?
    requires forall i | 0 <= i < |doc.paras| :: Reached(doc.paras[i], CleanProps())
    ensures Heading(rd, doc) < |doc.paras|
    ensures TextOfAll(CrossReference(rd, doc).doc.paras) == TextOfAll(doc.paras) <==>
              forall i | 0 <= i < Heading(rd, doc) :: Reached(doc.paras[i], Keeps(Numbers(rd, doc).Keys))
  {
    hide *;
    OutputParagraphs(rd, doc);
    forall i | 0 <= i < |doc.paras| { VisibleParagraph(rd, doc, i); }
    JoinPointwise(CrossReference(rd, doc).doc.paras, doc.paras);
  }

  lemma {:induction false} TextBehind(rd: Reading, doc: Doc, i: nat)
    requires Reasonable(rd) && Plan(rd, doc.paras).Some? && Heading(rd, doc) <= i < |doc.paras|
    ensures i < |CrossReference(rd, doc).doc.paras|
    ensures TextOf(CrossReference(rd, doc).doc.paras[i]) == TextOf(doc.paras[i])
  {
    hide *;
    BehindHeading(rd, doc, i);
    var p, q := doc.paras[i], CrossReference(rd, doc).doc.paras[i];
    if q != p {
      var name, id :| q == AddBookmark(p, name, id);
      BookmarkAdded(p, name, id);
    }
  }

  // ----- Running the tool twice

  lemma {:induction false} PlaceNone(paras: seq<Tree>, nums: seq<nat>, index: map<nat, nat>, next: int, j: nat)
    requires Targets(nums, index, |paras|) && j <= |nums|
    requires forall k | 0 <= k < |nums| :: HasBookmark(paras[index[nums[k]]], RefName(nums[k]))
    ensures Place(paras, nums, index, next, j) == Placed(paras, 0)
  {
    hide HasBookmark, RefName, AddBookmark;
    if j > 0 { PlaceNone(paras, nums, index, next, j - 1); }
  }

  lemma {:induction false} StaysNoHeading(rd: Reading, p: Tree, avail: set<nat>)
    requires Reasonable(rd) && !rd.heading(TextOf(p))
    ensures !rd.heading(TextOf(LinkTree(p, avail)))
  {
    hide Count, LinkTree, TextOf, Available;
    if Count(p, Available(avail)) == 0 {
      CountZeroUnchanged(p, avail);
    } else {
      ChangedShowsBracket(p, avail);
    }
  }

  /** The second run reads the same bibliography as the first. */
  lemma {:induction false} SamePlan(rd: Reading, doc: Doc)
    requires Reasonable(rd) && Plan(rd, doc.paras).Some?
    ensures Plan(rd, CrossReference(rd, doc).doc.paras) == Plan(rd, doc.paras)
  {
    hide *;
    OutputParagraphs(rd, doc);
    var out, h := CrossReference(rd, doc).doc, Heading(rd, doc);
    PlanFrom(rd, doc.paras);
    PlanFrom(rd, out.paras);
    SameTexts(rd, doc);
  }

  lemma {:induction false} SameTexts(rd: Reading, doc: Doc)
    requires Reasonable(rd) && Plan(rd, doc.paras).Some?
    ensures var out, h := CrossReference(rd, doc).doc, Heading(rd, doc);
            && h == HeadingFrom(rd, Texts(doc.paras), 0) == HeadingFrom(rd, Texts(out.paras), 0)
            && h < |doc.paras| == |out.paras|
            && Items(Texts(doc.paras), h + 1) == Items(Texts(out.paras), h + 1)
  {
    hide TextOf, LinkTree, CrossReference, Items, Plan, HasBookmark, AddBookmark;
    OutputParagraphs(rd, doc);
    PlanFrom(rd, doc.paras);
    var out, h, avail := CrossReference(rd, doc).doc, Heading(rd, doc), Numbers(rd, doc).Keys;
    var a, b := Texts(doc.paras), Texts(out.paras);
    forall i | h <= i < |a| ensures a[i] == b[i] { TextBehind(rd, doc, i); }
    forall i | 0 <= i < h ensures !rd.heading(b[i]) {
      assert !rd.heading(a[i]);
      StaysNoHeading(rd, doc.paras[i], avail);
    }
    HeadingIs(rd, b, 0, h);
    ItemsAgree(a, b, h + 1);
  }

  lemma {:induction false} HeadingIs(rd: Reading, texts: seq<string>, from: nat, h: nat)
    requires from <= h < |texts| && rd.heading(texts[h])
    requires forall i | from <= i < h :: !rd.heading(texts[i])
    ensures HeadingFrom(rd, texts, from) == h
  {
    var k := HeadingFrom(rd, texts, from);
    assert !(k < h) && !(h < k);
  }

  lemma {:induction false} NothingCounted(paras: seq<Tree>, h: nat, want: Want)
    requires h <= |paras| && forall i | 0 <= i < h :: Count(paras[i], want) == 0
    ensures CountBefore(paras, h, want) == 0
  {
    hide Count;
    if h > 0 { NothingCounted(paras, h - 1, want); }
  }

  /** Cross-referencing is idempotent: whatever the document, a second run adds no
      bookmark and no hyperlink and returns the document of the first. */
  lemma {:induction false} RunTwice(rd: Reading, doc: Doc)
    requires Reasonable(rd) && Plan(rd, doc.paras).Some?
    ensures var r := CrossReference(rd, doc); CrossReference(rd, r.doc) == Done(r.doc, 0, 0, r.referenceCount)
  {
    hide HasBookmark, AddBookmark, RefName, NextId, LinkTree, Place, Reasonable, Plan, Sorted, Count, IdFor;
    var out, h, index, nums := CrossReference(rd, doc).doc, Heading(rd, doc), Numbers(rd, doc), SortedNumbers(rd, doc);
    SamePlan(rd, doc);
    OutputParagraphs(rd, doc);
    PlanTargets(rd, doc.paras);
    forall k | 0 <= k < |nums| ensures HasBookmark(out.paras[index[nums[k]]], RefName(nums[k])) {
      BookmarkAdded(doc.paras[index[nums[k]]], RefName(nums[k]), IdFor(rd, doc, k));
    }
    PlaceNone(out.paras, nums, index, NextId(out), |nums|);
    forall i | 0 <= i < h
      ensures LinkTree(out.paras[i], index.Keys) == out.paras[i]
      ensures Count(out.paras[i], Available(index.Keys)) == 0
    {
      LinkTreeStable(doc.paras[i], index.Keys);
    }
    NothingCounted(out.paras, h, Available(index.Keys));
    assert LinkBefore(out.paras, h, index.Keys) == out.paras;
  }

  // ----- Bookmarks and links

  /** Every number of the bibliography ends up bookmarked in its own paragraph. */
  lemma {:induction false} AllBookmarked(rd: Reading, doc: Doc, n: nat)
    requires Reasonable(rd) && Plan(rd, doc.paras).Some? && n in Numbers(rd, doc)
    ensures var paras, i := CrossReference(rd, doc).doc.paras, Numbers(rd, doc)[n];
            i < |paras| && HasBookmark(paras[i], RefName(n))
  {
    hide HasBookmark, AddBookmark, RefName, LinkTree, Place, Reasonable, Plan, CrossReference, IdFor;
    hide SortedNumbers, Numbers;
    OutputParagraphs(rd, doc);
    var k := NumberPlace(rd, doc, n);
    BookmarkAdded(doc.paras[Numbers(rd, doc)[n]], RefName(n), IdFor(rd, doc, k));
  }

  lemma {:induction false} NumberPlace(rd: Reading, doc: Doc, n: nat) returns (k: nat)
    requires Plan(rd, doc.paras).Some? && n in Numbers(rd, doc)
    ensures k < |SortedNumbers(rd, doc)| && SortedNumbers(rd, doc)[k] == n
  {
    hide Plan;
    assert n in SortedNumbers(rd, doc);
    k :| 0 <= k < |SortedNumbers(rd, doc)| && SortedNumbers(rd, doc)[k] == n;
  }

  /** The ids of added bookmarks are above every bookmark id of the document, and an
      earlier bookmark never shares its id with a later one. */
  lemma {:induction false} FreshIds(rd: Reading, doc: Doc)
    requires Reasonable(rd) && Plan(rd, doc.paras).Some?
    ensures forall k, id | 0 <= k < |SortedNumbers(rd, doc)| && (id in IdsIn(doc.outer) || id in IdsIn(doc.paras)) ::
              id < IdFor(rd, doc, k)
    ensures forall j, k | 0 <= j < k < |SortedNumbers(rd, doc)| && NeedsBookmark(rd, doc, j) ::
              IdFor(rd, doc, j) < IdFor(rd, doc, k)
  {
    hide HasBookmark, AddBookmark, RefName, LinkTree, Place, Reasonable, Plan, CrossReference, NextId, Ids, IdsIn, Sorted;
    PlanTargets(rd, doc.paras);
    var index, nums := Numbers(rd, doc), SortedNumbers(rd, doc);
    NextIdAbove(doc);
    forall j, k | 0 <= j < k < |nums| && NeedsBookmark(rd, doc, j)
      ensures IdFor(rd, doc, j) < IdFor(rd, doc, k)
    {
      AddedGrows(doc.paras, nums, index, NextId(doc), j, k);
    }
  }

  lemma {:induction false} NextIdAbove(doc: Doc)
    ensures forall id | id in IdsIn(doc.outer) || id in IdsIn(doc.paras) :: id < NextId(doc)
  {
    hide Ids, IdsIn;
    var a, b := IdsIn(doc.outer), IdsIn(doc.paras);
    forall id | id in a || id in b ensures id < NextId(doc) { assert id in a + b; }
  }

  // ----- Agreement with the audit

  /** Citations the audit lists before the heading. */
  function AuditedBefore(paras: seq<Tree>, h: nat): nat
    requires h <= |paras|
  {
    if h == 0 then 0 else AuditedBefore(paras, h - 1) + |Found(TextOf(paras[h - 1]), Audited())|
  }

  lemma {:induction false} CountAgainstAudit(paras: seq<Tree>, h: nat, avail: set<nat>)
    requires h <= |paras|
    ensures CountBefore(paras, h, Available(avail)) <= AuditedBefore(paras, h)
    ensures CountBefore(paras, h, Available(avail)) == AuditedBefore(paras, h) <==>
              forall i | 0 <= i < h :: Count(paras[i], Available(avail)) == |Found(TextOf(paras[i]), Audited())|
  {
    hide Count, Found, TextOf, Available, Audited;
    if h > 0 {
      CountAgainstAudit(paras, h - 1, avail);
      LinkerAgreesWithAudit(paras[h - 1], avail);
    }
  }

  lemma {:induction false} CountBeforeAgree(a: seq<Tree>, b: seq<Tree>, h: nat, want: Want)
    requires h <= |a| && h <= |b| && forall i | 0 <= i < h :: a[i] == b[i]
    ensures CountBefore(a, h, want) == CountBefore(b, h, want)
  {
    hide Count;
    if h > 0 { CountBeforeAgree(a, b, h - 1, want); }
  }

  /** The tool never reports more links than the audit lists citations, and it reports
      the same number exactly when, in every paragraph before the heading, each audited
      citation stands in one reachable run and names only available numbers. */
  lemma {:induction false} LinksAgainstAudit(rd: Reading, doc: Doc)
    requires Reasonable(rd) && Plan(rd, doc.paras).Some?
    ensures var r, h, avail := CrossReference(rd, doc), Heading(rd, doc), Numbers(rd, doc).Keys;
            && h < |doc.paras|
            && r.linksAdded <= AuditedBefore(doc.paras, h)
            && (r.linksAdded == AuditedBefore(doc.paras, h) <==>
                  forall i | 0 <= i < h :: AllLinkable(doc.paras[i], avail))
  {
    hide Count, Found, TextOf, Available, Audited, AllLinkable;
    hide HasBookmark, AddBookmark, RefName, LinkTree, Reasonable, Plan, Place;
    var h, index, nums := Heading(rd, doc), Numbers(rd, doc), SortedNumbers(rd, doc);
    PlanTargets(rd, doc.paras);
    PlaceClosed(doc.paras, nums, index, NextId(doc), |nums|);
    var placed := Place(doc.paras, nums, index, NextId(doc), |nums|).paras;
    CountBeforeAgree(doc.paras, placed, h, Available(index.Keys));
    CountAgainstAudit(doc.paras, h, index.Keys);
    forall i | 0 <= i < h { LinkerAgreesWithAudit(doc.paras[i], index.Keys); }
  }
}
