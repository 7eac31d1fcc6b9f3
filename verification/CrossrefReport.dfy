/** What the tool reports: which entry each number stands for, and the three counts. */
module CrossrefReport {
  import opened PyText
  import opened Citations
  import opened WordTree
  import opened Linker
  import opened TokenSpans
  import opened References
  import opened ReferenceEntries
  import opened Crossref
  import opened CrossrefTheorems
  import opened LinkPairs

  // ----- The number index

  /** A number stands for the last entry that has it. */
  lemma {:induction false} IndexLast(refs: seq<Ref>, k: nat)
    requires k < |refs| && forall j | k < j < |refs| :: refs[j].num != refs[k].num
    ensures refs[k].num in Index(refs) && Index(refs)[refs[k].num] == refs[k].paraIdx
    decreases |refs|
  {
    var m := |refs| - 1;
    var front := refs[..m];
    IndexSnoc(front, refs[m]);
    assert refs == front + [refs[m]];
    hide Index;
    if k < m {
      assert front[k] == refs[k] && forall j | k < j < m :: front[j] == refs[j];
      IndexLast(front, k);
      assert refs[m].num != refs[k].num;
    }
  }

  lemma IndexSnoc(refs: seq<Ref>, r: Ref)
    ensures Index(refs + [r]) == Index(refs)[r.num := r.paraIdx]
  {
    assert (refs + [r])[..|refs|] == refs;
  }

  /** The numbers a document is read with: those of the entries behind its first heading, of two entries with one number
      the later one. */
  lemma {:induction false} NumbersRead(rd: Reading, doc: Doc)
    requires Reasonable(rd) && Plan(rd, doc.paras).Some?
    ensures var h, texts := HeadingFrom(rd, Texts(doc.paras), 0), Texts(doc.paras);
            && h < |texts| && Heading(rd, doc) == h
            && Numbers(rd, doc) == Index(Entries(rd, Items(texts, h + 1)))
            && EntriesAre(rd, Items(texts, h + 1), |Items(texts, h + 1)|, Entries(rd, Items(texts, h + 1)))
  {
    hide Plan, Texts, Items, Entries, Index, EntriesAre, HeadingFrom;
    PlanFrom(rd, doc.paras);
    EntriesExactly(rd, Items(Texts(doc.paras), HeadingFrom(rd, Texts(doc.paras), 0) + 1));
  }

  // ----- The counts

  lemma {:induction false} CountFound(t: Tree, want: Want)
    ensures Count(t, want) == |FoundAll(RunTexts(t), want)|
    decreases t, 0
  {
    CountFoundAll(t.children, want);
  }

  lemma {:induction false} CountFoundOne(c: Tree, want: Want)
    ensures CountOne(c, want) == |FoundAll(RunTextsOne(c), want)|
    decreases c, 1
  {
    hide Found;
    if c.tag != Run {
      CountFound(c, want);
    } else if |Only(c.children, TextElem)| == 1 {
      assert [RunText(c)][1..] == [] && FoundAll([], want) == [];
      Alone(Found(RunText(c), want));
    }
  }

  lemma {:induction false} CountFoundAll(cs: seq<Tree>, want: Want)
    ensures CountAll(cs, want) == |FoundAll(RunTextsAll(cs), want)|
    decreases cs, 2
  {
    hide CountOne, Found;
    if cs != [] {
      CountFoundOne(cs[0], want);
      CountFoundAll(cs[1..], want);
      FoundAllJoin(RunTextsOne(cs[0]), RunTextsAll(cs[1..]), want);
    }
  }

  /** The linkable tokens in the runs of the paragraphs before `h`. */
  function TokensBefore(paras: seq<Tree>, h: nat, want: Want): seq<string>
    requires h <= |paras|
  {
    if h == 0 then [] else TokensBefore(paras, h - 1, want) + FoundAll(RunTexts(paras[h - 1]), want)
  }

  lemma {:induction false} CountTokens(paras: seq<Tree>, h: nat, want: Want)
    requires h <= |paras|
    ensures CountBefore(paras, h, want) == |TokensBefore(paras, h, want)|
  {
    hide Count, FoundAll, RunTexts;
    if h > 0 {
      CountTokens(paras, h - 1, want);
      CountFound(paras[h - 1], want);
    }
  }

  /** The numbers among the first `j` whose entry has no bookmark yet. */
  function Missing(paras: seq<Tree>, nums: seq<nat>, index: map<nat, nat>, j: nat): seq<nat>
    requires Targets(nums, index, |paras|) && j <= |nums|
  {
    if j == 0 then []
    else
      var n := nums[j - 1];
      Missing(paras, nums, index, j - 1) + if HasBookmark(paras[index[n]], RefName(n)) then [] else [n]
  }

  lemma {:induction false} AddedMissing(paras: seq<Tree>, nums: seq<nat>, index: map<nat, nat>, next: int, j: nat)
    requires Targets(nums, index, |paras|) && j <= |nums|
    ensures Place(paras, nums, index, next, j).added == |Missing(paras, nums, index, j)|
  {
    hide HasBookmark, AddBookmark, RefName, Place;
    if j == 0 {
      NothingAdded(paras, nums, index, next);
    } else {
      AddedMissing(paras, nums, index, next, j - 1);
      AddedStep(paras, nums, index, next, j - 1);
    }
  }

  lemma NothingAdded(paras: seq<Tree>, nums: seq<nat>, index: map<nat, nat>, next: int)
    requires Targets(nums, index, |paras|)
    ensures Place(paras, nums, index, next, 0).added == 0
  {
  }

  /** The report: the numbers with an entry, those of them whose entry had no bookmark, and the linkable tokens in the
      runs before the heading. */
  lemma {:induction false} ReportExactly(rd: Reading, doc: Doc)
    requires Reasonable(rd) && Plan(rd, doc.paras).Some?
    ensures var r, index, nums := CrossReference(rd, doc), Numbers(rd, doc), SortedNumbers(rd, doc);
            && Heading(rd, doc) <= |doc.paras| && Targets(nums, index, |doc.paras|)
            && r.referenceCount == |index.Keys|
            && r.bookmarksAdded == |Missing(doc.paras, nums, index, |nums|)|
            && r.linksAdded == |TokensBefore(doc.paras, Heading(rd, doc), Available(index.Keys))|
  {
    hide HasBookmark, AddBookmark, RefName, LinkTree, Reasonable, Plan, Place, Sorted, NextId, Available, Count, Targets;
    hide TokensBefore, Missing;
    var h, index, nums := Heading(rd, doc), Numbers(rd, doc), SortedNumbers(rd, doc);
    PlanTargets(rd, doc.paras);
    PlaceClosed(doc.paras, nums, index, NextId(doc), |nums|);
    var placed := Place(doc.paras, nums, index, NextId(doc), |nums|);
    AddedMissing(doc.paras, nums, index, NextId(doc), |nums|);
    forall i | 0 <= i < h ensures placed.paras[i] == doc.paras[i] {}
    CountBeforeAgree(doc.paras, placed.paras, h, Available(index.Keys));
    CountTokens(doc.paras, h, Available(index.Keys));
    KeysCount(index);
  }

  /** The id of the k-th bookmark: the number of bookmarks placed before it, and one, above the greatest id of the
      document, which counts as 0 when there is none. */
  lemma {:induction false} IdsExactly(rd: Reading, doc: Doc, k: nat)
    requires Reasonable(rd) && Plan(rd, doc.paras).Some? && k < |SortedNumbers(rd, doc)|
    ensures var ids, index, nums := IdsIn(doc.outer) + IdsIn(doc.paras), Numbers(rd, doc), SortedNumbers(rd, doc);
            && Targets(nums, index, |doc.paras|)
            && var top := IdFor(rd, doc, k) - |Missing(doc.paras, nums, index, k)| - 1;
               if ids == [] then top == 0 else top in ids && forall i | 0 <= i < |ids| :: ids[i] <= top
  {
    hide HasBookmark, RefName, Reasonable, Plan, Place, Sorted, IdsIn, MaxOr, Targets, Missing;
    PlanTargets(rd, doc.paras);
    AddedMissing(doc.paras, SortedNumbers(rd, doc), Numbers(rd, doc), NextId(doc), k);
  }

  lemma KeysCount(index: map<nat, nat>)
    ensures |index| == |index.Keys|
  {
  }
}
