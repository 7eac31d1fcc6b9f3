/** Cross-referencing a document: bookmarks on the bibliography entries, then links in
    every paragraph before the heading. */
module Crossref {
  import opened PyText
  import opened Citations
  import opened WordTree
  import opened Linker
  import opened LinkerText
  import opened References

  /** The elements outside any paragraph, and the paragraphs in document order. */
  datatype Doc = Doc(outer: seq<Tree>, paras: seq<Tree>)

  // ----- Non-empty paragraphs

  function Texts(paras: seq<Tree>): (r: seq<string>)
    ensures |r| == |paras|
  {
    seq(|paras|, i requires 0 <= i < |paras| => TextOf(paras[i]))
  }

  function Items(texts: seq<string>, from: nat): seq<Item>
    requires from <= |texts|
    decreases |texts| - from
  {
    if from == |texts| then []
    else (if Blank(texts[from]) then [] else [Item(from, texts[from])]) + Items(texts, from + 1)
  }

  ghost predicate Ranging(items: seq<Item>, from: nat, end: nat) {
    forall k | 0 <= k < |items| :: from <= items[k].idx < end
  }

  lemma {:induction false} ItemsPlaced(texts: seq<string>, from: nat)
    requires from <= |texts|
    ensures Increasing(Items(texts, from)) && Ranging(Items(texts, from), from, |texts|)
    decreases |texts| - from
  {
    hide Blank, Increasing, Ranging;
    if from == |texts| {
      NothingPlaced(from);
    } else {
      ItemsPlaced(texts, from + 1);
      var rest := Items(texts, from + 1);
      PlacedCons(Item(from, texts[from]), rest, |texts|);
      ItemsStep(texts, from);
    }
  }

  lemma ItemsStep(texts: seq<string>, from: nat)
    requires from < |texts|
    ensures var rest := Items(texts, from + 1);
            Items(texts, from) == rest || Items(texts, from) == [Item(from, texts[from])] + rest
  {
    hide Blank;
    assert [] + Items(texts, from + 1) == Items(texts, from + 1);
  }

  lemma NothingPlaced(from: nat)
    ensures Increasing([]) && Ranging([], from, from)
  {
  }

  lemma PlacedCons(item: Item, rest: seq<Item>, end: nat)
    requires item.idx < end && Increasing(rest) && Ranging(rest, item.idx + 1, end)
    ensures Increasing([item] + rest) && Ranging([item] + rest, item.idx, end) && Ranging(rest, item.idx, end)
  {
  }

  lemma {:induction false} ItemsAgree(a: seq<string>, b: seq<string>, from: nat)
    requires from <= |a| == |b| && forall i | from <= i < |a| :: a[i] == b[i]
    ensures Items(a, from) == Items(b, from)
    decreases |a| - from
  {
    if from < |a| { ItemsAgree(a, b, from + 1); }
  }

  /** The first heading paragraph from position `from` on; |texts| if there is none. */
  function HeadingFrom(rd: Reading, texts: seq<string>, from: nat): (h: nat)
    requires from <= |texts|
    ensures from <= h <= |texts| && (h < |texts| ==> rd.heading(texts[h]))
    ensures forall i | from <= i < h :: !rd.heading(texts[i])
    decreases |texts| - from
  {
    if from == |texts| || rd.heading(texts[from]) then from else HeadingFrom(rd, texts, from + 1)
  }

  /** Reading the non-empty paragraphs finds the same heading as reading all of them,
      and the list that follows depends on nothing before it. */
  lemma {:induction false} ReadFromTexts(rd: Reading, texts: seq<string>, from: nat)
    requires Reasonable(rd) && from <= |texts|
    ensures var h := HeadingFrom(rd, texts, from);
            Read(rd, Items(texts, from)) ==
              if h == |texts| then Bibliography.NoHeading
              else Bibliography(h, Entries(rd, Items(texts, h + 1)))
    decreases |texts| - from
  {
    hide Blank, Read, HeadingAt, Entries;
    ReadNil(rd);
    if from < |texts| {
      var rest, items := Items(texts, from + 1), Items(texts, from);
      if Blank(texts[from]) {
        assert items == rest;
      } else {
        ReadCons(rd, Item(from, texts[from]), rest);
      }
      if !rd.heading(texts[from]) { ReadFromTexts(rd, texts, from + 1); }
    }
  }

  lemma {:induction false} ReadNil(rd: Reading)
    ensures Read(rd, []) == Bibliography.NoHeading
  {
  }

  lemma {:induction false} ReadCons(rd: Reading, item: Item, rest: seq<Item>)
    ensures Read(rd, [item] + rest) ==
              if rd.heading(item.text) then Bibliography(item.idx, Entries(rd, rest)) else Read(rd, rest)
  {
    var items := [item] + rest;
    assert items[1..] == rest;
    if !rd.heading(item.text) && HeadingAt(rd, rest) < |rest| {
      assert items[HeadingAt(rd, items) + 1..] == rest[HeadingAt(rd, rest) + 1..];
    }
  }

  // ----- Bookmarks

  predicate IsBookmark(t: Tree, name: string) {
    t.tag == BookmarkStart && Name in t.attrib && t.attrib[Name] == name
  }

  predicate HasBookmark(t: Tree, name: string)
    decreases t, 0
  {
    IsBookmark(t, name) || HasBookmarkIn(t.children, name)
  }

  predicate HasBookmarkIn(ts: seq<Tree>, name: string)
    decreases ts, 1
  {
    ts != [] && (HasBookmark(ts[0], name) || HasBookmarkIn(ts[1..], name))
  }

  function StartNode(name: string, id: int): Tree {
    Node(BookmarkStart, map[Id := DecInt(id), Name := name], "", "", [])
  }

  function EndNode(id: int): Tree { Node(BookmarkEnd, map[Id := DecInt(id)], "", "", []) }

  function InsertAt(cs: seq<Tree>): (at: nat)
    ensures at <= |cs|
  {
    if cs != [] && cs[0].tag == ParaProps then 1 else 0
  }

  function AddBookmark(p: Tree, name: string, id: int): Tree {
    var at := InsertAt(p.children);
    p.(children := p.children[..at] + [StartNode(name, id)] + p.children[at..] + [EndNode(id)])
  }

  lemma {:induction false} HasBookmarkJoin(a: seq<Tree>, b: seq<Tree>, name: string)
    ensures HasBookmarkIn(a + b, name) <==> HasBookmarkIn(a, name) || HasBookmarkIn(b, name)
    decreases |a|
  {
    if a == [] {
      assert a + b == b;
    } else {
      HasBookmarkJoin(a[1..], b, name);
      assert (a + b)[1..] == a[1..] + b;
    }
  }

  /** A bookmark can be found again, adds no text, is delimited inside its paragraph by one start and
      one end with the same id, and taking the two out gives the old paragraph. */
  lemma {:induction false} BookmarkAdded(p: Tree, name: string, id: int)
    ensures var q, at := AddBookmark(p, name, id), InsertAt(p.children);
            && HasBookmark(q, name)
            && TextOf(q) == TextOf(p)
            && |q.children| == |p.children| + 2 && at == (if p.children != [] && p.children[0].tag == ParaProps then 1 else 0)
            && q.children[at].tag == BookmarkStart && q.children[|q.children| - 1].tag == BookmarkEnd
            && q.children[at].attrib[Id] == q.children[|q.children| - 1].attrib[Id] == DecInt(id)
            && q.(children := q.children[..at] + q.children[at + 1..|q.children| - 1]) == p
  {
    var cs, q, at := p.children, AddBookmark(p, name, id), InsertAt(p.children);
    var s, e := StartNode(name, id), EndNode(id);
    assert TextOf(s) == TextOf(e) == "" && HasBookmark(s, name);
    Surrounded(cs[..at], s, cs[at..], e, name);
    SplitAt(cs, at);
    assert HasBookmark(q, name) && TextOf(q) == TextOf(p);
    hide TextOf, HasBookmark, InsertAt;
    Between(cs[..at], s, cs[at..], e);
  }

  lemma Between<T>(a: seq<T>, s: T, b: seq<T>, e: T)
    ensures var q := a + [s] + b + [e];
            && |q| == |a| + |b| + 2 && q[|a|] == s && q[|q| - 1] == e
            && q[..|a|] == a && q[|a| + 1..|q| - 1] == b
  {
  }

  lemma {:induction false} Surrounded(a: seq<Tree>, s: Tree, b: seq<Tree>, e: Tree, name: string)
    requires TextOf(s) == TextOf(e) == "" && HasBookmark(s, name)
    ensures TextOfAll(a + [s] + b + [e]) == TextOfAll(a + b)
    ensures HasBookmarkIn(a + [s] + b + [e], name)
  {
    hide TextOf, HasBookmark;
    TextOfJoin(a, b);
    TextOfJoin(a + [s] + b, [e]);
    TextOfJoin(a + [s], b);
    TextOfJoin(a, [s]);
    TextOfOne(s);
    TextOfOne(e);
    HasBookmarkJoin(a + [s] + b, [e], name);
    HasBookmarkJoin(a + [s], b, name);
    HasBookmarkJoin(a, [s], name);
  }

  // ----- Bookmark ids

  function OwnId(t: Tree): seq<int> {
    if (t.tag == BookmarkStart || t.tag == BookmarkEnd) && Id in t.attrib && t.attrib[Id] != "" then
      match PyInt(t.attrib[Id]) case Some(n) => [n] case None => []
    else []
  }

  function Ids(t: Tree): seq<int>
    decreases t, 0
  {
    OwnId(t) + IdsIn(t.children)
  }

  function IdsIn(ts: seq<Tree>): seq<int>
    decreases ts, 1
  {
    if ts == [] then [] else Ids(ts[0]) + IdsIn(ts[1..])
  }

  function MaxOr(ids: seq<int>, default: int): (m: int)
    ensures forall i | 0 <= i < |ids| :: ids[i] <= m
    ensures ids == [] ==> m == default
    ensures ids != [] ==> m in ids
  {
    if ids == [] then default
    else
      var m := MaxOr(ids[1..], ids[0]);
      if ids[0] > m then ids[0] else m
  }

  function NextId(doc: Doc): int { MaxOr(IdsIn(doc.outer) + IdsIn(doc.paras), 0) + 1 }

  lemma {:induction false} IdsOfOne(ts: seq<Tree>, i: nat, id: int)
    requires i < |ts| && id in Ids(ts[i])
    ensures id in IdsIn(ts)
  {
    if i > 0 { IdsOfOne(ts[1..], i - 1, id); }
  }

  // ----- Placing the bookmarks

  function MinOf(s: set<nat>): (m: nat)
    requires s != {}
    ensures m in s && forall x | x in s :: m <= x
  {
    MinExists(s);
    var m :| m in s && forall x | x in s :: m <= x;
    m
  }

  lemma {:induction false} MinExists(s: set<nat>)
    requires s != {}
    ensures exists m :: m in s && forall x | x in s :: m <= x
  {
    var y :| y in s;
    MinBelow(s, y);
  }

  lemma {:induction false} MinBelow(s: set<nat>, y: nat)
    requires y in s
    ensures exists m :: m in s && forall x | x in s :: m <= x
    decreases y
  {
    if z :| z in s && z < y { MinBelow(s, z); }
  }

  /** `sorted(...)` of the keys. */
  function Sorted(s: set<nat>): (r: seq<nat>)
    ensures forall x :: x in s <==> x in r
  {
    if s == {} then []
    else
      var m := MinOf(s);
      [m] + Sorted(s - {m})
  }

  lemma {:induction false} SortedUp(s: set<nat>)
    ensures var r := Sorted(s); |r| == |s| && forall i, j | 0 <= i < j < |r| :: r[i] < r[j]
    decreases |s|
  {
    hide MinOf;
    if s != {} {
      var m := MinOf(s);
      var r := Sorted(s - {m});
      SortedUp(s - {m});
      forall i | 0 <= i < |r| ensures m < r[i] {
        assert r[i] in s - {m} && r[i] in s;
      }
      assert Sorted(s) == [m] + r;
    }
  }

  datatype Placed = Placed(paras: seq<Tree>, added: nat)

  ghost predicate Targets(nums: seq<nat>, index: map<nat, nat>, n: nat) {
    && (forall j | 0 <= j < |nums| :: nums[j] in index && index[nums[j]] < n)
    && (forall i, j | 0 <= i < j < |nums| :: index[nums[i]] != index[nums[j]])
  }

  /** The bookmark loop after its first `j` numbers. */
  function Place(paras: seq<Tree>, nums: seq<nat>, index: map<nat, nat>, next: int, j: nat): (r: Placed)
    requires Targets(nums, index, |paras|) && j <= |nums|
    ensures |r.paras| == |paras|
  {
    if j == 0 then Placed(paras, 0)
    else
      var r := Place(paras, nums, index, next, j - 1);
      var n := nums[j - 1];
      var i := index[n];
      if HasBookmark(r.paras[i], RefName(n)) then r
      else Placed(r.paras[i := AddBookmark(r.paras[i], RefName(n), next + r.added)], r.added + 1)
  }

  /** The paragraph of the k-th number, once its turn has come. */
  function PlacedPara(paras: seq<Tree>, nums: seq<nat>, index: map<nat, nat>, next: int, k: nat): Tree
    requires Targets(nums, index, |paras|) && k < |nums|
  {
    var p, name := paras[index[nums[k]]], RefName(nums[k]);
    if HasBookmark(p, name) then p
    else AddBookmark(p, name, next + Place(paras, nums, index, next, k).added)
  }

  /** The loop in closed form: each entry's paragraph is looked at once, as it was in
      the source document, and every other paragraph stays as it was. */
  lemma {:induction false} PlaceClosed(paras: seq<Tree>, nums: seq<nat>, index: map<nat, nat>, next: int, j: nat)
    requires Targets(nums, index, |paras|) && j <= |nums|
    ensures var r := Place(paras, nums, index, next, j).paras;
            && (forall k | 0 <= k < j :: r[index[nums[k]]] == PlacedPara(paras, nums, index, next, k))
            && (forall i | 0 <= i < |paras| && (forall k | 0 <= k < j :: index[nums[k]] != i) :: r[i] == paras[i])
    decreases j
  {
    hide HasBookmark, AddBookmark, RefName;
    if j > 0 {
      PlaceClosed(paras, nums, index, next, j - 1);
      assert forall k | 0 <= k < j - 1 :: index[nums[k]] != index[nums[j - 1]];
    }
  }

  lemma {:induction false} AddedStep(paras: seq<Tree>, nums: seq<nat>, index: map<nat, nat>, next: int, i: nat)
    requires Targets(nums, index, |paras|) && i < |nums|
    ensures Place(paras, nums, index, next, i + 1).added == Place(paras, nums, index, next, i).added +
              if HasBookmark(paras[index[nums[i]]], RefName(nums[i])) then 0 else 1
  {
    PlaceClosed(paras, nums, index, next, i);
    assert Place(paras, nums, index, next, i).paras[index[nums[i]]] == paras[index[nums[i]]];
  }

  /** Ids are handed out in increasing order, one for each bookmark placed. */
  lemma {:induction false} AddedGrows(paras: seq<Tree>, nums: seq<nat>, index: map<nat, nat>, next: int, i: nat, j: nat)
    requires Targets(nums, index, |paras|) && i < j <= |nums|
    ensures Place(paras, nums, index, next, i).added <= Place(paras, nums, index, next, j).added
    ensures !HasBookmark(paras[index[nums[i]]], RefName(nums[i])) ==>
              Place(paras, nums, index, next, i).added < Place(paras, nums, index, next, j).added
    decreases j
  {
    hide *;
    AddedStep(paras, nums, index, next, j - 1);
    if i < j - 1 { AddedGrows(paras, nums, index, next, i, j - 1); }
  }

  // ----- The whole tool

  function LinkBefore(paras: seq<Tree>, h: nat, avail: set<nat>): (r: seq<Tree>)
    ensures |r| == |paras|
  {
    seq(|paras|, i requires 0 <= i < |paras| => if i < h then LinkTree(paras[i], avail) else paras[i])
  }

  function CountBefore(paras: seq<Tree>, h: nat, want: Want): nat
    requires h <= |paras|
  {
    if h == 0 then 0 else CountBefore(paras, h - 1, want) + Count(paras[h - 1], want)
  }

  datatype Outcome =
    | NoHeadingFound
    | Done(doc: Doc, bookmarksAdded: nat, linksAdded: nat, referenceCount: nat)

  /** The heading's position and the number index; None without a heading. */
  function Plan(rd: Reading, paras: seq<Tree>): Option<(nat, map<nat, nat>)> {
    match Read(rd, Items(Texts(paras), 0))
    case NoHeading => None
    case Bibliography(h, refs) => Some((h, Index(refs)))
  }

  lemma {:induction false} PlanFrom(rd: Reading, paras: seq<Tree>)
    requires Reasonable(rd)
    ensures var h := HeadingFrom(rd, Texts(paras), 0);
            Plan(rd, paras) == if h == |paras| then None else Some((h, Index(Entries(rd, Items(Texts(paras), h + 1)))))
  {
    hide Read, Texts, Items, HeadingFrom, Entries, Index, Reasonable;
    ReadFromTexts(rd, Texts(paras), 0);
  }

  /** Every number points behind the heading, and no two numbers to one paragraph. */
  lemma {:induction false} IndexPlaced(rd: Reading, texts: seq<string>, from: nat)
    requires from <= |texts|
    ensures var index := Index(Entries(rd, Items(texts, from)));
            && (forall n | n in index :: from <= index[n] < |texts|)
            && (forall a, b | a in index && b in index && a != b :: index[a] != index[b])
  {
    var items := Items(texts, from);
    ItemsPlaced(texts, from);
    EntriesNumbered(rd, items);
    var refs := Entries(rd, items);
    IndexInjective(refs);
    var index := Index(refs);
    forall n | n in index ensures from <= index[n] < |texts| {
      var k :| 0 <= k < |refs| && refs[k].num == n && refs[k].paraIdx == index[n];
      assert From(items, refs[k]);
    }
  }

  lemma {:induction false} PlanTargets(rd: Reading, paras: seq<Tree>)
    requires Reasonable(rd) && Plan(rd, paras).Some?
    ensures var (h, index) := Plan(rd, paras).value;
            && h < |paras|
            && (forall n | n in index :: h < index[n] < |paras|)
            && Targets(Sorted(index.Keys), index, |paras|)
  {
    hide *;
    PlanFrom(rd, paras);
    var h := HeadingFrom(rd, Texts(paras), 0);
    IndexPlaced(rd, Texts(paras), h + 1);
    SortedTargets(Index(Entries(rd, Items(Texts(paras), h + 1))), |paras|);
  }

  lemma {:induction false} SortedTargets(index: map<nat, nat>, n: nat)
    requires forall a | a in index :: index[a] < n
    requires forall a, b | a in index && b in index && a != b :: index[a] != index[b]
    ensures Targets(Sorted(index.Keys), index, n)
  {
    var nums := Sorted(index.Keys);
    SortedUp(index.Keys);
    forall j | 0 <= j < |nums| ensures nums[j] in index {
      assert nums[j] in nums;
    }
  }

  function CrossReference(rd: Reading, doc: Doc): (r: Outcome)
    requires Reasonable(rd)
    ensures r.Done? <==> Plan(rd, doc.paras).Some?
  {
    match Plan(rd, doc.paras)
    case None => NoHeadingFound
    case Some((h, index)) =>
      PlanTargets(rd, doc.paras);
      var nums := Sorted(index.Keys);
      var placed := Place(doc.paras, nums, index, NextId(doc), |nums|);
      Done(doc.(paras := LinkBefore(placed.paras, h, index.Keys)), placed.added,
           CountBefore(placed.paras, h, Available(index.Keys)), |index|)
  }
}
