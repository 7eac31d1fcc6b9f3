/** The bibliography reader: where the reference list starts, which paragraphs form one
    entry, and which number each entry gets. */
module References {
  import opened PyText

  /** A non-empty paragraph: its position in the document and its text. */
  datatype Item = Item(idx: nat, text: string)

  datatype Ref = Ref(num: nat, paraIdx: nat, text: string)

  predicate IsHeading(text: string) {
    Lower(Strip(text)) == "references" || Lower(Strip(text)) == "bibliography"
  }

  /** The number written in front of an entry, as in `[12] ...`, `12. ...` or `12) ...`. */
  function Label(text: string): Option<nat> {
    if text != "" && text[0] == '[' then
      var n := DigitPrefix(text[1..]);
      if n > 0 && n + 2 < |text| && text[n + 1] == ']' then Some(Val(text[1..][..n])) else None
    else
      var n := DigitPrefix(text);
      if n > 0 && n + 1 < |text| && (text[n] == '.' || text[n] == ')') then Some(Val(text[..n])) else None
  }

  /** An entry that is not continued by an unlabelled paragraph. */
  predicate LooksComplete(text: string) {
    Contains(text, "https://doi.org/") || Contains(text, "arXiv:") || EndsWith(RStrip(text), ".")
  }

  /** How a paragraph is read: whether it is the heading of the list, the number written
      in front of it, and whether an entry that ends like this is finished. What follows
      holds for any reasonable reading; `Standard` is the one the tool uses. */
  datatype Reading = Reading(heading: string -> bool, number: string -> Option<nat>, complete: string -> bool)

  function Standard(): Reading { Reading(t => IsHeading(t), t => Label(t), t => LooksComplete(t)) }

  /** A blank paragraph is no heading and has no number, and a heading shows no bracket. */
  ghost predicate Reasonable(rd: Reading) {
    && (forall t | Blank(t) :: !rd.heading(t))
    && (forall t: string | '[' in t :: !rd.heading(t))
    && rd.number("").None?
  }

  lemma {:induction false} StandardIsReasonable()
    ensures Reasonable(Standard())
  {
    assert Lower("") == "";
    forall t: string | '[' in t ensures !IsHeading(t) { HeadingHasNoBracket(t); }
  }

  /** The loop's variables: finished entries, the open entry and the next free number. */
  datatype State = State(refs: seq<Ref>, current: Option<Ref>, next: nat) {
    function All(): seq<Ref> { refs + if current.Some? then [current.value] else [] }
  }

  function Step(rd: Reading, st: State, item: Item): State {
    var text := Strip(item.text);
    if rd.number(text).Some? then
      var num := rd.number(text).value;
      State(st.All(), Some(Ref(num, item.idx, text)), if st.next < num + 1 then num + 1 else st.next)
    else if text == "" then st
    else if st.current.Some? && !rd.complete(st.current.value.text) then
      st.(current := Some(st.current.value.(text := st.current.value.text + " " + text)))
    else
      State(st.All(), Some(Ref(st.next, item.idx, text)), st.next + 1)
  }

  function Fold(rd: Reading, items: seq<Item>): State {
    if items == [] then State([], None, 1)
    else Step(rd, Fold(rd, items[..|items| - 1]), items[|items| - 1])
  }

  function Entries(rd: Reading, items: seq<Item>): seq<Ref> { Fold(rd, items).All() }

  /** The position of the first heading; |items| if there is none. */
  function HeadingAt(rd: Reading, items: seq<Item>): (k: nat)
    ensures k <= |items| && (k < |items| ==> rd.heading(items[k].text))
  {
    if items == [] || rd.heading(items[0].text) then 0 else 1 + HeadingAt(rd, items[1..])
  }

  datatype Bibliography = NoHeading | Bibliography(heading: nat, refs: seq<Ref>)

  function Read(rd: Reading, items: seq<Item>): Bibliography {
    var k := HeadingAt(rd, items);
    if k == |items| then NoHeading
    else Bibliography(items[k].idx, Entries(rd, items[k + 1..]))
  }

  method FindHeading(rd: Reading, items: seq<Item>) returns (start: nat)
    ensures start == HeadingAt(rd, items)
  {
    start := 0;
    assert items[0..] == items;
    while start < |items| && !rd.heading(items[start].text)
      invariant start <= |items|
      invariant HeadingAt(rd, items) == start + HeadingAt(rd, items[start..])
    {
      assert items[start..][1..] == items[start + 1..];
      start := start + 1;
    }
  }

  method FindReferences(rd: Reading, items: seq<Item>) returns (r: Bibliography)
    ensures r == Read(rd, items)
  {
    var start := FindHeading(rd, items);
    if start == |items| {
      return NoHeading;
    }
    var refs := CollectEntries(rd, items[start + 1..]);
    r := Bibliography(items[start].idx, refs);
  }

  method CollectEntries(rd: Reading, items: seq<Item>) returns (refs: seq<Ref>)
    ensures refs == Entries(rd, items)
  {
    refs := [];
    var current: Option<Ref> := None;
    var sequential := 1;
    for i := 0 to |items|
      invariant State(refs, current, sequential) == Fold(rd, items[..i])
    {
      var item := items[i];
      var text := Strip(item.text);
      var written := rd.number(text);
      assert items[..i + 1][..i] == items[..i];
      if written.Some? {
        if current.Some? { refs := refs + [current.value]; }
        current := Some(Ref(written.value, item.idx, text));
        sequential := if sequential < written.value + 1 then written.value + 1 else sequential;
      } else if current.None? && text != "" {
        current := Some(Ref(sequential, item.idx, text));
        sequential := sequential + 1;
      } else if current.Some? && text != "" && !rd.complete(current.value.text) {
        current := Some(current.value.(text := current.value.text + " " + text));
      } else if current.Some? && text != "" {
        refs := refs + [current.value];
        current := Some(Ref(sequential, item.idx, text));
        sequential := sequential + 1;
      }
    }
    assert items[..|items|] == items;
    if current.Some? { refs := refs + [current.value]; }
  }

  // ----- Conservation of text

  /** Texts, each followed by one space. */
  function Spaced(texts: seq<string>): string {
    if texts == [] then "" else Spaced(texts[..|texts| - 1]) + texts[|texts| - 1] + " "
  }

  function RefTexts(refs: seq<Ref>): seq<string> { seq(|refs|, i requires 0 <= i < |refs| => refs[i].text) }

  /** The stripped texts of the items that are not blank. */
  function Stripped(items: seq<Item>): seq<string> {
    if items == [] then []
    else
      var text := Strip(items[|items| - 1].text);
      Stripped(items[..|items| - 1]) + if text == "" then [] else [text]
  }

  /** The entries carry exactly the text of the paragraphs after the heading, in order
      and separated by single spaces. */
  lemma {:induction false} TextConserved(rd: Reading, items: seq<Item>)
    requires Reasonable(rd)
    ensures Spaced(RefTexts(Entries(rd, items))) == Spaced(Stripped(items))
    decreases |items|
  {
    if items != [] {
      var rest, item := items[..|items| - 1], items[|items| - 1];
      TextConserved(rd, rest);
      StepConserves(rd, Fold(rd, rest), item);
      StrippedLast(items);
    }
  }

  lemma {:induction false} StrippedLast(items: seq<Item>)
    requires items != []
    ensures var text := Strip(items[|items| - 1].text);
            Spaced(Stripped(items)) == Spaced(Stripped(items[..|items| - 1])) + if text == "" then "" else text + " "
  {
    var before, text := Stripped(items[..|items| - 1]), Strip(items[|items| - 1].text);
    SpacedSnoc(before, text);
    assert before + [] == before;
    assert Spaced(before) + "" == Spaced(before);
    assert Spaced(before) + (text + " ") == Spaced(before) + text + " ";
  }

  lemma {:induction false} StepConserves(rd: Reading, st: State, item: Item)
    requires rd.number("").None?
    ensures var text := Strip(item.text);
            Spaced(RefTexts(Step(rd, st, item).All()))
              == Spaced(RefTexts(st.All())) + if text == "" then "" else text + " "
  {
    var st', text := Step(rd, st, item), Strip(item.text);
    if st'.refs == st.refs && st'.current != st.current {
      AllSnoc(st);
      AllSnoc(st');
      if st.current.Some? { SpaceLast(Spaced(RefTexts(st.refs)), st.current.value.text, text); }
    } else if st' != st {
      AllSnoc(st');
    }
  }

  lemma {:induction false} SpaceLast(a: string, b: string, c: string)
    ensures a + (b + " " + c) + " " == a + b + " " + c + " "
  {
  }

  /** The open entry is written last. */
  lemma {:induction false} AllSnoc(st: State)
    ensures st.current.Some? ==>
              Spaced(RefTexts(st.All())) == Spaced(RefTexts(st.refs)) + st.current.value.text + " "
    ensures st.current.None? ==> st.All() == st.refs
  {
    if st.current.Some? {
      SpacedSnoc(RefTexts(st.refs), st.current.value.text);
      assert RefTexts(st.All()) == RefTexts(st.refs) + [st.current.value.text];
    }
  }

  lemma {:induction false} SpacedSnoc(texts: seq<string>, text: string)
    ensures Spaced(texts + [text]) == Spaced(texts) + text + " "
  {
    assert (texts + [text])[..|texts|] == texts;
  }

  // ----- Positions and numbers

  ghost predicate Increasing(items: seq<Item>) {
    forall i, j | 0 <= i < j < |items| :: items[i].idx < items[j].idx
  }

  /** The paragraph that opens the entry has no number of its own. */
  ghost predicate Unlabelled(rd: Reading, items: seq<Item>, e: Ref) {
    exists i | 0 <= i < |items| :: items[i].idx == e.paraIdx && rd.number(Strip(items[i].text)).None?
  }

  ghost predicate From(items: seq<Item>, e: Ref) {
    exists i | 0 <= i < |items| :: items[i].idx == e.paraIdx
  }

  ghost predicate Numbered(rd: Reading, items: seq<Item>, es: seq<Ref>) {
    && (forall k | 0 <= k < |es| :: From(items, es[k]))
    && (forall j, k | 0 <= j < k < |es| :: es[j].paraIdx < es[k].paraIdx)
    && (forall j, k | 0 <= j < k < |es| && Unlabelled(rd, items, es[k]) :: es[j].num < es[k].num)
  }

  /** Positions and numbers of entries; the texts do not matter. */
  ghost predicate SamePlaces(a: seq<Ref>, b: seq<Ref>) {
    |a| == |b| && forall k | 0 <= k < |a| :: a[k].num == b[k].num && a[k].paraIdx == b[k].paraIdx
  }

  lemma {:induction false} NextAboveAll(rd: Reading, items: seq<Item>)
    ensures forall k | 0 <= k < |Entries(rd, items)| :: Entries(rd, items)[k].num < Fold(rd, items).next
    decreases |items|
  {
    if items != [] {
      var rest, item := items[..|items| - 1], items[|items| - 1];
      NextAboveAll(rd, rest);
      StepPlaces(rd, Fold(rd, rest), item);
      var es, es' := Entries(rd, rest), Entries(rd, items);
      assert es' == Step(rd, Fold(rd, rest), item).All();
      if SamePlaces(es, es') {
        assert forall k | 0 <= k < |es'| :: es'[k].num == es[k].num;
      }
    }
  }

  /** What one paragraph does to the list of entries: nothing to their places, or one
      more entry at its own position. */
  lemma {:induction false} StepPlaces(rd: Reading, st: State, item: Item)
    ensures var es, es' := st.All(), Step(rd, st, item).All();
            || SamePlaces(es, es')
            || exists e :: es' == es + [e] && e.paraIdx == item.idx
                 && (rd.number(Strip(item.text)).None? ==> e.num == st.next)
                 && e.num < Step(rd, st, item).next
    ensures st.next <= Step(rd, st, item).next
  {
    var es, st' := st.All(), Step(rd, st, item);
    if st'.current.Some? && st'.refs == es {
      assert st'.All() == es + [st'.current.value];
    }
  }

  lemma {:induction false} FoldNumbered(rd: Reading, items: seq<Item>)
    requires Increasing(items)
    ensures Numbered(rd, items, Entries(rd, items))
    decreases |items|
  {
    if items != [] {
      var rest, item := items[..|items| - 1], items[|items| - 1];
      FoldNumbered(rd, rest);
      NextAboveAll(rd, rest);
      StepPlaces(rd, Fold(rd, rest), item);
      var es, es' := Entries(rd, rest), Entries(rd, items);
      NumberedLater(rd, items, es);
      if SamePlaces(es, es') {
        NumberedAlike(rd, items, es, es');
      } else {
        var e :| es' == es + [e] && e.paraIdx == item.idx
                  && (rd.number(Strip(item.text)).None? ==> e.num == Fold(rd, rest).next);
        NumberedSnoc(rd, items, es, e);
      }
    }
  }

  lemma {:induction false} NumberedAlike(rd: Reading, items: seq<Item>, es: seq<Ref>, es': seq<Ref>)
    requires Numbered(rd, items, es) && SamePlaces(es, es')
    ensures Numbered(rd, items, es')
  {
    forall k | 0 <= k < |es|
      ensures From(items, es'[k]) && (Unlabelled(rd, items, es'[k]) ==> Unlabelled(rd, items, es[k]))
    {
      assert From(items, es[k]);
    }
  }

  /** A later paragraph does not change what is known of the earlier entries. */
  lemma {:induction false} NumberedLater(rd: Reading, items: seq<Item>, es: seq<Ref>)
    requires items != [] && Increasing(items) && Numbered(rd, items[..|items| - 1], es)
    ensures Numbered(rd, items, es)
    ensures forall k | 0 <= k < |es| :: es[k].paraIdx < items[|items| - 1].idx
  {
    var rest := items[..|items| - 1];
    forall k | 0 <= k < |es|
      ensures From(items, es[k]) && es[k].paraIdx < items[|items| - 1].idx
      ensures Unlabelled(rd, items, es[k]) ==> Unlabelled(rd, rest, es[k])
    {
      assert From(rest, es[k]);
      var i :| 0 <= i < |rest| && rest[i].idx == es[k].paraIdx;
      assert items[i] == rest[i];
    }
  }

  lemma {:induction false} NumberedSnoc(rd: Reading, items: seq<Item>, es: seq<Ref>, e: Ref)
    requires items != [] && Increasing(items) && Numbered(rd, items, es)
    requires e.paraIdx == items[|items| - 1].idx
    requires forall k | 0 <= k < |es| :: es[k].paraIdx < e.paraIdx
    requires rd.number(Strip(items[|items| - 1].text)).None? ==> forall k | 0 <= k < |es| :: es[k].num < e.num
    ensures Numbered(rd, items, es + [e])
  {
    assert items[|items| - 1].idx == e.paraIdx;
    assert Unlabelled(rd, items, e) ==> rd.number(Strip(items[|items| - 1].text)).None?;
  }

  /** The entries stand at strictly increasing positions after the heading, and an
      automatically numbered entry never reuses an earlier number. */
  lemma {:induction false} EntriesNumbered(rd: Reading, items: seq<Item>)
    requires Increasing(items)
    ensures var es := Entries(rd, items);
            && (forall k | 0 <= k < |es| :: From(items, es[k]))
            && (forall j, k | 0 <= j < k < |es| :: es[j].paraIdx < es[k].paraIdx)
            && (forall j, k | 0 <= j < k < |es| && Unlabelled(rd, items, es[k]) :: es[j].num < es[k].num)
  {
    FoldNumbered(rd, items);
  }

  /** Without written labels the entries are numbered 1, 2, 3 and so on. */
  lemma {:induction false} AutomaticNumbers(rd: Reading, items: seq<Item>)
    requires forall i | 0 <= i < |items| :: rd.number(Strip(items[i].text)).None?
    ensures var es := Entries(rd, items);
            Fold(rd, items).next == |es| + 1 && forall k | 0 <= k < |es| :: es[k].num == k + 1
    decreases |items|
  {
    if items != [] {
      var rest, item := items[..|items| - 1], items[|items| - 1];
      assert forall i | 0 <= i < |rest| :: rest[i] == items[i];
      AutomaticNumbers(rd, rest);
      StepPlaces(rd, Fold(rd, rest), item);
    }
  }

  // ----- The number index

  /** Which paragraph each number points to; of two entries with one number the later wins. */
  function Index(refs: seq<Ref>): (m: map<nat, nat>)
    ensures forall n | n in m :: exists k | 0 <= k < |refs| :: refs[k].num == n && refs[k].paraIdx == m[n]
    ensures forall k | 0 <= k < |refs| :: refs[k].num in m
  {
    if refs == [] then map[]
    else Index(refs[..|refs| - 1])[refs[|refs| - 1].num := refs[|refs| - 1].paraIdx]
  }

  /** Different numbers point to different paragraphs. */
  lemma {:induction false} IndexInjective(refs: seq<Ref>)
    requires forall j, k | 0 <= j < k < |refs| :: refs[j].paraIdx < refs[k].paraIdx
    ensures var m := Index(refs);
            forall a, b | a in m && b in m && m[a] == m[b] :: a == b
  {
    var m := Index(refs);
    forall a, b | a in m && b in m && m[a] == m[b] ensures a == b {
      var j :| 0 <= j < |refs| && refs[j].num == a && refs[j].paraIdx == m[a];
      var k :| 0 <= k < |refs| && refs[k].num == b && refs[k].paraIdx == m[b];
      assert j == k;
    }
  }

  // ----- Headings

  lemma {:induction false} HeadingHasNoBracket(text: string)
    requires '[' in text
    ensures !IsHeading(text)
  {
    StripKeeps(text, '[');
    var s := Strip(text);
    var i :| 0 <= i < |s| && s[i] == '[';
    assert Lower(s)[i] == '[';
  }
}
