/** Which paragraphs behind the heading form one entry, and which number it gets. */
module ReferenceEntries {
  import opened PyText
  import opened CitationNumbers
  import opened References

  // ----- The entries, without the loop's variables

  function TextAt(items: seq<Item>, i: nat): string
    requires i < |items|
  {
    Strip(items[i].text)
  }

  /** The non-blank paragraphs from `a` to before `i`, stripped and joined by single spaces. */
  function JoinedText(items: seq<Item>, a: nat, i: nat): string
    requires a <= i <= |items|
  {
    if a == i then ""
    else
      var front, text := JoinedText(items, a, i - 1), TextAt(items, i - 1);
      if text == "" then front else if front == "" then text else front + " " + text
  }

  /** Paragraph i opens an entry: it is not blank, and it has a written number, or no entry is open, or the text of the
      open one is complete. */
  predicate Opens(rd: Reading, items: seq<Item>, i: nat)
    requires i < |items|
    decreases i, 1
  {
    var before := LastOpener(rd, items, i);
    || rd.number(TextAt(items, i)).Some?
    || (TextAt(items, i) != "" && (before.None? || rd.complete(JoinedText(items, before.value, i))))
  }

  /** The last paragraph before `i` that opens an entry. */
  function LastOpener(rd: Reading, items: seq<Item>, i: nat): (r: Option<nat>)
    requires i <= |items|
    ensures r.Some? ==> r.value < i
    decreases i, 0
  {
    if i == 0 then None else if Opens(rd, items, i - 1) then Some(i - 1) else LastOpener(rd, items, i - 1)
  }

  /** The paragraphs before `i` that open an entry. */
  function Openers(rd: Reading, items: seq<Item>, i: nat): (r: seq<nat>)
    requires i <= |items|
    ensures forall k | 0 <= k < |r| :: r[k] < i
  {
    if i == 0 then [] else Openers(rd, items, i - 1) + if Opens(rd, items, i - 1) then [i - 1] else []
  }

  /** The largest of the numbers; 0 if there are none. */
  function TopNum(es: seq<Ref>): (m: nat)
    ensures forall k | 0 <= k < |es| :: es[k].num <= m
    ensures es != [] ==> m == 0 || exists k | 0 <= k < |es| :: es[k].num == m
  {
    if es == [] then 0
    else
      var m, n := TopNum(es[..|es| - 1]), es[|es| - 1].num;
      if n > m then n else m
  }

  /** The number of an entry that paragraph i opens behind the entries `es`. */
  function NumberAt(rd: Reading, items: seq<Item>, i: nat, es: seq<Ref>): nat
    requires i < |items|
  {
    match rd.number(TextAt(items, i)) case Some(n) => n case None => TopNum(es) + 1
  }

  /** The last of the entries is the one that paragraph `a` opened, with all text up to before `i`. */
  ghost predicate LastFrom(items: seq<Item>, i: nat, a: nat, es: seq<Ref>)
    requires a < i <= |items|
  {
    es != [] && es[|es| - 1].paraIdx == items[a].idx && es[|es| - 1].text == JoinedText(items, a, i)
  }

  // ----- The loop agrees

  /** Where the entry that the k-th opener opens ends. */
  function EndOf(rd: Reading, items: seq<Item>, i: nat, k: nat): (r: nat)
    requires i <= |items| && k < |Openers(rd, items, i)|
    ensures r <= |items|
  {
    if k + 1 < |Openers(rd, items, i)| then Openers(rd, items, i)[k + 1] else i
  }

  /** One entry for each opener: where it stands, what it says and which number it has. */
  ghost predicate EntriesAre(rd: Reading, items: seq<Item>, i: nat, es: seq<Ref>)
    requires i <= |items|
  {
    |es| == |Openers(rd, items, i)| && forall k | 0 <= k < |es| :: EntryIs(rd, items, i, k, es)
  }

  ghost predicate EntryIs(rd: Reading, items: seq<Item>, i: nat, k: nat, es: seq<Ref>)
    requires i <= |items| && k < |Openers(rd, items, i)| == |es|
  {
    var start, end := Openers(rd, items, i)[k], EndOf(rd, items, i, k);
    && start < end
    && es[k].paraIdx == items[start].idx
    && es[k].text == JoinedText(items, start, end)
    && es[k].num == NumberAt(rd, items, start, es[..k])
  }

  lemma {:induction false} JoinedSome(items: seq<Item>, a: nat, i: nat)
    requires a < i <= |items| && TextAt(items, a) != ""
    ensures JoinedText(items, a, i) != ""
    decreases i - a
  {
    if a + 1 < i {
      JoinedSome(items, a, i - 1);
    } else {
      assert JoinedText(items, a, a) == "";
    }
  }

  lemma {:induction false} OpenersLast(rd: Reading, items: seq<Item>, i: nat)
    requires i <= |items|
    ensures var starts, last := Openers(rd, items, i), LastOpener(rd, items, i);
            && (last.None? <==> starts == [])
            && (last.Some? ==> starts[|starts| - 1] == last.value)
  {
    hide Opens;
    if i > 0 { OpenersLast(rd, items, i - 1); }
  }

  lemma TopSnoc(es: seq<Ref>, e: Ref)
    ensures TopNum(es + [e]) == if e.num > TopNum(es) then e.num else TopNum(es)
  {
    assert (es + [e])[..|es|] == es;
  }

  lemma {:induction false} TopSame(es: seq<Ref>, es': seq<Ref>)
    requires |es| == |es'| && forall k | 0 <= k < |es| :: es[k].num == es'[k].num
    ensures TopNum(es) == TopNum(es')
    decreases |es|
  {
    if es != [] { TopSame(es[..|es| - 1], es'[..|es| - 1]); }
  }

  /** The state after the first `i` paragraphs. */
  ghost predicate StateIs(rd: Reading, items: seq<Item>, i: nat, st: State)
    requires i <= |items|
  {
    && EntriesAre(rd, items, i, st.All()) && st.next == TopNum(st.All()) + 1
    && (st.current.Some? <==> st.All() != []) && (st.current.None? ==> st.refs == [])
  }

  lemma {:induction false} FoldIs(rd: Reading, items: seq<Item>, i: nat)
    requires rd.number("").None? && i <= |items|
    ensures StateIs(rd, items, i, Fold(rd, items[..i]))
  {
    hide StateIs, Step;
    if i == 0 {
      StartIs(rd, items);
    } else {
      FoldIs(rd, items, i - 1);
      assert items[..i][..i - 1] == items[..i - 1] && items[..i][i - 1] == items[i - 1];
      StepIs(rd, items, i - 1, Fold(rd, items[..i - 1]));
    }
  }

  lemma StartIs(rd: Reading, items: seq<Item>)
    ensures StateIs(rd, items, 0, State([], None, 1))
  {
    assert State([], None, 1).All() == [];
  }

  /** What a paragraph makes of the entries before it. */
  lemma StepIs(rd: Reading, items: seq<Item>, i: nat, st: State)
    requires rd.number("").None? && i < |items| && StateIs(rd, items, i, st)
    ensures StateIs(rd, items, i + 1, Step(rd, st, items[i]))
  {
    hide Opens, EntryIs, TopNum;
    var es, text, st' := st.All(), TextAt(items, i), Step(rd, st, items[i]);
    OpenersLast(rd, items, i);
    OpensExactly(rd, items, i, st);
    if Opens(rd, items, i) {
      var e := Ref(NumberAt(rd, items, i, es), items[i].idx, text);
      assert st'.All() == es + [e];
      TopSnoc(es, e);
      OpenedIs(rd, items, i, es, e);
    } else if text == "" {
      assert st' == st;
      ExtendedIs(rd, items, i, es, es);
    } else {
      var e := st.current.value;
      var e' := e.(text := e.text + " " + text);
      assert es == st.refs + [e] && st'.All() == st.refs + [e'];
      TopSame(es, st'.All());
      ExtendedIs(rd, items, i, es, st'.All());
    }
  }

  /** The branch the loop takes is the one the paragraphs ask for. */
  lemma OpensExactly(rd: Reading, items: seq<Item>, i: nat, st: State)
    requires i < |items| && StateIs(rd, items, i, st)
    ensures Opens(rd, items, i) <==>
              || rd.number(TextAt(items, i)).Some?
              || (TextAt(items, i) != "" && (st.current.None? || rd.complete(st.current.value.text)))
  {
    hide Opens, TopNum, JoinedText;
    OpenersLast(rd, items, i);
    var es, starts := st.All(), Openers(rd, items, i);
    if st.current.Some? {
      assert es[|es| - 1] == st.current.value;
      assert EntryIs(rd, items, i, |es| - 1, es);
    }
    OpensIs(rd, items, i);
  }

  lemma OpensIs(rd: Reading, items: seq<Item>, i: nat)
    requires i < |items|
    ensures var before := LastOpener(rd, items, i);
            Opens(rd, items, i) <==>
              || rd.number(TextAt(items, i)).Some?
              || (TextAt(items, i) != "" && (before.None? || rd.complete(JoinedText(items, before.value, i))))
  {
  }

  lemma OpenedIs(rd: Reading, items: seq<Item>, i: nat, es: seq<Ref>, e: Ref)
    requires rd.number("").None? && i < |items| && EntriesAre(rd, items, i, es) && Opens(rd, items, i)
    requires e == Ref(NumberAt(rd, items, i, es), items[i].idx, TextAt(items, i))
    ensures EntriesAre(rd, items, i + 1, es + [e])
  {
    hide Opens, NumberAt, EntryIs, JoinedText;
    var starts, all, n := Openers(rd, items, i), es + [e], i + 1;
    assert Openers(rd, items, n) == starts + [i];
    forall k | 0 <= k < |es| ensures EntryIs(rd, items, n, k, all) { EntryStays(rd, items, i, k, es, e); }
    NewEntry(rd, items, i, es, e);
  }

  lemma EntryStays(rd: Reading, items: seq<Item>, i: nat, k: nat, es: seq<Ref>, e: Ref)
    requires i < |items| && Opens(rd, items, i) && k < |Openers(rd, items, i)| == |es| && EntryIs(rd, items, i, k, es)
    ensures Openers(rd, items, i + 1) == Openers(rd, items, i) + [i]
    ensures EntryIs(rd, items, i + 1, k, es + [e])
  {
    hide Opens, NumberAt, JoinedText;
    assert (es + [e])[..k] == es[..k] && EndOf(rd, items, i + 1, k) == EndOf(rd, items, i, k);
  }

  lemma NewEntry(rd: Reading, items: seq<Item>, i: nat, es: seq<Ref>, e: Ref)
    requires rd.number("").None? && i < |items| && Opens(rd, items, i) && |Openers(rd, items, i)| == |es|
    requires e == Ref(NumberAt(rd, items, i, es), items[i].idx, TextAt(items, i))
    ensures Openers(rd, items, i + 1) == Openers(rd, items, i) + [i]
    ensures EntryIs(rd, items, i + 1, |es|, es + [e])
  {
    hide Opens, NumberAt;
    assert (es + [e])[..|es|] == es && JoinedText(items, i, i) == "";
  }

  /** A paragraph that opens no entry: blank, or added to the text of the last one. */
  lemma ExtendedIs(rd: Reading, items: seq<Item>, i: nat, es: seq<Ref>, es': seq<Ref>)
    requires i < |items| && EntriesAre(rd, items, i, es) && !Opens(rd, items, i) && |es'| == |es|
    requires forall k | 0 <= k < |es| :: es'[k].num == es[k].num && es'[k].paraIdx == es[k].paraIdx
    requires forall k | 0 <= k < |es| - 1 :: es'[k] == es[k]
    requires var text := TextAt(items, i);
             if text == "" then es' == es
             else es != [] && es'[|es| - 1].text == es[|es| - 1].text + " " + text
    requires rd.number("").None?
    ensures EntriesAre(rd, items, i + 1, es')
  {
    hide Opens;
    var starts, n := Openers(rd, items, i), i + 1;
    assert Openers(rd, items, n) == starts + [] == starts;
    forall k | 0 <= k < |es| ensures EntryIs(rd, items, n, k, es') {
      assert EntryIs(rd, items, i, k, es);
      TopSame(es[..k], es'[..k]);
      if k + 1 == |es| {
        OpenerShows(rd, items, i, k);
        JoinedSome(items, starts[k], i);
      }
    }
  }

  /** An opener is not blank. */
  lemma {:induction false} OpenerShows(rd: Reading, items: seq<Item>, i: nat, k: nat)
    requires i <= |items| && k < |Openers(rd, items, i)| && rd.number("").None?
    ensures TextAt(items, Openers(rd, items, i)[k]) != ""
  {
    if k < |Openers(rd, items, i - 1)| { OpenerShows(rd, items, i - 1, k); }
  }

  // ----- What the reader finds

  /** The entries, exactly: one for every paragraph that opens one, with the stripped non-blank paragraphs up to the next
      opener joined by spaces, and its written number, or the number after the largest before it. */
  lemma {:induction false} EntriesExactly(rd: Reading, items: seq<Item>)
    requires Reasonable(rd)
    ensures EntriesAre(rd, items, |items|, Entries(rd, items))
  {
    hide EntriesAre;
    FoldIs(rd, items, |items|);
    assert items[..|items|] == items;
  }

  lemma {:induction false} OpenersAre(rd: Reading, items: seq<Item>, n: nat, i: nat)
    requires i < n <= |items|
    ensures i in Openers(rd, items, n) <==> Opens(rd, items, i)
    decreases n
  {
    hide Opens;
    if i < n - 1 {
      OpenersAre(rd, items, n - 1, i);
    } else {
      assert i !in Openers(rd, items, n - 1);
    }
  }

  /** Which paragraphs open an entry: those with a written number, the first that is not blank, and those behind an entry
      whose text so far is complete. */
  lemma {:induction false} OpenedExactly(rd: Reading, items: seq<Item>, i: nat)
    requires Reasonable(rd) && Increasing(items) && i < |items|
    ensures (exists k | 0 <= k < |Entries(rd, items)| :: Entries(rd, items)[k].paraIdx == items[i].idx) <==>
              var before := Entries(rd, items[..i]);
              || rd.number(TextAt(items, i)).Some?
              || (TextAt(items, i) != "" && (before == [] || rd.complete(before[|before| - 1].text)))
  {
    hide Opens, JoinedText, NumberAt, Entries;
    EntriesExactly(rd, items);
    OpenersAre(rd, items, |items|, i);
    var es, starts := Entries(rd, items), Openers(rd, items, |items|);
    if k :| 0 <= k < |es| && es[k].paraIdx == items[i].idx {
      assert EntryIs(rd, items, |items|, k, es);
      SamePlace(items, starts[k], i);
    }
    if i in starts {
      var k :| 0 <= k < |starts| && starts[k] == i;
      assert EntryIs(rd, items, |items|, k, es);
      assert es[k].paraIdx == items[i].idx;
    }
    OpensByEntries(rd, items, i);
  }

  lemma SamePlace(items: seq<Item>, i: nat, j: nat)
    requires Increasing(items) && i < |items| && j < |items| && items[i].idx == items[j].idx
    ensures i == j
  {
  }

  lemma OpensByEntries(rd: Reading, items: seq<Item>, i: nat)
    requires rd.number("").None? && i < |items|
    ensures var before := Entries(rd, items[..i]);
            Opens(rd, items, i) <==>
              || rd.number(TextAt(items, i)).Some?
              || (TextAt(items, i) != "" && (before == [] || rd.complete(before[|before| - 1].text)))
  {
    hide Opens, EntriesAre, TopNum, Fold;
    FoldIs(rd, items, i);
    OpensExactly(rd, items, i, Fold(rd, items[..i]));
  }

  /** An entry that a written number opens carries that number; any other the one after the largest so far. */
  lemma {:induction false} NumbersExactly(rd: Reading, items: seq<Item>, k: nat, i: nat)
    requires Reasonable(rd) && Increasing(items) && k < |Entries(rd, items)| && i < |items|
    requires Entries(rd, items)[k].paraIdx == items[i].idx
    ensures var es := Entries(rd, items);
            es[k].num == match rd.number(TextAt(items, i)) case Some(n) => n case None => TopNum(es[..k]) + 1
  {
    hide Opens, JoinedText, Entries, TopNum;
    EntriesExactly(rd, items);
    assert EntryIs(rd, items, |items|, k, Entries(rd, items));
    SamePlace(items, Openers(rd, items, |items|)[k], i);
  }

  ghost predicate Single(rd: Reading, items: seq<Item>) {
    forall i | 0 <= i < |items| ::
      rd.number(TextAt(items, i)).None? && (TextAt(items, i) != "" ==> rd.complete(TextAt(items, i)))
  }

  /** The entries have these texts and the numbers 1, 2, 3 and so on. */
  ghost predicate Listed(es: seq<Ref>, texts: seq<string>) {
    |es| == |texts| && forall k | 0 <= k < |es| :: es[k].num == k + 1 && es[k].text == texts[k]
  }

  /** When no paragraph has a number and every one ends its entry, each that is not blank is an entry of its own. */
  lemma {:induction false} OneEach(rd: Reading, items: seq<Item>)
    requires Reasonable(rd) && Single(rd, items)
    ensures Listed(Entries(rd, items), Stripped(items)) && Fold(rd, items).next == |Stripped(items)| + 1
    decreases |items|
  {
    if items != [] {
      var n := |items| - 1;
      var rest, st := items[..n], Fold(rd, items[..n]);
      SingleFront(rd, items);
      OneEach(rd, rest);
      LastComplete(rd, rest);
      assert TextAt(items, n) == Strip(items[n].text);
      hide Strip, Listed, Single, Step;
      OneMore(rd, st, items[n]);
      ListedSnoc(st.All(), Stripped(rest), Ref(st.next, items[n].idx, Strip(items[n].text)));
      assert Stripped(rest) + [] == Stripped(rest);
    }
  }

  lemma SingleFront(rd: Reading, items: seq<Item>)
    requires items != [] && Single(rd, items)
    ensures Single(rd, items[..|items| - 1])
    ensures rd.number(TextAt(items, |items| - 1)).None?
  {
    var rest := items[..|items| - 1];
    assert forall i | 0 <= i < |rest| :: TextAt(rest, i) == TextAt(items, i);
  }

  lemma ListedSnoc(es: seq<Ref>, texts: seq<string>, e: Ref)
    requires Listed(es, texts) && e.num == |es| + 1
    ensures Listed(es + [e], texts + [e.text])
  {
  }

  /** The open entry is complete. */
  lemma LastComplete(rd: Reading, items: seq<Item>)
    requires Reasonable(rd) && Single(rd, items) && Listed(Entries(rd, items), Stripped(items))
    ensures var st := Fold(rd, items);
            && (st.current.Some? <==> st.All() != []) && (st.current.None? ==> st.refs == [])
            && (st.current.Some? ==> rd.complete(st.current.value.text))
  {
    hide Strip, Stripped, Fold, EntriesAre, TopNum;
    var st, n := Fold(rd, items), |items|;
    FoldIs(rd, items, n);
    assert items[..n] == items;
    if st.current.Some? {
      var k := |st.All()| - 1;
      assert st.All()[k] == st.current.value;
      var i := StrippedFrom(items, k);
      assert TextAt(items, i) == st.current.value.text;
    }
  }

  /** A paragraph without a number behind complete entries. */
  lemma OneMore(rd: Reading, st: State, item: Item)
    requires (st.current.Some? <==> st.All() != []) && (st.current.None? ==> st.refs == [])
    requires st.current.Some? ==> rd.complete(st.current.value.text)
    requires rd.number(Strip(item.text)).None?
    ensures var st', text := Step(rd, st, item), Strip(item.text);
            && st'.All() == st.All() + (if text == "" then [] else [Ref(st.next, item.idx, text)])
            && st'.next == st.next + if text == "" then 0 else 1
  {
    hide Strip;
    assert st.All() + [] == st.All();
  }

  lemma {:induction false} StrippedFrom(items: seq<Item>, k: nat) returns (i: nat)
    requires k < |Stripped(items)|
    ensures i < |items| && TextAt(items, i) == Stripped(items)[k] != ""
    decreases |items|
  {
    hide Strip;
    var n := |items| - 1;
    if k < |Stripped(items[..n])| {
      i := StrippedFrom(items[..n], k);
      assert items[..n][i] == items[i];
    } else {
      i := n;
    }
  }

  // ----- Written numbers

  /** The text starts with these digits, in brackets or with a dot or a bracket behind them, and goes on. */
  predicate Labelled(text: string, digits: string, rest: string) {
    && digits != "" && AllDigits(digits) && rest != ""
    && (text == "[" + digits + "]" + rest || text == digits + "." + rest || text == digits + ")" + rest)
  }

  lemma LabelFound(text: string, digits: string, rest: string)
    requires Labelled(text, digits, rest)
    ensures Label(text) == Some(Val(digits))
  {
    if text == "[" + digits + "]" + rest {
      assert text[1..] == digits + ("]" + rest);
      DigitPrefixIs(digits, "]" + rest);
      assert text[1..][..|digits|] == digits;
    } else {
      var end := text[|digits|..];
      assert text == digits + end && text[..|digits|] == digits;
      DigitPrefixIs(digits, end);
    }
  }

  /** Which texts have a written number, and which one. */
  lemma {:induction false} LabelExactly(text: string, n: nat)
    ensures Label(text) == Some(n) <==> exists digits, rest :: Labelled(text, digits, rest) && Val(digits) == n
  {
    hide Val;
    if Label(text) == Some(n) {
      if text[0] == '[' {
        var k := DigitPrefix(text[1..]);
        var digits, rest := text[1..][..k], text[k + 2..];
        assert text == "[" + digits + "]" + rest;
        assert Labelled(text, digits, rest);
      } else {
        var k := DigitPrefix(text);
        var digits, rest := text[..k], text[k + 1..];
        assert text == digits + [text[k]] + rest;
        assert Labelled(text, digits, rest);
      }
    }
    if digits, rest :| Labelled(text, digits, rest) && Val(digits) == n { LabelFound(text, digits, rest); }
  }
}
