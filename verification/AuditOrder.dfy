/** In which order an audit report's findings come, how many there are, and what their titles say. */
module AuditOrder {
  import opened PyText
  import opened AuditFindings
  import opened AuditEntries

  // ----- Titles

  function TitleSources(a: seq<Member>): seq<Json> {
    [Get(a, "title"), Get(a, "url"), Get(a, "advisory"), Get(a, "source")]
  }

  /** The title an entry of `via` contributes: a text is one itself; `None` when it has none that is true. */
  function TitleVia(item: Json): Option<Json> {
    var t := match item case Object(m, _) => FirstTrue(TitleSources(m)) case Text(s) => item case _ => Null;
    if Truthy(t) then Some(t) else None
  }

  predicate TextTitles(items: seq<Json>) {
    forall k | 0 <= k < |items| && TitleVia(items[k]).Some? :: TitleVia(items[k]).value.Text?
  }

  /** The titles of the entries that have one, in order. */
  function Titles(items: seq<Json>): seq<string>
    requires TextTitles(items)
  {
    if items == [] then []
    else
      assert TextTitles(items[1..]);
      (if TitleVia(items[0]).Some? then [TitleVia(items[0]).value.s] else []) + Titles(items[1..])
  }

  /** `separator.join(parts)`. */
  function Join(separator: string, parts: seq<string>): string {
    if parts == [] then "" else if |parts| == 1 then parts[0] else parts[0] + separator + Join(separator, parts[1..])
  }

  lemma TitleExactly(item: Json)
    ensures TitleVia(item) == if Truthy(ViaTitle(item)) then Some(ViaTitle(item)) else None
  {
    hide Get;
    if item.Object? {
      var v := TitleSources(item.members);
      hide FirstTrue;
      FirstTrueFrom(v, 0);
      FirstTrueFrom(v, 1);
      FirstTrueFrom(v, 2);
      FirstTrueFrom(v, 3);
      assert v[0..] == v;
    }
  }

  lemma JoinableExactly(items: seq<Json>)
    ensures AllJoinable(items) <==> TextTitles(items)
  {
    hide TitleVia, ViaTitle;
    forall k | 0 <= k < |items| ensures Joinable(items[k]) <==> (TitleVia(items[k]).Some? ==> TitleVia(items[k]).value.Text?) {
      TitleExactly(items[k]);
    }
  }

  lemma TextSnoc(items: seq<Json>, item: Json)
    requires TextTitles(items + [item])
    ensures TextTitles(items)
  {
    hide TitleVia;
    assert forall k | 0 <= k < |items| :: (items + [item])[k] == items[k];
  }

  lemma TextRest(items: seq<Json>)
    requires items != [] && TextTitles(items)
    ensures TextTitles(items[1..])
  {
    hide TitleVia;
  }

  lemma {:induction false} TitlesSnoc(items: seq<Json>, item: Json)
    requires TextTitles(items + [item]) && (TitleVia(item).Some? ==> TitleVia(item).value.Text?)
    ensures TextTitles(items)
    ensures Titles(items + [item])
         == Titles(items) + if TitleVia(item).Some? then [TitleVia(item).value.s] else []
    decreases |items|
  {
    hide TitleVia;
    TextSnoc(items, item);
    var all := items + [item];
    if items != [] {
      assert all[1..] == items[1..] + [item];
      TextRest(all);
      TextRest(items);
      hide TextTitles;
      TitlesSnoc(items[1..], item);
    } else {
      assert all == [item] && all[1..] == [];
    }
  }

  lemma {:induction false} JoinSnoc(separator: string, parts: seq<string>, part: string)
    ensures Join(separator, parts + [part]) == if parts == [] then part else Join(separator, parts) + separator + part
    decreases |parts|
  {
    var all := parts + [part];
    if parts != [] {
      assert all[1..] == parts[1..] + [part];
      JoinSnoc(separator, parts[1..], part);
    }
  }

  lemma {:induction false} JoinNone(separator: string, parts: seq<string>)
    requires forall k | 0 <= k < |parts| :: parts[k] != ""
    ensures Join(separator, parts) == "" <==> parts == []
  {
  }

  lemma {:induction false} TitlesTrue(items: seq<Json>)
    requires TextTitles(items)
    ensures forall k | 0 <= k < |Titles(items)| :: Titles(items)[k] != ""
  {
    if items != [] { TitlesTrue(items[1..]); }
  }

  /** The title of a package's findings: those of its entries that have one, joined by semicolons. */
  lemma {:induction false} JoinedExactly(items: seq<Json>)
    requires AllJoinable(items)
    ensures TextTitles(items) && JoinedTitle(items) == Join("; ", Titles(items))
    decreases |items|
  {
    hide TitleVia, ViaTitle, Titles, Join;
    JoinableExactly(items);
    if items == [] {
      NoTitles();
    } else {
      var n := |items| - 1;
      assert Joinable(items[n]);
      assert items[..n] + [items[n]] == items;
      JoinedExactly(items[..n]);
      TitleExactly(items[n]);
      TitlesSnoc(items[..n], items[n]);
      TitlesTrue(items[..n]);
      JoinNone("; ", Titles(items[..n]));
      assert Titles(items[..n]) + [] == Titles(items[..n]);
      if TitleVia(items[n]).Some? { JoinSnoc("; ", Titles(items[..n]), TitleVia(items[n]).value.s); }
    }
  }

  lemma NoTitles()
    ensures Titles([]) == [] && Join("; ", []) == ""
  {
  }

  // ----- Order

  /** The entries of `via` that have an id, by position. */
  ghost function Tellers(items: seq<Json>): seq<nat> {
    if items == [] then []
    else Tellers(items[..|items| - 1]) + if Tells(items[|items| - 1]) then [|items| - 1] else []
  }

  ghost predicate Tells(item: Json) { exists id :: ViaShows(item, id) }

  lemma {:induction false} TellersExactly(items: seq<Json>)
    ensures var ks := Tellers(items);
            && (forall i, j | 0 <= i < j < |ks| :: ks[i] < ks[j])
            && (forall i | 0 <= i < |ks| :: ks[i] < |items|)
            && (forall k | 0 <= k < |items| :: k in ks <==> Tells(items[k]))
    decreases |items|
  {
    hide Tells;
    if items != [] {
      var n := |items| - 1;
      TellersExactly(items[..n]);
      assert forall k | 0 <= k < n :: items[..n][k] == items[k];
    }
  }

  lemma TellsExactly(item: Json)
    ensures Tells(item) <==> Truthy(ViaId(item))
    ensures Tells(item) ==> ViaShows(item, ViaId(item))
  {
    hide ViaId, ViaShows;
    ViaExactly(item, ViaId(item));
    if id :| ViaShows(item, id) { ViaExactly(item, id); }
  }

  /** What the i-th entry of `via` that has an id is a finding of. */
  ghost predicate Tale(f: Finding, m: Member, item: Json)
    requires m.value.Object? && TextTitles(ViaItems(m.value.members))
  {
    && f.name == Text(m.key) && f.severity == Get(m.value.members, "severity") && ViaShows(item, f.advisory)
    && f.title == Text(Join("; ", Titles(ViaItems(m.value.members))))
  }

  lemma {:induction false} ItemsInOrder(name: string, severity: Json, title: string, items: seq<Json>)
    ensures var found, ks := OfItems(name, severity, title, items), Tellers(items);
            && |found| == |ks|
            && forall i | 0 <= i < |ks| ::
                 && ks[i] < |items| && ViaShows(items[ks[i]], found[i].advisory)
                 && found[i] == Finding(Text(name), severity, found[i].advisory, Text(title))
    decreases |items|
  {
    hide Tells, ViaId, ViaShows;
    if items != [] {
      var n := |items| - 1;
      ItemsInOrder(name, severity, title, items[..n]);
      TellsExactly(items[n]);
      assert forall k | 0 <= k < n :: items[..n][k] == items[k];
    }
  }

  ghost function Count(m: Member): nat {
    if m.value.Object? then |Tellers(ViaItems(m.value.members))| else 0
  }

  /** From position `at` on come the findings of the package: one for each entry with an id, in order. */
  ghost predicate PackageTold(found: seq<Finding>, at: nat, m: Member) {
    && m.value.Object? && TextTitles(ViaItems(m.value.members)) && at + Count(m) <= |found|
    && forall i | 0 <= i < Count(m) ::
         var items := ViaItems(m.value.members);
         Tellers(items)[i] < |items| && Tale(found[at + i], m, items[Tellers(items)[i]])
  }

  lemma ToldFirst(found: seq<Finding>, at: nat, m: Member, more: seq<Finding>)
    requires PackageTold(found, at, m)
    ensures PackageTold(found + more, at, m)
  {
    hide Tale, Count, TextTitles;
  }

  lemma ToldBehind(found: seq<Finding>, at: nat, m: Member, front: seq<Finding>)
    requires PackageTold(found, at, m)
    ensures PackageTold(front + found, |front| + at, m)
  {
    hide Tale, Count, TextTitles;
    assert forall i | at <= i < at + Count(m) :: (front + found)[|front| + i] == found[i];
  }

  lemma {:induction false} PackageInOrder(m: Member)
    requires OfVulnerability(m).Some?
    ensures |OfVulnerability(m).value| == Count(m) && PackageTold(OfVulnerability(m).value, 0, m)
  {
    hide OfItems, ViaItems, JoinedTitle, AllJoinable, Tellers, ViaShows, Get, Titles, Join, TextTitles;
    var vuln := m.value.members;
    var items := ViaItems(vuln);
    JoinedExactly(items);
    ItemsInOrder(m.key, Get(vuln, "severity"), JoinedTitle(items), items);
  }

  /** How many findings the first k packages have. */
  ghost function Before(members: seq<Member>, k: nat): nat
    requires k <= |members|
  {
    if k == 0 then 0 else Before(members, k - 1) + Count(members[k - 1])
  }

  lemma {:induction false} BeforeFront(members: seq<Member>, n: nat, k: nat)
    requires k <= n <= |members|
    ensures Before(members[..n], k) == Before(members, k)
  {
    hide Count;
    if k > 0 { BeforeFront(members, n, k - 1); }
  }

  ghost predicate PackagesTold(found: seq<Finding>, members: seq<Member>) {
    && |found| == Before(members, |members|)
    && forall k | 0 <= k < |members| :: PackageTold(found, Before(members, k), members[k])
  }

  lemma ToldSnoc(found: seq<Finding>, more: seq<Finding>, members: seq<Member>, n: nat)
    requires n + 1 == |members| && PackagesTold(found, members[..n])
    requires |more| == Count(members[n]) && PackageTold(more, 0, members[n])
    ensures PackagesTold(found + more, members)
  {
    hide PackageTold, Count;
    BeforeFront(members, n, n);
    assert Before(members, n + 1) == Before(members, n) + Count(members[n]);
    hide Before;
    forall k | 0 <= k < |members| ensures PackageTold(found + more, Before(members, k), members[k]) {
      if k < n {
        BeforeFront(members, n, k);
        assert members[..n][k] == members[k];
        ToldFirst(found, Before(members, k), members[k], more);
      } else {
        ToldBehind(more, 0, members[n], found);
      }
    }
  }

  lemma {:induction false} PackagesInOrder(members: seq<Member>)
    requires OfVulnerabilities(members).Some?
    ensures PackagesTold(OfVulnerabilities(members).value, members)
    decreases |members|
  {
    hide OfVulnerability, PackagesTold, PackageTold, Count;
    if members == [] {
      NoPackages();
    } else {
      var n := |members| - 1;
      PackagesInOrder(members[..n]);
      PackageInOrder(members[n]);
      ToldSnoc(OfVulnerabilities(members[..n]).value, OfVulnerability(members[n]).value, members, n);
    }
  }

  lemma NoPackages()
    ensures OfVulnerabilities([]) == Some([]) && PackagesTold([], [])
  {
  }

  // ----- Advisories

  predicate AdvisoryTold(f: Finding, j: Json) {
    && AdvisoryShows(j, f)
    && f.title == FirstTrue([Get(j.members, "title"), Get(j.members, "advisory"), Get(j.members, "overview"),
                             Get(j.members, "url")])
  }

  lemma {:induction false} AdvisoryTitled(j: Json)
    requires OfAdvisory(j).Some?
    ensures |OfAdvisory(j).value| == 1 && AdvisoryTold(OfAdvisory(j).value[0], j)
  {
    hide PickAdvisoryId, Get, Indexable, IdSources, AdvisoryShows, FirstTrue;
    var a, f := j.members, OfAdvisory(j).value[0];
    AdvisoryExactly(j, f);
    assert Has([f], f) by { HasOne(f, f); }
    var v := [Get(a, "title"), Get(a, "advisory"), Get(a, "overview"), Get(a, "url")];
    FirstTrueFrom(v, 0);
    FirstTrueFrom(v, 1);
    FirstTrueFrom(v, 2);
    FirstTrueFrom(v, 3);
    assert v[0..] == v;
  }

  lemma {:induction false} AdvisoriesInOrder(members: seq<Member>)
    requires OfAdvisories(members).Some?
    ensures var found := OfAdvisories(members).value;
            |found| == |members| && forall k | 0 <= k < |members| :: AdvisoryTold(found[k], members[k].value)
    decreases |members|
  {
    hide OfAdvisory, AdvisoryTold;
    if members != [] {
      var n := |members| - 1;
      AdvisoriesInOrder(members[..n]);
      AdvisoryTitled(members[n].value);
      assert forall k | 0 <= k < n :: members[..n][k] == members[k];
    }
  }

  // ----- The whole report

  /** The entries of a layout; a report without it has none. */
  function Layout(audit: Json, name: string): seq<Member>
    requires audit.Object?
  {
    if Get(audit.members, name).Object? then Get(audit.members, name).members else []
  }

  /** The findings of a report: one for each advisory, in order, then for each package, in order, one for each entry of
      its `via` that has an id, in order. */
  lemma {:induction false} FindingsInOrder(audit: Json)
    requires Findings(audit).Some?
    ensures var found, a, v := Findings(audit).value, Layout(audit, "advisories"), Layout(audit, "vulnerabilities");
            && |found| == |a| + Before(v, |v|)
            && (forall k | 0 <= k < |a| :: AdvisoryTold(found[k], a[k].value))
            && (forall k | 0 <= k < |v| :: PackageTold(found, |a| + Before(v, k), v[k]))
  {
    hide OfAdvisory, OfVulnerability, Get, AdvisoryTold, PackageTold, Before;
    var a, v := Layout(audit, "advisories"), Layout(audit, "vulnerabilities");
    assert OfAdvisories([]) == Some([]);
    NoPackages();
    assert Findings(audit) == Append(OfAdvisories(a), OfVulnerabilities(v));
    hide OfAdvisories, OfVulnerabilities, Findings;
    AdvisoriesInOrder(a);
    PackagesInOrder(v);
    var one, two := OfAdvisories(a).value, OfVulnerabilities(v).value;
    forall k | 0 <= k < |v| ensures PackageTold(one + two, |a| + Before(v, k), v[k]) {
      ToldBehind(two, Before(v, k), v[k], one);
    }
  }
}
