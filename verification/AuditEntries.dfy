/** Which findings a readable audit report has, and when it can be read at all. */
module AuditEntries {
  import opened PyText
  import opened AuditFindings

  // ----- Preferences

  /** What a chain of `or` gives: the first true value, or the last one when none is. */
  function FirstTrue(values: seq<Json>): Json
    requires values != []
  {
    if Truthy(values[0]) || |values| == 1 then values[0] else FirstTrue(values[1..])
  }

  /** The first true value, at its place. */
  lemma {:induction false} FirstTrueAt(values: seq<Json>, k: nat)
    requires k < |values| && forall j | 0 <= j < k :: !Truthy(values[j])
    requires Truthy(values[k]) || k == |values| - 1
    ensures FirstTrue(values) == values[k]
    decreases k
  {
    if k > 0 { FirstTrueAt(values[1..], k - 1); }
  }

  lemma FirstTrueFrom(values: seq<Json>, k: nat)
    requires k < |values|
    ensures FirstTrue(values[k..])
         == if k + 1 < |values| then Or(values[k], FirstTrue(values[k + 1..])) else values[k]
  {
    if k + 1 < |values| { assert values[k..][1..] == values[k + 1..]; }
  }

  /** The first of the `cves`: of a list its first entry, of a text its first letter. */
  function CveOf(cves: Json): Json {
    match cves
    case List(items, _) => if items == [] then Null else items[0]
    case Text(s) => if s == "" then Null else Text([s[0]])
    case _ => Null
  }

  /** A number without an entry is no id; any other is shown as text. */
  function ShownId(id: Json): Json { if id == Null then Null else Text(Show(id)) }

  /** The sources of an advisory's id, the preferred ones first. */
  function IdSources(a: seq<Member>): seq<Json> {
    [Get(a, "github_advisory_id"), Get(a, "url"), CveOf(Get(a, "cves")), ShownId(Get(a, "id")), Get(a, "title"),
     Get(a, "advisory"), Get(a, "overview")]
  }

  function ViaSources(a: seq<Member>): seq<Json> {
    [Get(a, "github_advisory_id"), Get(a, "url"), Get(a, "source"), Get(a, "title"), Get(a, "name")]
  }

  /** The tool raises when it has to look at `cves` that cannot be indexed. */
  predicate Indexable(a: seq<Member>) {
    || Truthy(Get(a, "github_advisory_id")) || Truthy(Get(a, "url"))
    || !Truthy(Get(a, "cves")) || Get(a, "cves").List? || Get(a, "cves").Text?
  }

  // ----- Which entries show a finding

  /** The entry of the `advisories` layout shows this package, severity and id. */
  predicate AdvisoryShows(j: Json, f: Finding) {
    && j.Object?
    && f.name == FirstTrue([Get(j.members, "module_name"), Get(j.members, "name")])
    && f.severity == Get(j.members, "severity")
    && f.advisory == FirstTrue(IdSources(j.members))
  }

  /** The id of an entry of `via`: a text is one itself, and anything but an object or a text has none. */
  predicate ViaShows(item: Json, id: Json) {
    match item
    case Object(m, _) => id == FirstTrue(ViaSources(m)) && Truthy(id)
    case Text(s) => id == item && s != ""
    case _ => false
  }

  /** The entry of the `vulnerabilities` layout shows this package, severity and id. */
  predicate VulnerabilityShows(m: Member, f: Finding) {
    && m.value.Object?
    && f.name == Text(m.key)
    && f.severity == Get(m.value.members, "severity")
    && exists k | 0 <= k < |ViaItems(m.value.members)| :: ViaShows(ViaItems(m.value.members)[k], f.advisory)
  }

  predicate Shown(audit: Json, f: Finding)
    requires audit.Object?
  {
    var advisories, vulnerabilities := Get(audit.members, "advisories"), Get(audit.members, "vulnerabilities");
    || (advisories.Object? && exists k | 0 <= k < |advisories.members| :: AdvisoryShows(advisories.members[k].value, f))
    || (vulnerabilities.Object? &&
        exists k | 0 <= k < |vulnerabilities.members| :: VulnerabilityShows(vulnerabilities.members[k], f))
  }

  /** Package, severity and id of a finding. */
  predicate SameKey(f: Finding, g: Finding) { f.name == g.name && f.severity == g.severity && f.advisory == g.advisory }

  ghost predicate Has(found: seq<Finding>, f: Finding) { exists k | 0 <= k < |found| :: SameKey(found[k], f) }

  lemma HasJoin(a: seq<Finding>, b: seq<Finding>, f: Finding)
    ensures Has(a + b, f) <==> Has(a, f) || Has(b, f)
  {
    if k :| 0 <= k < |a| && SameKey(a[k], f) { assert (a + b)[k] == a[k]; }
    if k :| 0 <= k < |b| && SameKey(b[k], f) { assert (a + b)[|a| + k] == b[k]; }
  }

  lemma HasNone(f: Finding)
    ensures !Has([], f)
  {
  }

  lemma HasOne(g: Finding, f: Finding)
    ensures Has([g], f) <==> SameKey(g, f)
  {
    assert [g][0] == g;
  }

  // ----- Ids

  lemma OrChain(v: seq<Json>)
    requires |v| == 7
    ensures FirstTrue(v) == Or(v[0], Or(v[1], Or(v[2], Or(v[3], Or(v[4], Or(v[5], v[6]))))))
  {
    hide Or, FirstTrue;
    FirstTrueFrom(v, 0);
    FirstTrueFrom(v, 1);
    FirstTrueFrom(v, 2);
    FirstTrueFrom(v, 3);
    FirstTrueFrom(v, 4);
    FirstTrueFrom(v, 5);
    FirstTrueFrom(v, 6);
    assert v[0..] == v;
  }

  /** The id an advisory is matched by is its most preferred source that is true. */
  lemma {:induction false} PickExactly(a: seq<Member>)
    ensures PickAdvisoryId(a).Some? <==> Indexable(a)
    ensures PickAdvisoryId(a).Some? ==> PickAdvisoryId(a).value == FirstTrue(IdSources(a))
  {
    hide Get, FirstTrue;
    OrChain(IdSources(a));
  }

  lemma {:induction false} ViaExactly(item: Json, id: Json)
    ensures ViaShows(item, id) <==> ViaId(item) == id && Truthy(id)
  {
    hide Get;
    if item.Object? {
      var v := ViaSources(item.members);
      hide FirstTrue;
      FirstTrueFrom(v, 0);
      FirstTrueFrom(v, 1);
      FirstTrueFrom(v, 2);
      FirstTrueFrom(v, 3);
      FirstTrueFrom(v, 4);
      assert v[0..] == v;
    }
  }

  // ----- Reports

  lemma {:induction false} AdvisoryExactly(j: Json, f: Finding)
    ensures OfAdvisory(j).Some? <==> j.Object? && Indexable(j.members)
    ensures OfAdvisory(j).Some? ==> (Has(OfAdvisory(j).value, f) <==> AdvisoryShows(j, f))
  {
    hide PickAdvisoryId, Get, Indexable, IdSources, Has;
    if j.Object? {
      var a := j.members;
      PickExactly(a);
      var names := [Get(a, "module_name"), Get(a, "name")];
      FirstTrueFrom(names, 0);
      FirstTrueFrom(names, 1);
      assert names[0..] == names;
      hide FirstTrue;
      if OfAdvisory(j).Some? { HasOne(OfAdvisory(j).value[0], f); }
    }
  }

  lemma {:induction false} AdvisoriesExactly(members: seq<Member>, f: Finding)
    ensures OfAdvisories(members).Some? <==>
              forall k | 0 <= k < |members| :: members[k].value.Object? && Indexable(members[k].value.members)
    ensures OfAdvisories(members).Some? ==>
              (Has(OfAdvisories(members).value, f) <==>
                 exists k | 0 <= k < |members| :: AdvisoryShows(members[k].value, f))
    decreases |members|
  {
    hide OfAdvisory, AdvisoryShows, Indexable, Has;
    if members == [] {
      HasNone(f);
    } else {
      var n := |members| - 1;
      AdvisoriesExactly(members[..n], f);
      AdvisoryExactly(members[n].value, f);
      if OfAdvisories(members).Some? {
        HasJoin(OfAdvisories(members[..n]).value, OfAdvisory(members[n].value).value, f);
        assert forall k | 0 <= k < n :: members[..n][k] == members[k];
      }
    }
  }

  lemma {:induction false} ItemsExactly(name: string, severity: Json, title: string, items: seq<Json>, f: Finding)
    ensures Has(OfItems(name, severity, title, items), f) <==>
              f.name == Text(name) && f.severity == severity
              && exists k | 0 <= k < |items| :: ViaShows(items[k], f.advisory)
    decreases |items|
  {
    hide ViaId, ViaShows, Has;
    if items == [] {
      HasNone(f);
    } else {
      var n := |items| - 1;
      ItemsExactly(name, severity, title, items[..n], f);
      ViaExactly(items[n], f.advisory);
      var g := Finding(Text(name), severity, ViaId(items[n]), Text(title));
      var more := if Truthy(ViaId(items[n])) then [g] else [];
      HasOne(g, f);
      HasNone(f);
      HasJoin(OfItems(name, severity, title, items[..n]), more, f);
      assert forall k | 0 <= k < n :: items[..n][k] == items[k];
    }
  }

  lemma {:induction false} VulnerabilitiesExactly(members: seq<Member>, f: Finding)
    ensures OfVulnerabilities(members).Some? ==>
              (Has(OfVulnerabilities(members).value, f) <==>
                 exists k | 0 <= k < |members| :: VulnerabilityShows(members[k], f))
    decreases |members|
  {
    hide OfItems, VulnerabilityShows, ViaItems, JoinedTitle, Has;
    if members == [] {
      HasNone(f);
    } else {
      var n, m := |members| - 1, members[|members| - 1];
      VulnerabilitiesExactly(members[..n], f);
      if OfVulnerabilities(members).Some? {
        VulnerabilityExactly(m, f);
        HasJoin(OfVulnerabilities(members[..n]).value, OfVulnerability(m).value, f);
        assert forall k | 0 <= k < n :: members[..n][k] == members[k];
      }
    }
  }

  lemma {:induction false} VulnerabilityExactly(m: Member, f: Finding)
    requires OfVulnerability(m).Some?
    ensures Has(OfVulnerability(m).value, f) <==> VulnerabilityShows(m, f)
  {
    hide OfItems, ViaItems, JoinedTitle, Has, Get, ViaShows;
    var vuln := m.value.members;
    ItemsExactly(m.key, Get(vuln, "severity"), JoinedTitle(ViaItems(vuln)), ViaItems(vuln), f);
  }

  /** A readable report has a finding for a package, a severity and an id exactly when an advisory, or an entry in the
      `via` of that package, shows them. */
  lemma {:induction false} FindingsExactly(audit: Json, f: Finding)
    requires Findings(audit).Some?
    ensures Has(Findings(audit).value, f) <==> Shown(audit, f)
  {
    hide OfAdvisories, OfVulnerabilities, AdvisoryShows, VulnerabilityShows, Get, Has;
    var advisories, vulnerabilities := Get(audit.members, "advisories"), Get(audit.members, "vulnerabilities");
    var a := if advisories.Object? then OfAdvisories(advisories.members) else Some([]);
    var v := if vulnerabilities.Object? then OfVulnerabilities(vulnerabilities.members) else Some([]);
    HasNone(f);
    if advisories.Object? { AdvisoriesExactly(advisories.members, f); }
    if vulnerabilities.Object? { VulnerabilitiesExactly(vulnerabilities.members, f); }
    HasJoin(a.value, v.value, f);
  }

  predicate AdvisoriesReadable(members: seq<Member>) {
    forall k | 0 <= k < |members| :: members[k].value.Object? && Indexable(members[k].value.members)
  }

  predicate VulnerabilitiesReadable(members: seq<Member>) {
    forall k | 0 <= k < |members| :: members[k].value.Object? && AllJoinable(ViaItems(members[k].value.members))
  }

  /** A report can be read exactly when no advisory has to be looked up in something that cannot be indexed, and every
      package entry is an object whose true titles are strings. */
  lemma {:induction false} ReadableExactly(audit: Json)
    ensures Findings(audit).Some? <==>
              && audit.Object?
              && (Get(audit.members, "advisories").Object? ==>
                    AdvisoriesReadable(Get(audit.members, "advisories").members))
              && (Get(audit.members, "vulnerabilities").Object? ==>
                    VulnerabilitiesReadable(Get(audit.members, "vulnerabilities").members))
  {
    hide OfAdvisories, OfVulnerabilities, Indexable, AllJoinable, ViaItems, Get;
    if audit.Object? {
      var advisories, vulnerabilities := Get(audit.members, "advisories"), Get(audit.members, "vulnerabilities");
      if advisories.Object? { AdvisoriesExactly(advisories.members, Finding(Null, Null, Null, Null)); }
      if vulnerabilities.Object? { ReadsExactly(vulnerabilities.members); }
    }
  }
}
