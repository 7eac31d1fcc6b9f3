/** What the audit gate reads out of a `pnpm audit` report: the findings of both report
    layouts, with the advisory id each is matched by. */
module AuditFindings {
  import opened PyText

  /** A decoded JSON value. `text` is what Python's `str` makes of a number, list or object. */
  datatype Json =
    | Null
    | Flag(on: bool)
    | Number(text: string, zero: bool)
    | Text(s: string)
    | List(items: seq<Json>, text: string)
    | Object(members: seq<Member>, text: string)

  datatype Member = Member(key: string, value: Json)

  datatype Finding = Finding(name: Json, severity: Json, advisory: Json, title: Json)

  predicate Truthy(j: Json) {
    match j
    case Null => false
    case Flag(on) => on
    case Number(_, zero) => !zero
    case Text(s) => s != ""
    case List(items, _) => items != []
    case Object(members, _) => members != []
  }

  function Show(j: Json): string {
    match j
    case Null => "None"
    case Flag(on) => if on then "True" else "False"
    case Number(text, _) => text
    case Text(s) => s
    case List(_, text) => text
    case Object(_, text) => text
  }

  /** `a or b`. */
  function Or(a: Json, b: Json): Json { if Truthy(a) then a else b }

  /** `d.get(key)`. */
  function Get(members: seq<Member>, key: string): Json {
    if members == [] then Null else if members[0].key == key then members[0].value else Get(members[1..], key)
  }

  /** `(cves or [None])[0]`; an object, a true flag or a number cannot be indexed and raises. */
  function FirstCve(cves: Json): Option<Json> {
    if !Truthy(cves) then Some(Null)
    else
      match cves
      case List(items, _) => Some(items[0])
      case Text(s) => Some(Text([s[0]]))
      case _ => None
  }

  /** The id an advisory is matched by; `None` when the tool raises. */
  function PickAdvisoryId(a: seq<Member>): Option<Json> {
    if Truthy(Get(a, "github_advisory_id")) then Some(Get(a, "github_advisory_id"))
    else if Truthy(Get(a, "url")) then Some(Get(a, "url"))
    else
      match FirstCve(Get(a, "cves"))
      case None => None
      case Some(cve) =>
        if Truthy(cve) then Some(cve)
        else if Get(a, "id") != Null && Show(Get(a, "id")) != "" then Some(Text(Show(Get(a, "id"))))
        else Some(Or(Get(a, "title"), Or(Get(a, "advisory"), Get(a, "overview"))))
  }

  function Append(found: Option<seq<Finding>>, more: Option<seq<Finding>>): Option<seq<Finding>> {
    if found.None? || more.None? then None else Some(found.value + more.value)
  }

  // ----- The `advisories` layout

  function OfAdvisory(j: Json): Option<seq<Finding>> {
    if !j.Object? then None
    else
      match PickAdvisoryId(j.members)
      case None => None
      case Some(id) =>
        Some([Finding(Or(Get(j.members, "module_name"), Get(j.members, "name")), Get(j.members, "severity"), id,
                      AdvisoryTitle(j.members))])
  }

  function AdvisoryTitle(a: seq<Member>): Json {
    Or(Get(a, "title"), Or(Get(a, "advisory"), Or(Get(a, "overview"), Get(a, "url"))))
  }

  function OfAdvisories(members: seq<Member>): Option<seq<Finding>> {
    if members == [] then Some([])
    else
      Append(OfAdvisories(members[..|members| - 1]), OfAdvisory(members[|members| - 1].value))
  }

  // ----- The `vulnerabilities` layout

  function ViaId(item: Json): Json {
    match item
    case Object(m, _) =>
      Or(Get(m, "github_advisory_id"), Or(Get(m, "url"), Or(Get(m, "source"), Or(Get(m, "title"), Get(m, "name")))))
    case Text(_) => item
    case _ => Null
  }

  function ViaTitle(item: Json): Json {
    match item
    case Object(m, _) => Or(Get(m, "title"), Or(Get(m, "url"), Or(Get(m, "advisory"), Get(m, "source"))))
    case Text(_) => item
    case _ => Null
  }

  /** Titles are joined, and joining anything but strings raises. */
  predicate Joinable(item: Json) { Truthy(ViaTitle(item)) ==> ViaTitle(item).Text? }

  /** The entries of `via`: a list, or one string; a missing or other value has none. */
  function ViaItems(vuln: seq<Member>): seq<Json> {
    match Get(vuln, "via")
    case List(items, _) => items
    case Text(s) => [Text(s)]
    case _ => []
  }

  predicate AllJoinable(items: seq<Json>) { forall k | 0 <= k < |items| :: Joinable(items[k]) }

  /** `"; ".join(...)` of the titles that are not empty. */
  function JoinedTitle(items: seq<Json>): string
    requires AllJoinable(items)
  {
    if items == [] then ""
    else
      var front, t := JoinedTitle(items[..|items| - 1]), ViaTitle(items[|items| - 1]);
      assert Joinable(items[|items| - 1]);
      if !Truthy(t) then front else if front == "" then t.s else front + "; " + t.s
  }

  function OfItems(name: string, severity: Json, title: string, items: seq<Json>): seq<Finding> {
    if items == [] then []
    else
      var item := items[|items| - 1];
      OfItems(name, severity, title, items[..|items| - 1])
        + if Truthy(ViaId(item)) then [Finding(Text(name), severity, ViaId(item), Text(title))] else []
  }

  function OfVulnerability(m: Member): Option<seq<Finding>> {
    if !m.value.Object? then None
    else
      var vuln := m.value.members;
      var items := ViaItems(vuln);
      if AllJoinable(items) then Some(OfItems(m.key, Get(vuln, "severity"), JoinedTitle(items), items)) else None
  }

  function OfVulnerabilities(members: seq<Member>): Option<seq<Finding>> {
    if members == [] then Some([])
    else Append(OfVulnerabilities(members[..|members| - 1]), OfVulnerability(members[|members| - 1]))
  }

  /** All findings of a report; `None` when the tool raises. */
  function Findings(audit: Json): Option<seq<Finding>> {
    if !audit.Object? then None
    else
      var advisories, vulnerabilities := Get(audit.members, "advisories"), Get(audit.members, "vulnerabilities");
      Append(if advisories.Object? then OfAdvisories(advisories.members) else Some([]),
             if vulnerabilities.Object? then OfVulnerabilities(vulnerabilities.members) else Some([]))
  }

  // ----- The loops

  method IterVulns(audit: Json) returns (found: Option<seq<Finding>>)
    ensures found == Findings(audit)
  {
    hide OfAdvisory, OfAdvisories, OfVulnerability, OfVulnerabilities, Get;
    if !audit.Object? {
      return None;
    }
    var advisories, vulnerabilities := Get(audit.members, "advisories"), Get(audit.members, "vulnerabilities");
    var listed: Option<seq<Finding>> := Some([]);
    if advisories.Object? {
      listed := IterAdvisories(advisories.members);
      if listed.None? {
        return None;
      }
    }
    var more: Option<seq<Finding>> := Some([]);
    if vulnerabilities.Object? {
      more := IterVulnerabilities(vulnerabilities.members);
      if more.None? {
        return None;
      }
    }
    found := Some(listed.value + more.value);
  }

  method IterAdvisories(members: seq<Member>) returns (found: Option<seq<Finding>>)
    ensures found == OfAdvisories(members)
  {
    hide OfAdvisory;
    var all: seq<Finding> := [];
    for k := 0 to |members|
      invariant OfAdvisories(members[..k]) == Some(all)
    {
      AdvisoriesSnoc(members, k);
      var one := OfAdvisory(members[k].value);
      if one.None? {
        AdvisoriesRaise(members, k + 1);
        return None;
      }
      all := all + one.value;
    }
    assert members[..|members|] == members;
    found := Some(all);
  }

  lemma AdvisoriesSnoc(members: seq<Member>, k: nat)
    requires k < |members|
    ensures OfAdvisories(members[..k + 1]) == Append(OfAdvisories(members[..k]), OfAdvisory(members[k].value))
  {
    hide OfAdvisory;
    assert members[..k + 1][..k] == members[..k];
  }

  lemma {:induction false} AdvisoriesRaise(members: seq<Member>, k: nat)
    requires k <= |members| && OfAdvisories(members[..k]).None?
    ensures OfAdvisories(members).None?
    decreases |members| - k
  {
    hide OfAdvisory, OfAdvisories;
    if k < |members| {
      AdvisoriesSnoc(members, k);
      AdvisoriesRaise(members, k + 1);
    } else {
      assert members[..k] == members;
    }
  }

  method IterVulnerabilities(members: seq<Member>) returns (found: Option<seq<Finding>>)
    ensures found == OfVulnerabilities(members)
  {
    hide OfVulnerability;
    var all: seq<Finding> := [];
    for k := 0 to |members|
      invariant OfVulnerabilities(members[..k]) == Some(all)
    {
      VulnerabilitiesSnoc(members, k);
      var one := IterVia(members[k]);
      if one.None? {
        VulnerabilitiesRaise(members, k + 1);
        return None;
      }
      all := all + one.value;
    }
    assert members[..|members|] == members;
    found := Some(all);
  }

  lemma VulnerabilitiesSnoc(members: seq<Member>, k: nat)
    requires k < |members|
    ensures OfVulnerabilities(members[..k + 1])
         == Append(OfVulnerabilities(members[..k]), OfVulnerability(members[k]))
  {
    hide OfVulnerability;
    assert members[..k + 1][..k] == members[..k];
  }

  lemma {:induction false} VulnerabilitiesRaise(members: seq<Member>, k: nat)
    requires k <= |members| && OfVulnerabilities(members[..k]).None?
    ensures OfVulnerabilities(members).None?
    decreases |members| - k
  {
    hide OfVulnerability, OfVulnerabilities;
    if k < |members| {
      VulnerabilitiesSnoc(members, k);
      VulnerabilitiesRaise(members, k + 1);
    } else {
      assert members[..k] == members;
    }
  }

  /** Ids and titles are collected side by side; the titles are joined before the first finding is given out. */
  method IterVia(m: Member) returns (found: Option<seq<Finding>>)
    ensures found == OfVulnerability(m)
  {
    hide ViaId, ViaTitle, Get;
    if !m.value.Object? {
      return None;
    }
    var items, severity := ViaItems(m.value.members), Get(m.value.members, "severity");
    var ids, titles := [], [];
    for k := 0 to |items|
      invariant |ids| == |titles| == k
      invariant forall j | 0 <= j < k :: ids[j] == ViaId(items[j]) && titles[j] == ViaTitle(items[j])
    {
      ids, titles := ids + [ViaId(items[k])], titles + [ViaTitle(items[k])];
    }
    var title := "";
    for k := 0 to |titles|
      invariant AllJoinable(items[..k]) && title == JoinedTitle(items[..k])
    {
      if Truthy(titles[k]) && !titles[k].Text? {
        assert !Joinable(items[k]);
        return None;
      }
      assert items[..k + 1][..k] == items[..k];
      if Truthy(titles[k]) { title := if title == "" then titles[k].s else title + "; " + titles[k].s; }
    }
    assert items[..|items|] == items;
    var all: seq<Finding> := [];
    for k := 0 to |ids|
      invariant all == OfItems(m.key, severity, title, items[..k])
    {
      assert items[..k + 1][..k] == items[..k];
      if Truthy(ids[k]) { all := all + [Finding(Text(m.key), severity, ids[k], Text(title))]; }
    }
    assert items[..|items|] == items;
    found := Some(all);
  }

  // ----- What the comments promise and the code does not keep

  /** A numeric `source` is accepted as an id, but when it is also the only title the report cannot be read. */
  lemma {:induction false} NumericSourceRaises(name: string, text: string, severity: string)
    ensures var item := Object([Member("source", Number(text, false))], "");
            var vuln := [Member("severity", Text(severity)), Member("via", List([item], ""))];
            && ViaId(item) == Number(text, false) && !Joinable(item)
            && OfVulnerability(Member(name, Object(vuln, ""))).None?
  {
    var members := [Member("source", Number(text, false))];
    assert members[1..] == [];
    assert forall key: string :: Get(members, key) == if key == "source" then Number(text, false) else Null;
    var item := Object(members, "");
    var vuln := [Member("severity", Text(severity)), Member("via", List([item], ""))];
    assert vuln[1..] == [Member("via", List([item], ""))];
    assert |"via"| != |"severity"|;
    assert Get(vuln[1..], "via") == List([item], "") && Get(vuln, "via") == Get(vuln[1..], "via");
    assert ViaItems(vuln) == [item] && !AllJoinable(ViaItems(vuln)) by { assert !Joinable([item][0]); }
  }

  /** A `vulnerabilities` report can be read exactly when every entry is an object and no entry of its `via` has a
      title that is not a string. */
  lemma {:induction false} ReadsExactly(members: seq<Member>)
    ensures OfVulnerabilities(members).Some? <==> forall k | 0 <= k < |members| ::
              members[k].value.Object? && AllJoinable(ViaItems(members[k].value.members))
    decreases |members|
  {
    hide AllJoinable, ViaItems;
    if members != [] { ReadsExactly(members[..|members| - 1]); }
  }
}
