/** The decision of the audit gate: an index of the exceptions, one pass over the findings in
    which the first occurrence of a package and advisory decides. */
module AuditGate {
  import opened PyText
  import opened AuditFindings
  import E = ExceptionList

  datatype Key = Key(package: string, advisory: string)

  datatype Waiver = Waiver(key: Key, severity: string, expires: int)

  /** A finding as the gate sees it. */
  datatype Case = Case(severity: string, named: bool, key: Key)

  datatype Problem = BadException | DuplicateException | NoAdvisoryId | NoException | SeverityMismatch | Expired

  /** The date parser: the day an ISO date names. */
  type Calendar = string -> Option<int>

  // ----- Normalisation

  /** `None` when the tool raises: a severity that is neither falsy nor a string. */
  function NormalizeSeverity(j: Json): Option<string> {
    if !Truthy(j) then Some("") else if j.Text? then Some(Lower(Strip(j.s))) else None
  }

  function NormalizePackage(j: Json): string { if j.Null? then "" else Strip(Show(j)) }

  function NormalizeAdvisory(j: Json): string { if j.Null? then "" else Lower(Strip(Show(j))) }

  // ----- Exceptions

  function Field(r: E.Record, name: string): string { if name in r then r[name] else "" }

  predicate Complete(r: E.Record) {
    && Field(r, "package") != "" && Field(r, "advisory") != "" && Field(r, "severity") != ""
    && Field(r, "mitigation") != "" && Field(r, "expires_on") != ""
  }

  /** The waiver a record grants, when all its fields are present, its date is valid and neither its package nor its
      advisory is blank. */
  function Granted(r: E.Record, iso: Calendar): Option<Waiver> {
    var key := Key(Strip(Field(r, "package")), Lower(Strip(Field(r, "advisory"))));
    if !Complete(r) then None
    else
      match iso(Field(r, "expires_on"))
      case None => None
      case Some(day) =>
        if key.package == "" || key.advisory == "" then None
        else Some(Waiver(key, Lower(Strip(Field(r, "severity"))), day))
  }

  function Grants(exceptions: seq<E.Record>, iso: Calendar): (r: seq<Option<Waiver>>)
    ensures |r| == |exceptions| && forall k | 0 <= k < |r| :: r[k] == Granted(exceptions[k], iso)
  {
    seq(|exceptions|, k requires 0 <= k < |exceptions| => Granted(exceptions[k], iso))
  }

  type Index = map<Key, Waiver>

  /** The index after the exceptions, those that grant nothing left out: the first with a key stays. */
  function Indexed(grants: seq<Option<Waiver>>): Index {
    if grants == [] then map[]
    else
      var index := Indexed(grants[..|grants| - 1]);
      match grants[|grants| - 1]
      case None => index
      case Some(w) => if w.key in index then index else index[w.key := w]
  }

  function IndexProblems(grants: seq<Option<Waiver>>): seq<Problem> {
    if grants == [] then []
    else
      var front := grants[..|grants| - 1];
      IndexProblems(front) +
      match grants[|grants| - 1]
      case None => [BadException]
      case Some(w) => if w.key in Indexed(front) then [DuplicateException] else []
  }

  lemma NoGrants()
    ensures Indexed([]) == map[] && IndexProblems([]) == []
  {
  }

  lemma IndexedSnoc(grants: seq<Option<Waiver>>, k: nat)
    requires k < |grants|
    ensures var index, errors := Indexed(grants[..k]), IndexProblems(grants[..k]);
            match grants[k]
            case None => Indexed(grants[..k + 1]) == index && IndexProblems(grants[..k + 1]) == errors + [BadException]
            case Some(w) =>
              && Indexed(grants[..k + 1]) == (if w.key in index then index else index[w.key := w])
              && IndexProblems(grants[..k + 1]) == errors + if w.key in index then [DuplicateException] else []
  {
    assert grants[..k + 1][..k] == grants[..k];
  }

  method BuildIndex(exceptions: seq<E.Record>, iso: Calendar) returns (index: Index, errors: seq<Problem>)
    ensures index == Indexed(Grants(exceptions, iso)) && errors == IndexProblems(Grants(exceptions, iso))
  {
    hide Strip, Lower, Indexed, IndexProblems;
    NoGrants();
    index, errors := map[], [];
    ghost var grants := Grants(exceptions, iso);
    for k := 0 to |exceptions|
      invariant index == Indexed(grants[..k]) && errors == IndexProblems(grants[..k])
    {
      IndexedSnoc(grants, k);
      var exc := exceptions[k];
      if !Complete(exc) {
        errors := errors + [BadException];
        continue;
      }
      var package, advisory := Strip(Field(exc, "package")), Lower(Strip(Field(exc, "advisory")));
      var date := iso(Field(exc, "expires_on"));
      if date.None? || package == "" || advisory == "" {
        errors := errors + [BadException];
        continue;
      }
      var key := Key(package, advisory);
      if key in index {
        errors := errors + [DuplicateException];
        continue;
      }
      index := index[key := Waiver(key, Lower(Strip(Field(exc, "severity"))), date.value)];
    }
    assert grants[..|grants|] == grants;
  }

  // ----- Findings

  function CaseOf(f: Finding): Option<Case> {
    match NormalizeSeverity(f.severity)
    case None => None
    case Some(severity) =>
      Some(Case(severity, Truthy(f.name), Key(NormalizePackage(f.name), NormalizeAdvisory(f.advisory))))
  }

  /** `None` when the tool raises at some finding. */
  function Cases(findings: seq<Finding>): Option<seq<Case>> {
    if findings == [] then Some([])
    else
      match (Cases(findings[..|findings| - 1]), CaseOf(findings[|findings| - 1]))
      case (Some(front), Some(c)) => Some(front + [c])
      case _ => None
  }

  /** A finding of high or critical severity with a name. */
  predicate Relevant(c: Case) { (c.severity == "high" || c.severity == "critical") && c.named }

  /** The keys that have been decided. */
  function Seen(cases: seq<Case>): set<Key> {
    if cases == [] then {}
    else
      var c := cases[|cases| - 1];
      Seen(cases[..|cases| - 1]) + if Relevant(c) && c.key.advisory != "" then {c.key} else {}
  }

  function Verdict(c: Case, index: Index, today: int): seq<Problem> {
    if c.key !in index then [NoException]
    else
      var w := index[c.key];
      (if w.severity != "" && w.severity != c.severity then [SeverityMismatch] else [])
      + if w.expires < today then [Expired] else []
  }

  function Judged(cases: seq<Case>, index: Index, today: int): seq<Problem> {
    if cases == [] then []
    else
      var front, c := cases[..|cases| - 1], cases[|cases| - 1];
      Judged(front, index, today) +
      if !Relevant(c) then []
      else if c.key.advisory == "" then [NoAdvisoryId]
      else if c.key in Seen(front) then []
      else Verdict(c, index, today)
  }

  lemma NoCases(index: Index, today: int)
    ensures Cases([]) == Some([]) && Seen([]) == {} && Judged([], index, today) == []
  {
  }

  lemma CasesSnoc(findings: seq<Finding>, k: nat)
    requires k < |findings|
    ensures var front, c := Cases(findings[..k]), CaseOf(findings[k]);
            Cases(findings[..k + 1]) == if front.Some? && c.Some? then Some(front.value + [c.value]) else None
  {
    assert findings[..k + 1][..k] == findings[..k];
  }

  lemma JudgedSnoc(cases: seq<Case>, c: Case, index: Index, today: int)
    ensures Seen(cases + [c]) == Seen(cases) + if Relevant(c) && c.key.advisory != "" then {c.key} else {}
    ensures Judged(cases + [c], index, today) == Judged(cases, index, today) +
              if !Relevant(c) then []
              else if c.key.advisory == "" then [NoAdvisoryId]
              else if c.key in Seen(cases) then []
              else Verdict(c, index, today)
  {
    hide Relevant, Verdict;
    assert (cases + [c])[..|cases|] == cases;
  }

  method CheckFindings(findings: seq<Finding>, index: Index, today: int) returns (errors: Option<seq<Problem>>)
    ensures errors == match Cases(findings)
                      case None => None
                      case Some(cases) => Some(Judged(cases, index, today))
  {
    hide NormalizeSeverity, NormalizePackage, NormalizeAdvisory, Cases, Judged, Seen;
    NoCases(index, today);
    var seen: set<Key> := {};
    var all: seq<Problem> := [];
    ghost var cases: seq<Case> := [];
    for k := 0 to |findings|
      invariant Cases(findings[..k]) == Some(cases)
      invariant seen == Seen(cases) && all == Judged(cases, index, today)
    {
      var f := findings[k];
      CasesSnoc(findings, k);
      var severity := NormalizeSeverity(f.severity);
      if severity.None? {
        CasesRaise(findings, k + 1);
        return None;
      }
      var key := Key(NormalizePackage(f.name), NormalizeAdvisory(f.advisory));
      ghost var c := Case(severity.value, Truthy(f.name), key);
      JudgedSnoc(cases, c, index, today);
      cases := cases + [c];
      if (severity.value != "high" && severity.value != "critical") || !Truthy(f.name) {
        continue;
      }
      if key.advisory == "" {
        all := all + [NoAdvisoryId];
        continue;
      }
      if key in seen {
        continue;
      }
      seen := seen + {key};
      if key !in index {
        all := all + [NoException];
        continue;
      }
      var w := index[key];
      if w.severity != "" && w.severity != severity.value { all := all + [SeverityMismatch]; }
      if w.expires < today { all := all + [Expired]; }
    }
    assert findings[..|findings|] == findings;
    errors := Some(all);
  }

  lemma {:induction false} CasesRaise(findings: seq<Finding>, k: nat)
    requires k <= |findings| && Cases(findings[..k]).None?
    ensures Cases(findings).None?
    decreases |findings| - k
  {
    hide CaseOf, Cases;
    if k < |findings| {
      CasesSnoc(findings, k);
      CasesRaise(findings, k + 1);
    } else {
      assert findings[..k] == findings;
    }
  }

  // ----- The declarative gate

  ghost predicate WellFormed(grants: seq<Option<Waiver>>) {
    && (forall k | 0 <= k < |grants| :: grants[k].Some?)
    && (forall i, j | 0 <= i < j < |grants| :: grants[i].value.key != grants[j].value.key)
  }

  predicate Waives(w: Waiver, c: Case, today: int) {
    w.key == c.key && (w.severity != "" ==> w.severity == c.severity) && today <= w.expires
  }

  ghost predicate Waived(grants: seq<Option<Waiver>>, c: Case, today: int) {
    exists k | 0 <= k < |grants| :: grants[k].Some? && Waives(grants[k].value, c, today)
  }

  /** No earlier relevant finding has the same key. */
  ghost predicate FirstOfKey(cases: seq<Case>, k: nat)
    requires k < |cases|
  {
    forall j | 0 <= j < k && Relevant(cases[j]) :: cases[j].key != cases[k].key
  }

  ghost predicate Settled(grants: seq<Option<Waiver>>, cases: seq<Case>, k: nat, today: int)
    requires k < |cases|
  {
    Relevant(cases[k]) ==>
      && cases[k].key.advisory != ""
      && (FirstOfKey(cases, k) ==> Waived(grants, cases[k], today))
  }

  /** The exceptions are well formed with distinct keys, every relevant finding has an advisory id, and the first
      finding of every key is waived. */
  ghost predicate Passes(grants: seq<Option<Waiver>>, cases: seq<Case>, today: int) {
    && WellFormed(grants)
    && forall k | 0 <= k < |cases| :: Settled(grants, cases, k, today)
  }

  lemma {:induction false} IndexedHas(grants: seq<Option<Waiver>>, key: Key)
    ensures key in Indexed(grants) <==> exists k | 0 <= k < |grants| :: grants[k].Some? && grants[k].value.key == key
    ensures key in Indexed(grants) ==> exists k | 0 <= k < |grants| :: grants[k] == Some(Indexed(grants)[key])
    ensures key in Indexed(grants) ==> Indexed(grants)[key].key == key
  {
    if grants != [] {
      var front := grants[..|grants| - 1];
      IndexedHas(front, key);
      assert forall k | 0 <= k < |front| :: front[k] == grants[k];
    }
  }

  lemma {:induction false} IndexProblemsExactly(grants: seq<Option<Waiver>>)
    ensures IndexProblems(grants) == [] <==> WellFormed(grants)
  {
    hide Indexed, WellFormed;
    if grants == [] {
      NoneFormed();
    } else {
      var n := |grants| - 1;
      IndexProblemsExactly(grants[..n]);
      WellFormedSnoc(grants);
      if grants[n].Some? { IndexedHas(grants[..n], grants[n].value.key); }
    }
  }

  lemma NoneFormed()
    ensures WellFormed([])
  {
  }

  lemma WellFormedSnoc(grants: seq<Option<Waiver>>)
    requires grants != []
    ensures var n := |grants| - 1;
            var front, w := grants[..n], grants[n];
            WellFormed(grants) <==>
              WellFormed(front) && w.Some?
              && !exists k | 0 <= k < |front| :: front[k].Some? && front[k].value.key == w.value.key
  {
    var n := |grants| - 1;
    assert forall k | 0 <= k < n :: grants[..n][k] == grants[k];
  }

  lemma {:induction false} SeenExactly(cases: seq<Case>, key: Key)
    ensures key in Seen(cases)
       <==> exists j | 0 <= j < |cases| :: Relevant(cases[j]) && cases[j].key == key && key.advisory != ""
  {
    hide Relevant;
    if cases != [] {
      var front := cases[..|cases| - 1];
      SeenExactly(front, key);
      assert forall k | 0 <= k < |front| :: front[k] == cases[k];
    }
  }

  /** With well-formed exceptions a finding draws no complaint exactly when one of them waives it. */
  lemma {:induction false} VerdictExactly(grants: seq<Option<Waiver>>, c: Case, today: int)
    requires WellFormed(grants)
    ensures Verdict(c, Indexed(grants), today) == [] <==> Waived(grants, c, today)
  {
    hide Indexed;
    var index := Indexed(grants);
    IndexedHas(grants, c.key);
    if c.key in index {
      var k :| 0 <= k < |grants| && grants[k] == Some(index[c.key]);
      forall j | 0 <= j < |grants| && grants[j].value.key == c.key ensures j == k {
      }
    }
  }

  lemma SettledFront(grants: seq<Option<Waiver>>, cases: seq<Case>, n: nat, k: nat, today: int)
    requires k < n <= |cases|
    ensures Settled(grants, cases[..n], k, today) <==> Settled(grants, cases, k, today)
  {
    hide Relevant, Waived;
    assert forall j | 0 <= j <= k :: cases[..n][j] == cases[j];
  }

  lemma SettledLast(grants: seq<Option<Waiver>>, cases: seq<Case>, today: int)
    requires WellFormed(grants) && cases != []
    ensures var n, index := |cases| - 1, Indexed(grants);
            Settled(grants, cases, n, today) <==> Judged(cases, index, today) == Judged(cases[..n], index, today)
  {
    hide WellFormed, Indexed, Relevant, Verdict, Waived, Seen;
    var n := |cases| - 1;
    VerdictExactly(grants, cases[n], today);
    SeenExactly(cases[..n], cases[n].key);
    assert forall j | 0 <= j < n :: cases[..n][j] == cases[j];
  }

  /** The pass over the findings has no complaint exactly when the declarative gate holds. */
  lemma {:induction false} JudgedExactly(grants: seq<Option<Waiver>>, cases: seq<Case>, today: int)
    requires WellFormed(grants)
    ensures Judged(cases, Indexed(grants), today) == [] <==> Passes(grants, cases, today)
  {
    hide WellFormed, Indexed, Relevant, Verdict, Seen, Settled;
    if cases != [] {
      var n := |cases| - 1;
      JudgedExactly(grants, cases[..n], today);
      SettledLast(grants, cases, today);
      forall k | 0 <= k < n ensures Settled(grants, cases[..n], k, today) <==> Settled(grants, cases, k, today) {
        SettledFront(grants, cases, n, k, today);
      }
    }
  }

  /** The gate: the exit code, or `None` when the tool raises. */
  method RunGate(audit: Json, lines: seq<string>, today: int, iso: Calendar) returns (code: Option<int>)
    ensures var exceptions, findings := E.Parse(lines), Findings(audit);
            if exceptions.None? || findings.None? || Cases(findings.value).None? then code.None?
            else code == Some(if Passes(Grants(exceptions.value, iso), Cases(findings.value).value, today) then 0 else 1)
  {
    hide Passes, WellFormed, Cases, Indexed, IndexProblems, Judged, Findings, E.Parse;
    var exceptions := E.ParseExceptions(lines);
    if exceptions.None? {
      return None;
    }
    var index, errors := BuildIndex(exceptions.value, iso);
    var findings := IterVulns(audit);
    if findings.None? {
      return None;
    }
    var more := CheckFindings(findings.value, index, today);
    if more.None? {
      return None;
    }
    ghost var grants, cases := Grants(exceptions.value, iso), Cases(findings.value).value;
    IndexProblemsExactly(grants);
    PassesWellFormed(grants, cases, today);
    if errors == [] { JudgedExactly(grants, cases, today); }
    code := Some(if errors + more.value == [] then 0 else 1);
  }

  lemma PassesWellFormed(grants: seq<Option<Waiver>>, cases: seq<Case>, today: int)
    ensures Passes(grants, cases, today) ==> WellFormed(grants)
  {
  }

  // ----- What the verdict depends on

  /** `ys` lists the elements of `xs` in another order: `p` and `q` are inverse to each other. */
  ghost predicate Reordered<T>(xs: seq<T>, ys: seq<T>, p: seq<nat>, q: seq<nat>) {
    && |xs| == |ys| == |p| == |q|
    && (forall i | 0 <= i < |p| :: p[i] < |q| && q[p[i]] == i && ys[i] == xs[p[i]])
    && (forall j | 0 <= j < |q| :: q[j] < |p| && p[q[j]] == j && xs[j] == ys[q[j]])
  }

  lemma {:induction false} PassesReordered(
      xs: seq<Option<Waiver>>, ys: seq<Option<Waiver>>, p: seq<nat>, q: seq<nat>, cases: seq<Case>, today: int)
    requires Reordered(xs, ys, p, q) && Passes(xs, cases, today)
    ensures Passes(ys, cases, today)
  {
    hide Waives, Relevant, FirstOfKey;
    forall i, j | 0 <= i < j < |ys| ensures ys[i].value.key != ys[j].value.key {
      assert p[i] != p[j] by { assert q[p[i]] == i && q[p[j]] == j; }
    }
    forall k | 0 <= k < |cases| ensures Settled(ys, cases, k, today) {
      assert Settled(xs, cases, k, today);
      if Waived(xs, cases[k], today) {
        var j :| 0 <= j < |xs| && xs[j].Some? && Waives(xs[j].value, cases[k], today);
        assert ys[q[j]] == xs[j];
      }
    }
  }

  lemma {:induction false} GrantsReordered(
      xs: seq<E.Record>, ys: seq<E.Record>, p: seq<nat>, q: seq<nat>, iso: Calendar)
    requires Reordered(xs, ys, p, q)
    ensures Reordered(Grants(xs, iso), Grants(ys, iso), p, q)
  {
    hide Granted;
  }

  /** The order of the exceptions does not matter. */
  lemma {:induction false} OrderOfExceptions(
      xs: seq<E.Record>, ys: seq<E.Record>, p: seq<nat>, q: seq<nat>, cases: seq<Case>, today: int, iso: Calendar)
    requires Reordered(xs, ys, p, q)
    ensures Passes(Grants(xs, iso), cases, today) <==> Passes(Grants(ys, iso), cases, today)
  {
    hide Passes, Grants, Reordered;
    var a, b := Grants(xs, iso), Grants(ys, iso);
    GrantsReordered(xs, ys, p, q, iso);
    ReorderedBack(a, b, p, q);
    if Passes(a, cases, today) { PassesReordered(a, b, p, q, cases, today); }
    if Passes(b, cases, today) { PassesReordered(b, a, q, p, cases, today); }
  }

  lemma ReorderedBack<T>(xs: seq<T>, ys: seq<T>, p: seq<nat>, q: seq<nat>)
    requires Reordered(xs, ys, p, q)
    ensures Reordered(ys, xs, q, p)
  {
  }

  /** A report that passes today passed on every earlier day. */
  lemma {:induction false} PassesEarlier(grants: seq<Option<Waiver>>, cases: seq<Case>, today: int, earlier: int)
    requires Passes(grants, cases, today) && earlier <= today
    ensures Passes(grants, cases, earlier)
  {
    hide WellFormed, Relevant, FirstOfKey;
    forall k | 0 <= k < |cases| ensures Settled(grants, cases, k, earlier) {
      assert Settled(grants, cases, k, today);
      if Waived(grants, cases[k], today) {
        var j :| 0 <= j < |grants| && grants[j].Some? && Waives(grants[j].value, cases[k], today);
        assert Waives(grants[j].value, cases[k], earlier);
      }
    }
  }

  /** Every relevant finding, not only the first of its key, has an advisory id and is waived. */
  ghost predicate AllWaived(grants: seq<Option<Waiver>>, cases: seq<Case>, today: int) {
    forall k | 0 <= k < |cases| && Relevant(cases[k]) ::
      cases[k].key.advisory != "" && Waived(grants, cases[k], today)
  }

  ghost predicate PassesInAnyOrder(grants: seq<Option<Waiver>>, cases: seq<Case>, today: int) {
    forall ys, p, q | Reordered(cases, ys, p, q) :: Passes(grants, ys, today)
  }

  /** The order of the findings does matter: a report passes in every order exactly when the exceptions are well formed
      and every relevant finding is waived by itself. */
  lemma {:induction false} OrderOfFindings(grants: seq<Option<Waiver>>, cases: seq<Case>, today: int)
    ensures PassesInAnyOrder(grants, cases, today) <==> WellFormed(grants) && AllWaived(grants, cases, today)
  {
    hide WellFormed, Waived, Relevant;
    if WellFormed(grants) && AllWaived(grants, cases, today) {
      forall ys, p, q | Reordered(cases, ys, p, q) ensures Passes(grants, ys, today) {
        AllWaivedPasses(grants, cases, ys, p, q, today);
      }
    }
    if PassesInAnyOrder(grants, cases, today) {
      SameOrder(cases);
      PassesWellFormed(grants, cases, today);
      forall k | 0 <= k < |cases| && Relevant(cases[k])
        ensures cases[k].key.advisory != "" && Waived(grants, cases[k], today)
      {
        var ys, p, q := ToFront(cases, k);
        assert Passes(grants, ys, today);
        FirstSettled(grants, ys, today);
      }
    }
  }

  lemma AllWaivedPasses(grants: seq<Option<Waiver>>, cases: seq<Case>, ys: seq<Case>, p: seq<nat>, q: seq<nat>, today: int)
    requires WellFormed(grants) && AllWaived(grants, cases, today) && Reordered(cases, ys, p, q)
    ensures Passes(grants, ys, today)
  {
    hide WellFormed, Waived, Relevant, FirstOfKey;
    forall k | 0 <= k < |ys| ensures Settled(grants, ys, k, today) { assert ys[k] == cases[p[k]]; }
  }

  lemma SameOrder<T>(xs: seq<T>)
    ensures var p := seq(|xs|, i requires 0 <= i < |xs| => i);
            Reordered(xs, xs, p, p)
  {
  }

  /** The k-th element moved to the front. */
  lemma ToFront<T>(xs: seq<T>, k: nat) returns (ys: seq<T>, p: seq<nat>, q: seq<nat>)
    requires k < |xs|
    ensures Reordered(xs, ys, p, q) && ys[0] == xs[k]
  {
    p := seq(|xs|, i requires 0 <= i < |xs| => if i == 0 then k else if i <= k then i - 1 else i);
    q := seq(|xs|, j requires 0 <= j < |xs| => if j == k then 0 else if j < k then j + 1 else j);
    ys := seq(|xs|, i requires 0 <= i < |xs| => xs[p[i]]);
  }

  lemma FirstSettled(grants: seq<Option<Waiver>>, cases: seq<Case>, today: int)
    requires cases != [] && Passes(grants, cases, today) && Relevant(cases[0])
    ensures cases[0].key.advisory != "" && Waived(grants, cases[0], today)
  {
    hide WellFormed, Waived, Relevant;
    assert Settled(grants, cases, 0, today) && FirstOfKey(cases, 0);
  }

  /** Two findings with one key: the first is compared. When it is waived and the two differ in severity, swapping them
      keeps the verdict exactly when the exception's severity is blank. */
  lemma {:induction false} SwappedFindings(grants: seq<Option<Waiver>>, c: Case, d: Case, today: int)
    requires WellFormed(grants) && Relevant(c) && Relevant(d) && c.key == d.key && c.key.advisory != ""
    ensures Passes(grants, [c, d], today) <==> Waived(grants, c, today)
    ensures Waived(grants, c, today) && c.severity != d.severity ==>
              (Passes(grants, [d, c], today) <==>
                 exists k | 0 <= k < |grants| :: Waives(grants[k].value, c, today) && grants[k].value.severity == "")
  {
    hide Relevant;
    PairPasses(grants, c, d, today);
    PairPasses(grants, d, c, today);
  }

  lemma PairPasses(grants: seq<Option<Waiver>>, c: Case, d: Case, today: int)
    requires WellFormed(grants) && Relevant(c) && Relevant(d) && c.key == d.key && c.key.advisory != ""
    ensures Passes(grants, [c, d], today) <==> Waived(grants, c, today)
  {
    hide WellFormed, Relevant, Waived;
    var cases := [c, d];
    assert FirstOfKey(cases, 0);
    assert !FirstOfKey(cases, 1) by { assert Relevant(cases[0]) && cases[0].key == cases[1].key; }
    assert Settled(grants, cases, 0, today) <==> Waived(grants, c, today);
    assert Settled(grants, cases, 1, today);
  }
}
