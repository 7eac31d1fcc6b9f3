/** Which complaints the audit gate has, in terms of the exception records and the findings. */
module GateProblems {
  import opened PyText
  import opened AuditFindings
  import opened AuditGate
  import opened GateRules
  import E = ExceptionList

  // ----- Exceptions

  /** The r-th exception is the first one with the key. */
  ghost predicate FirstWith(grants: seq<Option<Waiver>>, r: nat, key: Key) {
    && r < |grants| && grants[r].Some? && grants[r].value.key == key
    && forall q | 0 <= q < r && grants[q].Some? :: grants[q].value.key != key
  }

  lemma FirstFront(grants: seq<Option<Waiver>>, n: nat, r: nat, key: Key)
    requires r < n <= |grants|
    ensures FirstWith(grants[..n], r, key) <==> FirstWith(grants, r, key)
  {
    assert forall q | 0 <= q < n :: grants[..n][q] == grants[q];
  }

  lemma {:induction false} IndexFirst(grants: seq<Option<Waiver>>, key: Key)
    ensures key in Indexed(grants) ==>
              exists r: nat :: FirstWith(grants, r, key) && r < |grants| && grants[r] == Some(Indexed(grants)[key])
  {
    hide FirstWith;
    if grants != [] {
      var n := |grants| - 1;
      IndexFirst(grants[..n], key);
      if key in Indexed(grants[..n]) {
        var r: nat :| FirstWith(grants[..n], r, key) && r < n && grants[..n][r] == Some(Indexed(grants[..n])[key]);
        FirstInside(grants[..n], r, key);
        FirstFront(grants, n, r, key);
        assert grants[r] == Some(Indexed(grants)[key]);
      } else if key in Indexed(grants) {
        LastIsFirst(grants, key);
        assert grants[n] == Some(Indexed(grants)[key]);
      }
    }
  }

  lemma FirstInside(grants: seq<Option<Waiver>>, r: nat, key: Key)
    requires FirstWith(grants, r, key)
    ensures r < |grants| && grants[r].Some? && grants[r].value.key == key
  {
  }

  lemma LastIsFirst(grants: seq<Option<Waiver>>, key: Key)
    requires grants != [] && grants[|grants| - 1].Some? && grants[|grants| - 1].value.key == key
    requires key !in Indexed(grants[..|grants| - 1])
    ensures FirstWith(grants, |grants| - 1, key)
  {
    hide Indexed;
    var n := |grants| - 1;
    IndexedHas(grants[..n], key);
    assert forall q | 0 <= q < n :: grants[..n][q] == grants[q];
  }

  ghost predicate Faulty(grants: seq<Option<Waiver>>, k: nat, p: Problem)
    requires k < |grants|
  {
    match p
    case BadException => grants[k].None?
    case DuplicateException =>
      grants[k].Some? && exists j | 0 <= j < k :: grants[j].Some? && grants[j].value.key == grants[k].value.key
    case _ => false
  }

  lemma {:induction false} IndexProblemsHas(grants: seq<Option<Waiver>>, p: Problem)
    ensures p in IndexProblems(grants) <==> exists k | 0 <= k < |grants| :: Faulty(grants, k, p)
  {
    if grants != [] {
      var n := |grants| - 1;
      IndexProblemsHas(grants[..n], p);
      if grants[n].Some? { IndexedHas(grants[..n], grants[n].value.key); }
      hide Indexed;
      forall k | 0 <= k < n ensures Faulty(grants[..n], k, p) <==> Faulty(grants, k, p) {
        assert forall j | 0 <= j < n :: grants[..n][j] == grants[j];
      }
      assert p in IndexProblems(grants) <==> p in IndexProblems(grants[..n]) || Faulty(grants, n, p);
    }
  }

  // ----- Findings

  /** The finding is the one that decides for its package and advisory. */
  ghost predicate Decides(cases: seq<Case>, k: nat)
    requires k < |cases|
  {
    Relevant(cases[k]) && cases[k].key.advisory != "" && FirstOfKey(cases, k)
  }

  ghost predicate Complains(grants: seq<Option<Waiver>>, cases: seq<Case>, k: nat, today: int, p: Problem)
    requires k < |cases|
  {
    var c := cases[k];
    match p
    case NoAdvisoryId => Relevant(c) && c.key.advisory == ""
    case NoException => Decides(cases, k) && forall r: nat :: !FirstWith(grants, r, c.key)
    case SeverityMismatch =>
      && Decides(cases, k)
      && exists r: nat :: FirstWith(grants, r, c.key)
                     && grants[r].value.severity != "" && grants[r].value.severity != c.severity
    case Expired => Decides(cases, k) && exists r: nat :: FirstWith(grants, r, c.key) && grants[r].value.expires < today
    case _ => false
  }

  lemma ComplainsFront(grants: seq<Option<Waiver>>, cases: seq<Case>, n: nat, k: nat, today: int, p: Problem)
    requires k < n <= |cases|
    ensures Complains(grants, cases[..n], k, today, p) <==> Complains(grants, cases, k, today, p)
  {
    hide Relevant, FirstWith;
    assert forall j | 0 <= j < n :: cases[..n][j] == cases[j];
  }

  lemma FirstUnique(grants: seq<Option<Waiver>>, key: Key, q: nat, r: nat)
    requires FirstWith(grants, q, key) && FirstWith(grants, r, key)
    ensures q == r
  {
  }

  lemma VerdictHas(grants: seq<Option<Waiver>>, c: Case, today: int, p: Problem)
    ensures p in Verdict(c, Indexed(grants), today) <==>
              match p
              case NoException => forall r: nat :: !FirstWith(grants, r, c.key)
              case SeverityMismatch =>
                exists r: nat :: FirstWith(grants, r, c.key)
                            && grants[r].value.severity != "" && grants[r].value.severity != c.severity
              case Expired => exists r: nat :: FirstWith(grants, r, c.key) && grants[r].value.expires < today
              case _ => false
  {
    hide Indexed;
    IndexFirst(grants, c.key);
    IndexedHas(grants, c.key);
    if c.key in Indexed(grants) {
      var r: nat :| FirstWith(grants, r, c.key) && r < |grants| && grants[r] == Some(Indexed(grants)[c.key]);
      forall q: nat | FirstWith(grants, q, c.key) ensures q == r { FirstUnique(grants, c.key, q, r); }
    }
  }

  lemma {:induction false} JudgedHas(grants: seq<Option<Waiver>>, cases: seq<Case>, today: int, p: Problem)
    ensures p in Judged(cases, Indexed(grants), today) <==>
              exists k | 0 <= k < |cases| :: Complains(grants, cases, k, today, p)
    decreases |cases|
  {
    hide Indexed, Verdict, Relevant, FirstWith, Seen;
    if cases != [] {
      var n := |cases| - 1;
      JudgedHas(grants, cases[..n], today, p);
      LastComplains(grants, cases, today, p);
      hide Judged;
      forall k | 0 <= k < n ensures Complains(grants, cases[..n], k, today, p) <==> Complains(grants, cases, k, today, p) {
        ComplainsFront(grants, cases, n, k, today, p);
      }
      hide Complains;
    }
  }

  lemma LastComplains(grants: seq<Option<Waiver>>, cases: seq<Case>, today: int, p: Problem)
    requires cases != []
    ensures var n, index := |cases| - 1, Indexed(grants);
            p in Judged(cases, index, today) <==>
              p in Judged(cases[..n], index, today) || Complains(grants, cases, n, today, p)
  {
    hide Indexed, Verdict, Relevant, FirstWith, Seen;
    var n := |cases| - 1;
    SeenExactly(cases[..n], cases[n].key);
    VerdictHas(grants, cases[n], today, p);
    assert forall j | 0 <= j < n :: cases[..n][j] == cases[j];
  }

  // ----- In terms of records and findings

  predicate IsFor(r: E.Record, f: Finding) {
    && "package" in r && "advisory" in r
    && Strip(r["package"]) == Strip(Show(f.name)) && Lower(Strip(r["advisory"])) == IdOf(f)
  }

  /** The r-th record is the first good one for the finding's package and advisory. */
  ghost predicate FirstFor(records: seq<E.Record>, r: nat, f: Finding, iso: Calendar) {
    && r < |records| && GoodRecord(records[r], iso) && IsFor(records[r], f)
    && forall q | 0 <= q < r && GoodRecord(records[q], iso) :: !IsFor(records[q], f)
  }

  lemma ForExactly(r: E.Record, f: Finding, iso: Calendar)
    requires CaseOf(f).Some? && Matters(f)
    ensures Granted(r, iso).Some? <==> GoodRecord(r, iso)
    ensures GoodRecord(r, iso) ==> (Granted(r, iso).value.key == CaseOf(f).value.key <==> IsFor(r, f))
  {
    hide Strip, Lower, Granted, CaseOf, Relevant;
    GrantedExactly(r, iso);
    CaseExactly(f);
  }

  lemma FirstForExactly(records: seq<E.Record>, r: nat, f: Finding, iso: Calendar)
    requires CaseOf(f).Some? && Matters(f)
    ensures FirstWith(Grants(records, iso), r, CaseOf(f).value.key) <==> FirstFor(records, r, f, iso)
  {
    hide Granted, CaseOf, Matters, GoodRecord, IsFor;
    var grants := Grants(records, iso);
    forall q | 0 <= q < |records|
      ensures grants[q].Some? <==> GoodRecord(records[q], iso)
      ensures grants[q].Some? ==> (grants[q].value.key == CaseOf(f).value.key <==> IsFor(records[q], f))
    {
      ForExactly(records[q], f, iso);
    }
  }

  /** The finding matters and is the first of its package and advisory that does. */
  ghost predicate Deciding(findings: seq<Finding>, k: nat)
    requires k < |findings|
  {
    && Matters(findings[k]) && IdOf(findings[k]) != ""
    && forall j | 0 <= j < k && Matters(findings[j]) :: !SameFindingKey(findings[j], findings[k])
  }

  predicate OtherSeverity(r: E.Record, f: Finding) {
    "severity" in r && f.severity.Text? && Strip(r["severity"]) != ""
    && Lower(Strip(r["severity"])) != Lower(Strip(f.severity.s))
  }

  predicate Over(r: E.Record, iso: Calendar, today: int) {
    "expires_on" in r && iso(r["expires_on"]).Some? && iso(r["expires_on"]).value < today
  }

  ghost predicate Draws(
      records: seq<E.Record>, findings: seq<Finding>, k: nat, iso: Calendar, today: int, p: Problem)
    requires k < |findings|
  {
    var f := findings[k];
    match p
    case NoAdvisoryId => Matters(f) && IdOf(f) == ""
    case NoException => Deciding(findings, k) && forall r: nat :: !FirstFor(records, r, f, iso)
    case SeverityMismatch =>
      Deciding(findings, k) && exists r: nat :: FirstFor(records, r, f, iso) && OtherSeverity(records[r], f)
    case Expired => Deciding(findings, k) && exists r: nat :: FirstFor(records, r, f, iso) && Over(records[r], iso, today)
    case _ => false
  }

  ghost predicate BadRecord(records: seq<E.Record>, k: nat, iso: Calendar, p: Problem)
    requires k < |records|
  {
    match p
    case BadException => !GoodRecord(records[k], iso)
    case DuplicateException =>
      && GoodRecord(records[k], iso)
      && exists j | 0 <= j < k && GoodRecord(records[j], iso) :: SameRecordKey(records[j], records[k])
    case _ => false
  }

  lemma {:induction false} BadExactly(records: seq<E.Record>, k: nat, iso: Calendar, p: Problem)
    requires k < |records|
    ensures Faulty(Grants(records, iso), k, p) <==> BadRecord(records, k, iso, p)
  {
    hide Strip, Lower, Granted;
    GrantedExactly(records[k], iso);
    forall j | 0 <= j <= k
      ensures Granted(records[j], iso).Some? <==> GoodRecord(records[j], iso)
      ensures GoodRecord(records[j], iso) && GoodRecord(records[k], iso) ==>
                (Granted(records[j], iso).value.key == Granted(records[k], iso).value.key
                 <==> SameRecordKey(records[j], records[k]))
    {
      GrantedExactly(records[j], iso);
    }
    hide GoodRecord, SameRecordKey;
  }

  lemma {:induction false} DecidingExactly(findings: seq<Finding>, cases: seq<Case>, k: nat)
    requires Cases(findings) == Some(cases) && k < |findings| == |cases|
    ensures CaseOf(findings[k]) == Some(cases[k]) && (Relevant(cases[k]) <==> Matters(findings[k]))
    ensures Matters(findings[k]) ==> cases[k].key.advisory == IdOf(findings[k])
    ensures Decides(cases, k) <==> Deciding(findings, k)
  {
    hide Cases, CaseOf, Relevant, Matters;
    CasesExactly(findings);
    forall j | 0 <= j <= k
      ensures CaseOf(findings[j]) == Some(cases[j]) && (Relevant(cases[j]) <==> Matters(findings[j]))
      ensures Matters(findings[j]) ==> cases[j].key == Key(Strip(Show(findings[j].name)), IdOf(findings[j]))
    {
      CaseExactly(findings[j]);
    }
  }

  lemma FirstHas(records: seq<E.Record>, r: nat, f: Finding, iso: Calendar, today: int)
    requires CaseOf(f).Some? && Matters(f) && FirstFor(records, r, f, iso)
    ensures var w, c := Granted(records[r], iso), CaseOf(f).value;
            && w.Some?
            && (w.value.severity != "" && w.value.severity != c.severity <==> OtherSeverity(records[r], f))
            && (w.value.expires < today <==> Over(records[r], iso, today))
  {
    hide Strip, Lower, Granted, CaseOf, Relevant, IsFor;
    GrantedExactly(records[r], iso);
    CaseExactly(f);
    LowerNone(Strip(records[r]["severity"]));
  }

  lemma {:induction false} DrawsExactly(
      records: seq<E.Record>, findings: seq<Finding>, cases: seq<Case>, k: nat, iso: Calendar, today: int, p: Problem)
    requires Cases(findings) == Some(cases) && k < |findings| == |cases|
    ensures Complains(Grants(records, iso), cases, k, today, p) <==> Draws(records, findings, k, iso, today, p)
  {
    DecidingExactly(findings, cases, k);
    var f := findings[k];
    if Matters(f) {
      forall r: nat
        ensures FirstWith(Grants(records, iso), r, cases[k].key) <==> FirstFor(records, r, f, iso)
        ensures FirstFor(records, r, f, iso) ==>
                  && r < |records| && Granted(records[r], iso).Some?
                  && var w := Granted(records[r], iso).value;
                     && (w.severity != "" && w.severity != cases[k].severity <==> OtherSeverity(records[r], f))
                     && (w.expires < today <==> Over(records[r], iso, today))
      {
        FirstForExactly(records, r, f, iso);
        if FirstFor(records, r, f, iso) { FirstHas(records, r, f, iso, today); }
      }
    }
    hide Cases, CaseOf, Relevant, Matters, FirstWith, FirstFor, Granted, OtherSeverity, Over, Decides, Deciding;
  }

  /** What the gate complains about, for every kind of complaint: a record that is not good; a good one whose package
      and advisory an earlier good one has; a finding that matters and has no id; and, for the first finding of each
      package and advisory, that no record is for it, or that the first such record is for another severity or over. */
  lemma {:induction false} ProblemsExactly(
      records: seq<E.Record>, findings: seq<Finding>, cases: seq<Case>, iso: Calendar, today: int, p: Problem)
    requires Cases(findings) == Some(cases)
    ensures var grants := Grants(records, iso);
            p in IndexProblems(grants) + Judged(cases, Indexed(grants), today) <==>
              || (exists k | 0 <= k < |records| :: BadRecord(records, k, iso, p))
              || (exists k | 0 <= k < |findings| :: Draws(records, findings, k, iso, today, p))
  {
    hide Cases, Granted, Indexed, Judged, IndexProblems, Complains, Faulty, Draws, BadRecord;
    var grants := Grants(records, iso);
    IndexProblemsHas(grants, p);
    JudgedHas(grants, cases, today, p);
    CasesExactly(findings);
    forall k | 0 <= k < |records| ensures Faulty(grants, k, p) <==> BadRecord(records, k, iso, p) {
      BadExactly(records, k, iso, p);
    }
    forall k | 0 <= k < |findings|
      ensures Complains(grants, cases, k, today, p) <==> Draws(records, findings, k, iso, today, p)
    {
      DrawsExactly(records, findings, cases, k, iso, today, p);
    }
  }
}
