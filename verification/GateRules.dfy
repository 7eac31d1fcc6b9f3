/** The audit gate in terms of the exception records and the findings themselves. */
module GateRules {
  import opened PyText
  import opened AuditFindings
  import opened AuditGate
  import E = ExceptionList

  predicate Filled(r: E.Record, name: string) { name in r && r[name] != "" }

  /** All five fields are there, the date is valid, and package and advisory are not blank. */
  predicate GoodRecord(r: E.Record, iso: Calendar) {
    && Filled(r, "package") && Filled(r, "advisory") && Filled(r, "severity") && Filled(r, "mitigation")
    && Filled(r, "expires_on")
    && iso(r["expires_on"]).Some? && Strip(r["package"]) != "" && Strip(r["advisory"]) != ""
  }

  /** Packages are compared without the space around them, advisories also without regard to case. */
  predicate SameRecordKey(r: E.Record, s: E.Record)
    requires "package" in r && "advisory" in r && "package" in s && "advisory" in s
  {
    Strip(r["package"]) == Strip(s["package"]) && Lower(Strip(r["advisory"])) == Lower(Strip(s["advisory"]))
  }

  /** High or critical, however it is written, and with a name. */
  predicate Matters(f: Finding) {
    && Truthy(f.name) && f.severity.Text?
    && (Lower(Strip(f.severity.s)) == "high" || Lower(Strip(f.severity.s)) == "critical")
  }

  function IdOf(f: Finding): string { if f.advisory == Null then "" else Lower(Strip(Show(f.advisory))) }

  predicate SameFindingKey(f: Finding, g: Finding) { Strip(Show(f.name)) == Strip(Show(g.name)) && IdOf(f) == IdOf(g) }

  /** The record is for this package and advisory, for this severity or one that is blank, and has not expired. */
  predicate Allows(r: E.Record, f: Finding, iso: Calendar, today: int)
    requires GoodRecord(r, iso) && f.severity.Text?
  {
    && Strip(r["package"]) == Strip(Show(f.name)) && Lower(Strip(r["advisory"])) == IdOf(f)
    && (Strip(r["severity"]) == "" || Lower(Strip(r["severity"])) == Lower(Strip(f.severity.s)))
    && today <= iso(r["expires_on"]).value
  }

  ghost predicate RecordsGood(records: seq<E.Record>, iso: Calendar) {
    && (forall k | 0 <= k < |records| :: GoodRecord(records[k], iso))
    && (forall i, j | 0 <= i < j < |records| :: !SameRecordKey(records[i], records[j]))
  }

  ghost predicate Allowed(records: seq<E.Record>, f: Finding, iso: Calendar, today: int)
    requires RecordsGood(records, iso) && f.severity.Text?
  {
    exists r | 0 <= r < |records| :: Allows(records[r], f, iso, today)
  }

  /** The first finding that matters, of each package and advisory, has an id and is allowed by some record. */
  ghost predicate Cleared(records: seq<E.Record>, findings: seq<Finding>, k: nat, iso: Calendar, today: int)
    requires RecordsGood(records, iso) && k < |findings|
  {
    Matters(findings[k]) ==>
      && IdOf(findings[k]) != ""
      && ((forall j | 0 <= j < k && Matters(findings[j]) :: !SameFindingKey(findings[j], findings[k])) ==>
            Allowed(records, findings[k], iso, today))
  }

  // ----- The gate's own notions

  lemma LowerNone(s: string)
    ensures Lower(s) == "" <==> s == ""
  {
    assert |Lower(s)| == |s|;
  }

  lemma {:induction false} GrantedExactly(r: E.Record, iso: Calendar)
    ensures Granted(r, iso).Some? <==> GoodRecord(r, iso)
    ensures GoodRecord(r, iso) ==>
              Granted(r, iso).value == Waiver(Key(Strip(r["package"]), Lower(Strip(r["advisory"]))),
                                              Lower(Strip(r["severity"])), iso(r["expires_on"]).value)
  {
    hide Strip, Lower;
    LowerNone(Strip(Field(r, "advisory")));
  }

  lemma {:induction false} CasesExactly(findings: seq<Finding>)
    ensures Cases(findings).Some? <==> forall k | 0 <= k < |findings| :: CaseOf(findings[k]).Some?
    ensures Cases(findings).Some? ==>
              && |Cases(findings).value| == |findings|
              && forall k | 0 <= k < |findings| :: Some(Cases(findings).value[k]) == CaseOf(findings[k])
    decreases |findings|
  {
    hide CaseOf;
    if findings != [] {
      var n := |findings| - 1;
      CasesExactly(findings[..n]);
      assert forall k | 0 <= k < n :: findings[..n][k] == findings[k];
    }
  }

  /** The tool raises over a severity that is neither false nor a string. */
  lemma {:induction false} RaisesExactly(findings: seq<Finding>)
    ensures Cases(findings).Some? <==>
              forall k | 0 <= k < |findings| :: !Truthy(findings[k].severity) || findings[k].severity.Text?
  {
    hide Strip, Lower, Cases;
    CasesExactly(findings);
    forall k | 0 <= k < |findings|
      ensures CaseOf(findings[k]).Some? <==> !Truthy(findings[k].severity) || findings[k].severity.Text? {}
  }

  lemma {:induction false} CaseExactly(f: Finding)
    requires CaseOf(f).Some?
    ensures var c := CaseOf(f).value;
            && (Relevant(c) <==> Matters(f))
            && (Matters(f) ==> c == Case(Lower(Strip(f.severity.s)), true, Key(Strip(Show(f.name)), IdOf(f))))
  {
    hide Strip;
    if !Truthy(f.severity) && f.severity.Text? { EmptySeverity(); }
  }

  lemma EmptySeverity()
    ensures Lower(Strip("")) == ""
  {
  }

  lemma {:induction false} WaivesExactly(r: E.Record, f: Finding, iso: Calendar, today: int)
    requires GoodRecord(r, iso) && CaseOf(f).Some? && Matters(f)
    ensures Granted(r, iso).Some? && (Waives(Granted(r, iso).value, CaseOf(f).value, today) <==> Allows(r, f, iso, today))
  {
    hide Strip, Lower, Granted, CaseOf, Relevant, GoodRecord;
    GrantedExactly(r, iso);
    CaseExactly(f);
    assert "package" in r && "advisory" in r && "severity" in r && "expires_on" in r && iso(r["expires_on"]).Some?
      by { FieldsThere(r, iso); }
    LowerNone(Strip(r["severity"]));
  }

  lemma FieldsThere(r: E.Record, iso: Calendar)
    requires GoodRecord(r, iso)
    ensures "package" in r && "advisory" in r && "severity" in r && "expires_on" in r && iso(r["expires_on"]).Some?
  {
  }

  lemma {:induction false} FormedExactly(records: seq<E.Record>, iso: Calendar)
    ensures WellFormed(Grants(records, iso)) <==> RecordsGood(records, iso)
  {
    hide Strip, Lower, Granted, GoodRecord;
    var grants := Grants(records, iso);
    forall k | 0 <= k < |records| ensures grants[k].Some? <==> GoodRecord(records[k], iso) {
      GrantedExactly(records[k], iso);
    }
    if forall k | 0 <= k < |records| :: GoodRecord(records[k], iso) {
      forall k | 0 <= k < |records| { FieldsThere(records[k], iso); }
      forall i, j | 0 <= i < j < |records|
        ensures grants[i].value.key == grants[j].value.key <==> SameRecordKey(records[i], records[j])
      {
        GrantedExactly(records[i], iso);
        GrantedExactly(records[j], iso);
      }
    }
  }

  lemma {:induction false} WaivedExactly(records: seq<E.Record>, f: Finding, iso: Calendar, today: int)
    requires RecordsGood(records, iso) && CaseOf(f).Some? && Matters(f)
    ensures Waived(Grants(records, iso), CaseOf(f).value, today) <==> Allowed(records, f, iso, today)
  {
    assert f.severity.Text?;
    hide Waives, Allows, CaseOf, Matters, Granted, GoodRecord, SameRecordKey;
    var grants := Grants(records, iso);
    forall r | 0 <= r < |records|
      ensures grants[r].Some? && (Waives(grants[r].value, CaseOf(f).value, today) <==> Allows(records[r], f, iso, today))
    {
      WaivesExactly(records[r], f, iso, today);
    }
  }

  lemma {:induction false} SettledExactly(
      records: seq<E.Record>, findings: seq<Finding>, cases: seq<Case>, k: nat, iso: Calendar, today: int)
    requires RecordsGood(records, iso) && Cases(findings) == Some(cases) && k < |findings| == |cases|
    ensures Settled(Grants(records, iso), cases, k, today) <==> Cleared(records, findings, k, iso, today)
  {
    hide Cases, CaseOf, Relevant, Matters, Waived, Allowed, RecordsGood, Grants;
    CasesExactly(findings);
    forall j | 0 <= j <= k
      ensures CaseOf(findings[j]).Some? && cases[j] == CaseOf(findings[j]).value
      ensures Relevant(cases[j]) <==> Matters(findings[j])
      ensures Matters(findings[j]) ==> cases[j].key == Key(Strip(Show(findings[j].name)), IdOf(findings[j]))
    {
      CaseExactly(findings[j]);
    }
    if Matters(findings[k]) { WaivedExactly(records, findings[k], iso, today); }
  }

  /** The gate lets a report pass exactly when every record of the list is complete, dated and the only one for its
      package and advisory, and the first high or critical finding of each package and advisory is allowed by one. */
  lemma {:induction false} PassesExactly(
      records: seq<E.Record>, findings: seq<Finding>, cases: seq<Case>, iso: Calendar, today: int)
    requires Cases(findings) == Some(cases)
    ensures Passes(Grants(records, iso), cases, today) <==>
              RecordsGood(records, iso) && forall k | 0 <= k < |findings| :: Cleared(records, findings, k, iso, today)
  {
    hide Cases, Settled, Cleared, RecordsGood, WellFormed, Grants;
    CasesExactly(findings);
    FormedExactly(records, iso);
    if RecordsGood(records, iso) {
      forall k | 0 <= k < |findings|
        ensures Settled(Grants(records, iso), cases, k, today) <==> Cleared(records, findings, k, iso, today)
      {
        SettledExactly(records, findings, cases, k, iso, today);
      }
    }
  }
}
