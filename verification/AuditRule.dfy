// The gate's rule in the terms of the exception file and the audit report,
// and exactly when the gate decides it.
module AuditRule {
  import opened Prelude
  import opened AuditParser
  import opened AuditGate
  import opened AuditGateLaws
  import AuditReport

  // Normal forms are stable

  lemma LowerIsStable(s: string)
    ensures Lower(Lower(s)) == Lower(s)
    ensures Stripped(Lower(s)) <==> Stripped(s)
  {
  }

  lemma NormalIsStable(s: string)
    ensures Normal(Normal(s)) == Normal(s)
    ensures Strip(Strip(s)) == Strip(s)
  {
    var core := Strip(s);
    StripIsStripped(s);
    LowerIsStable(core);
    StripStripped(core);
    StripStripped(Lower(core));
  }

  // The rule, in the terms of the two files

  /** The same letters, in any case. */
  predicate SameLetter(c: char, d: char) {
    || c == d
    || ('A' <= c <= 'Z' && d as int == c as int + 32)
    || ('A' <= d <= 'Z' && c as int == d as int + 32)
  }

  predicate SameButCase(a: string, b: string) {
    |a| == |b| && forall i :: 0 <= i < |a| ==> SameLetter(a[i], b[i])
  }

  predicate Has(exc: Record, field: string) {
    field in exc && exc[field] != ""
  }

  /** The five fields are there, the date is one, and package and advisory are not blank. */
  predicate Usable(exc: Record, parseDate: DateReader) {
    && Has(exc, "package") && Has(exc, "advisory") && Has(exc, "severity") && Has(exc, "mitigation")
    && Has(exc, "expires_on") && parseDate(exc["expires_on"]).Some?
    && Strip(exc["package"]) != "" && Strip(exc["advisory"]) != ""
  }

  /** A named vulnerability reported as high or critical, in any case and with any white space around it. */
  predicate HighOrCritical(v: Vuln) {
    && v.severity.Some? && v.name != Null && v.name != Text("") && v.name != Number(0)
    && (SameButCase(Strip(v.severity.value), "high") || SameButCase(Strip(v.severity.value), "critical"))
  }

  /** The same package to the letter, and the same advisory in any case. */
  predicate SameKey(exc: Record, v: Vuln, parseDate: DateReader)
    requires Usable(exc, parseDate)
  {
    && Strip(exc["package"]) == Strip(Str(v.name))
    && SameButCase(Strip(exc["advisory"]), Strip(Str(v.advisory)))
  }

  /** Same package and advisory, same severity unless the exception's is blank, and not expired. */
  predicate Covers(exc: Record, v: Vuln, today: int, parseDate: DateReader)
    requires Usable(exc, parseDate)
  {
    var severity := Strip(exc["severity"]);
    && SameKey(exc, v, parseDate)
    && (severity == "" || (v.severity.Some? && SameButCase(severity, Strip(v.severity.value))))
    && today <= parseDate(exc["expires_on"]).value
  }

  ghost predicate UsableAndDistinct(exceptions: seq<Record>, parseDate: DateReader) {
    && (forall i :: 0 <= i < |exceptions| ==> Usable(exceptions[i], parseDate))
    && (forall i, j :: 0 <= i < j < |exceptions| ==>
          Strip(exceptions[i]["package"]) != Strip(exceptions[j]["package"]) ||
          !SameButCase(Strip(exceptions[i]["advisory"]), Strip(exceptions[j]["advisory"])))
  }

  ghost predicate SomeCovers(exceptions: seq<Record>, v: Vuln, today: int, parseDate: DateReader)
    requires UsableAndDistinct(exceptions, parseDate)
  {
    exists j :: 0 <= j < |exceptions| && Covers(exceptions[j], v, today, parseDate)
  }

  /** Nothing is asked of other severities, an advisory and an exception of the high and critical. */
  ghost predicate Permits(exceptions: seq<Record>, v: Vuln, today: int, parseDate: DateReader)
    requires UsableAndDistinct(exceptions, parseDate)
  {
    HighOrCritical(v) ==> Strip(Str(v.advisory)) != "" && SomeCovers(exceptions, v, today, parseDate)
  }

  ghost predicate Approves(exceptions: seq<Record>, vulns: seq<Vuln>, today: int, parseDate: DateReader) {
    && UsableAndDistinct(exceptions, parseDate)
    && forall i :: 0 <= i < |vulns| ==> Permits(exceptions, vulns[i], today, parseDate)
  }

  // What the loops make of the two files

  function VulnKey(v: Vuln): Key {
    (NormalizePackage(v.name), NormalizeAdvisory(v.advisory))
  }

  /** Lower-casing forgets the case of ASCII letters and nothing else. */
  lemma LowerExact(a: string, b: string)
    ensures Lower(a) == Lower(b) <==> SameButCase(a, b)
  {
    if |a| == |b| {
      forall i | 0 <= i < |a|
        ensures Lower(a)[i] == Lower(b)[i] <==> SameLetter(a[i], b[i])
      {
        LowerCharExact(a[i], b[i]);
      }
      if SameButCase(a, b) {
        assert Lower(a) == Lower(b);
      }
    }
  }

  lemma LowerCharExact(c: char, d: char)
    ensures LowerChar(c) == LowerChar(d) <==> SameLetter(c, d)
  {
  }

  lemma SeverityNames()
    ensures Normal("high") == "high" && Normal("critical") == "critical"
    ensures Strip("high") == "high" && Strip("critical") == "critical"
  {
    StripStripped("high");
    StripStripped("critical");
    assert Lower("high") == "high" && Lower("critical") == "critical";
  }

  lemma BlankLower(s: string)
    ensures Normal(s) == "" <==> Strip(s) == ""
  {
  }

  lemma SeverityMeans(v: Vuln)
    ensures NormalizeSeverity(v.severity) in HIGH_SEVERITIES && Truthy(v.name) <==> HighOrCritical(v)
  {
    SeverityNames();
    if v.severity.Some? {
      LowerExact(Strip(v.severity.value), "high");
      LowerExact(Strip(v.severity.value), "critical");
    } else {
      assert |"high"| == 4 && |"critical"| == 8;
    }
  }

  lemma LookMeans(v: Vuln)
    ensures Look(v).Minor? <==> !HighOrCritical(v)
    ensures Look(v).NoAdvisory? <==> HighOrCritical(v) && Strip(Str(v.advisory)) == ""
    ensures Look(v).NoAdvisory? ==> Look(v).name == Str(v.name)
    ensures Look(v).Serious? ==> Look(v) == Serious(VulnKey(v), NormalizeSeverity(v.severity))
  {
    SeverityMeans(v);
    BlankLower(Str(v.advisory));
  }

  lemma CompleteMeans(exc: Record)
    ensures Complete(exc) <==>
            Has(exc, "package") && Has(exc, "advisory") && Has(exc, "severity") && Has(exc, "mitigation")
            && Has(exc, "expires_on")
  {
    if Complete(exc) {
      assert "package" in REQUIRED_FIELDS && "advisory" in REQUIRED_FIELDS && "severity" in REQUIRED_FIELDS;
      assert "mitigation" in REQUIRED_FIELDS && "expires_on" in REQUIRED_FIELDS;
    }
  }

  /** The loop over the exceptions rejects one exactly when it is not usable, and the first of four reasons is given. */
  lemma CheckMeans(exc: Record, parseDate: DateReader)
    ensures var checked := Check(parseDate, exc);
            && (checked == MissingFields <==> !Complete(exc))
            && (checked == InvalidDate <==> Complete(exc) && parseDate(exc["expires_on"]).None?)
            && (checked == BlankKey <==> Complete(exc) && parseDate(exc["expires_on"]).Some? &&
                                         (Strip(exc["package"]) == "" || Strip(exc["advisory"]) == ""))
            && (checked.Entry? <==> Usable(exc, parseDate))
            && (checked.Entry? ==>
                  checked == Checked.Entry(KeyOf(exc), Normal(exc["severity"]), parseDate(exc["expires_on"]).value))
  {
    CompleteMeans(exc);
    if Complete(exc) {
      BlankLower(exc["advisory"]);
    }
  }

  lemma KeysMean(a: Record, b: Record)
    requires "package" in a && "advisory" in a && "package" in b && "advisory" in b
    ensures KeyOf(a) == KeyOf(b) <==>
            Strip(a["package"]) == Strip(b["package"]) && SameButCase(Strip(a["advisory"]), Strip(b["advisory"]))
  {
    LowerExact(Strip(a["advisory"]), Strip(b["advisory"]));
  }

  lemma SameKeyMeans(exc: Record, v: Vuln, parseDate: DateReader)
    requires Usable(exc, parseDate)
    ensures SameKey(exc, v, parseDate) <==> KeyOf(exc) == VulnKey(v)
  {
    LowerExact(Strip(exc["advisory"]), Strip(Str(v.advisory)));
  }

  lemma CoversMeans(exc: Record, v: Vuln, today: int, parseDate: DateReader)
    requires Usable(exc, parseDate)
    ensures var severity := Normal(exc["severity"]);
            Covers(exc, v, today, parseDate) <==>
            KeyOf(exc) == VulnKey(v) && (severity == "" || severity == NormalizeSeverity(v.severity))
            && today <= parseDate(exc["expires_on"]).value
  {
    SameKeyMeans(exc, v, parseDate);
    BlankLower(exc["severity"]);
    if v.severity.Some? {
      LowerExact(Strip(exc["severity"]), Strip(v.severity.value));
    }
  }

  function ReportOf(key: Key, severity: string): Vuln {
    Vuln(Text(key.0), Some(severity), Text(key.1))
  }

  lemma ReportIsSerious(exc: Record, severity: string, parseDate: DateReader)
    requires Usable(exc, parseDate) && (severity == "high" || severity == "critical")
    ensures HighOrCritical(ReportOf(KeyOf(exc), severity)) && SameKey(exc, ReportOf(KeyOf(exc), severity), parseDate)
  {
    SeverityNames();
    NormalIsStable(exc["package"]);
    NormalIsStable(exc["advisory"]);
    SameKeyMeans(exc, ReportOf(KeyOf(exc), severity), parseDate);
  }

  /**
   * The severity of an exception is required to be there, not to say anything: written as
   * quoted blanks it covers the high and the critical report of its key alike, and
   * nothing else does.
   */
  lemma BlankSeverityCoversAll(exc: Record, today: int, parseDate: DateReader)
    requires Usable(exc, parseDate) && today <= parseDate(exc["expires_on"]).value
    ensures (forall v :: HighOrCritical(v) && SameKey(exc, v, parseDate) ==> Covers(exc, v, today, parseDate)) <==>
            Strip(exc["severity"]) == ""
  {
    SeverityNames();
    var high, critical := ReportOf(KeyOf(exc), "high"), ReportOf(KeyOf(exc), "critical");
    ReportIsSerious(exc, "high", parseDate);
    ReportIsSerious(exc, "critical", parseDate);
    if Strip(exc["severity"]) != "" {
      assert !Covers(exc, high, today, parseDate) || !Covers(exc, critical, today, parseDate) by {
        assert |"high"| != |"critical"|;
      }
    }
  }

  predicate Identifies(v: Vuln) {
    HighOrCritical(v) && Strip(Str(v.advisory)) != ""
  }

  /** Two reports of one package and advisory. */
  predicate SameReport(v: Vuln, w: Vuln) {
    Strip(Str(v.name)) == Strip(Str(w.name)) && SameButCase(Strip(Str(v.advisory)), Strip(Str(w.advisory)))
  }

  /** High and critical reports of one package and advisory agree on the severity, case aside. */
  ghost predicate OneSeverityEach(vulns: seq<Vuln>) {
    forall i, j :: 0 <= i < j < |vulns| && Identifies(vulns[i]) && Identifies(vulns[j]) && SameReport(vulns[i], vulns[j]) ==>
      SameButCase(Strip(vulns[i].severity.value), Strip(vulns[j].severity.value))
  }

  /** No high or critical report lacks what an exception would have to name. */
  ghost predicate AllNamed(vulns: seq<Vuln>) {
    forall i :: 0 <= i < |vulns| && HighOrCritical(vulns[i]) ==>
      Strip(Str(vulns[i].name)) != "" && Strip(Str(vulns[i].advisory)) != ""
  }

  lemma AllNamedMeans(vulns: seq<Vuln>)
    ensures Identified(Map(Look, vulns)) <==> AllNamed(vulns)
  {
    var found := Map(Look, vulns);
    forall i | 0 <= i < |vulns|
      ensures !found[i].NoAdvisory? && (found[i].Serious? ==> found[i].key.0 != "") <==>
              (HighOrCritical(vulns[i]) ==> Strip(Str(vulns[i].name)) != "" && Strip(Str(vulns[i].advisory)) != "")
    {
      LookMeans(vulns[i]);
    }
  }

  lemma OneSeverityMeans(vulns: seq<Vuln>)
    ensures OneSeverity(Map(Look, vulns)) <==> OneSeverityEach(vulns)
  {
    var found := Map(Look, vulns);
    forall i | 0 <= i < |vulns|
      ensures found[i].Serious? <==> Identifies(vulns[i])
      ensures found[i].Serious? ==> found[i] == Serious(VulnKey(vulns[i]), NormalizeSeverity(vulns[i].severity))
    {
      LookMeans(vulns[i]);
    }
    forall i, j | 0 <= i < j < |vulns| && Identifies(vulns[i]) && Identifies(vulns[j])
      ensures found[i].key == found[j].key <==> SameReport(vulns[i], vulns[j])
      ensures found[i].severity == found[j].severity <==>
              SameButCase(Strip(vulns[i].severity.value), Strip(vulns[j].severity.value))
    {
      LowerExact(Strip(Str(vulns[i].advisory)), Strip(Str(vulns[j].advisory)));
      LowerExact(Strip(vulns[i].severity.value), Strip(vulns[j].severity.value));
    }
  }

  lemma ExceptionsMean(exceptions: seq<Record>, parseDate: DateReader)
    ensures var checked := CheckAll(parseDate, exceptions);
            AllEntries(checked) && KeysDiffer(checked) <==> UsableAndDistinct(exceptions, parseDate)
  {
    var checked := CheckAll(parseDate, exceptions);
    forall i | 0 <= i < |exceptions|
      ensures checked[i].Entry? <==> Usable(exceptions[i], parseDate)
      ensures checked[i].Entry? ==> checked[i].key == KeyOf(exceptions[i])
    {
      CheckMeans(exceptions[i], parseDate);
    }
    forall i, j | 0 <= i < j < |exceptions| && checked[i].Entry? && checked[j].Entry?
      ensures checked[i].key != checked[j].key <==>
              Strip(exceptions[i]["package"]) != Strip(exceptions[j]["package"]) ||
              !SameButCase(Strip(exceptions[i]["advisory"]), Strip(exceptions[j]["advisory"]))
    {
      KeysMean(exceptions[i], exceptions[j]);
    }
  }

  lemma PermitsMeans(exceptions: seq<Record>, v: Vuln, today: int, parseDate: DateReader)
    requires UsableAndDistinct(exceptions, parseDate)
    ensures Permits(exceptions, v, today, parseDate) <==> Allowed(CheckAll(parseDate, exceptions), Look(v), today)
  {
    var checked := CheckAll(parseDate, exceptions);
    LookMeans(v);
    forall j | 0 <= j < |exceptions|
      ensures checked[j] == Checked.Entry(KeyOf(exceptions[j]), Normal(exceptions[j]["severity"]),
                                          parseDate(exceptions[j]["expires_on"]).value)
      ensures Covers(exceptions[j], v, today, parseDate) <==>
              KeyOf(exceptions[j]) == VulnKey(v)
              && (checked[j].severity == "" || checked[j].severity == NormalizeSeverity(v.severity))
              && today <= checked[j].expires
    {
      CheckMeans(exceptions[j], parseDate);
      CoversMeans(exceptions[j], v, today, parseDate);
    }
  }

  /** The rule over the two files is the rule over what the loops make of them. */
  lemma RuleMeans(exceptions: seq<Record>, vulns: seq<Vuln>, today: int, parseDate: DateReader)
    ensures Approves(exceptions, vulns, today, parseDate) <==>
            Accepts(CheckAll(parseDate, exceptions), Map(Look, vulns), today)
  {
    var found := Map(Look, vulns);
    ExceptionsMean(exceptions, parseDate);
    if UsableAndDistinct(exceptions, parseDate) {
      forall i | 0 <= i < |vulns|
        ensures Permits(exceptions, vulns[i], today, parseDate) <==>
                Allowed(CheckAll(parseDate, exceptions), found[i], today)
      {
        PermitsMeans(exceptions, vulns[i], today, parseDate);
      }
    }
  }

  lemma GateMeets(exceptions: seq<Record>, vulns: seq<Vuln>, today: int, parseDate: DateReader)
    ensures Approves(exceptions, vulns, today, parseDate) ==> ExitCode(exceptions, vulns, today, parseDate) == 0
    ensures OneSeverity(Map(Look, vulns)) ==>
              (ExitCode(exceptions, vulns, today, parseDate) == 0 <==> Approves(exceptions, vulns, today, parseDate))
  {
    RuleMeans(exceptions, vulns, today, parseDate);
    VerdictMeetsRule(CheckAll(parseDate, exceptions), Map(Look, vulns), today);
  }

  /**
   * The gate decides its rule: whatever the rule approves passes, and when all
   * high and critical reports of one package and advisory agree on the
   * severity nothing else does.
   */
  lemma GateDecides(exceptions: seq<Record>, vulns: seq<Vuln>, today: int, parseDate: DateReader)
    ensures Approves(exceptions, vulns, today, parseDate) ==> ExitCode(exceptions, vulns, today, parseDate) == 0
    ensures OneSeverityEach(vulns) ==>
              (ExitCode(exceptions, vulns, today, parseDate) == 0 <==> Approves(exceptions, vulns, today, parseDate))
  {
    OneSeverityMeans(vulns);
    GateMeets(exceptions, vulns, today, parseDate);
  }

  // When the hypothesis is needed

  /** An exception written for one serious report. */
  function Waiver(key: Key, severity: string, date: string): Record {
    map["package" := key.0, "advisory" := key.1, "severity" := severity, "mitigation" := "none", "expires_on" := date]
  }

  ghost predicate NormalKey(key: Key) {
    Strip(key.0) == key.0 && Normal(key.1) == key.1 && key.0 != "" && key.1 != ""
  }

  lemma WaiverFields(key: Key, severity: string, date: string)
    ensures var exc := Waiver(key, severity, date);
            && Get(exc, "package") == key.0 && Get(exc, "advisory") == key.1 && Get(exc, "severity") == severity
            && Get(exc, "mitigation") == "none" && Get(exc, "expires_on") == date
  {
  }

  lemma WaiverIsComplete(key: Key, severity: string, date: string)
    requires key.0 != "" && key.1 != "" && severity != "" && date != ""
    ensures Complete(Waiver(key, severity, date))
  {
  }

  lemma WaiverChecks(key: Key, severity: string, date: string, parseDate: DateReader)
    requires NormalKey(key) && Normal(severity) == severity != "" && date != "" && parseDate(date).Some?
    ensures Check(parseDate, Waiver(key, severity, date)) == Checked.Entry(key, severity, parseDate(date).value)
  {
    WaiverFields(key, severity, date);
    WaiverIsComplete(key, severity, date);
  }

  /** One exception for the first report of every key, none for the later ones. */
  function Waivers(waive: Found -> Record, found: seq<Found>): seq<Record> {
    if found == [] then []
    else
      Waivers(waive, found[..|found| - 1]) + if NewKey(found) then [waive(found[|found| - 1])] else []
  }

  function WaiverFor(date: string): Found -> Record {
    (f: Found) => if f.Serious? then Waiver(f.key, f.severity, date) else map[]
  }

  /** What the scan can hold: severities and keys in normal form. */
  ghost predicate Normalised(found: seq<Found>) {
    forall i :: 0 <= i < |found| && found[i].Serious? ==>
      Normal(found[i].severity) == found[i].severity != "" && NormalKey(found[i].key)
  }

  /** Every serious report can be named by an exception. */
  ghost predicate Identified(found: seq<Found>) {
    forall i :: 0 <= i < |found| ==> !found[i].NoAdvisory? && (found[i].Serious? ==> found[i].key.0 != "")
  }

  lemma LookIsNormal(vulns: seq<Vuln>)
    requires Identified(Map(Look, vulns))
    ensures Normalised(Map(Look, vulns))
  {
    forall i | 0 <= i < |vulns| && Look(vulns[i]).Serious?
      ensures Normal(Look(vulns[i]).severity) == Look(vulns[i]).severity != "" && NormalKey(Look(vulns[i]).key)
    {
      assert Map(Look, vulns)[i] == Look(vulns[i]);
      assert |"high"| == 4 && |"critical"| == 8;
      NormalIsStable(vulns[i].severity.value);
      LookMeans(vulns[i]);
      NormalIsStable(Str(vulns[i].name));
      NormalIsStable(Str(vulns[i].advisory));
    }
  }

  function FirstEntries(found: seq<Found>, day: int): seq<Checked> {
    if found == [] then []
    else
      var init, last := found[..|found| - 1], found[|found| - 1];
      FirstEntries(init, day) + if NewKey(found) then [Checked.Entry(last.key, last.severity, day)] else []
  }

  lemma {:induction false} WaiversMapped(waive: Found -> Record, check: Record -> Checked, found: seq<Found>, day: int)
    requires forall i :: 0 <= i < |found| && found[i].Serious? ==>
      check(waive(found[i])) == Checked.Entry(found[i].key, found[i].severity, day)
    ensures Map(check, Waivers(waive, found)) == FirstEntries(found, day)
  {
    if found != [] {
      var n := |found| - 1;
      var init := found[..n];
      assert forall i :: 0 <= i < n ==> init[i] == found[i];
      WaiversMapped(waive, check, init, day);
      if NewKey(found) {
        MapAppend(check, Waivers(waive, init), [waive(found[n])]);
      } else {
        assert Waivers(waive, found) == Waivers(waive, init);
      }
    }
  }

  lemma WaiversCheck(found: seq<Found>, date: string, parseDate: DateReader)
    requires Normalised(found) && date != "" && parseDate(date).Some?
    ensures CheckAll(parseDate, Waivers(WaiverFor(date), found)) == FirstEntries(found, parseDate(date).value)
  {
    var check := (exc: Record) => Check(parseDate, exc);
    var waive := WaiverFor(date);
    forall i | 0 <= i < |found| && found[i].Serious?
      ensures check(waive(found[i])) == Checked.Entry(found[i].key, found[i].severity, parseDate(date).value)
    {
      WaiverChecks(found[i].key, found[i].severity, date, parseDate);
    }
    WaiversMapped(waive, check, found, parseDate(date).value);
    assert CheckAll(parseDate, Waivers(waive, found)) == Map(check, Waivers(waive, found));
  }

  lemma {:induction false} FirstEntriesIndex(found: seq<Found>, day: int)
    ensures var checked := FirstEntries(found, day);
            && AllEntries(checked) && KeysDiffer(checked)
            && forall j :: 0 <= j < |checked| ==> checked[j].key in SeenKeys(found) && checked[j].expires == day
  {
    if found != [] {
      var init, last := found[..|found| - 1], found[|found| - 1];
      FirstEntriesIndex(init, day);
      assert found == init + [last];
      SeenKeysSnoc(init, last);
      if NewKey(found) {
        KeysDifferSnoc(FirstEntries(init, day), Checked.Entry(last.key, last.severity, day));
      }
    }
  }

  lemma {:induction false} FirstEntriesListed(found: seq<Found>, day: int, i: nat)
    requires i < |found| && First(found, i)
    ensures Checked.Entry(found[i].key, found[i].severity, day) in FirstEntries(found, day)
  {
    var n := |found| - 1;
    if i == n {
      NewKeyIsFirst(found);
      var before := FirstEntries(found[..n], day);
      assert FirstEntries(found, day)[|before|] == Checked.Entry(found[i].key, found[i].severity, day);
    } else {
      FirstPrefix(found, n, i);
      FirstEntriesListed(found[..n], day, i);
    }
  }

  /** The waivers pass, whatever the later reports say. */
  lemma FirstEntriesPass(found: seq<Found>, day: int)
    requires forall i :: 0 <= i < |found| ==> !found[i].NoAdvisory?
    ensures Verdict(FirstEntries(found, day), found, day) == 0
  {
    var checked := FirstEntries(found, day);
    FirstEntriesIndex(found, day);
    VerdictExact(checked, found, day);
    forall i | 0 <= i < |found| && found[i].Serious?
      ensures exists j :: 0 <= j < |checked| && Unexpired(checked[j], found[i], day)
                          && (First(found, i) ==> SeverityFits(checked[j], found[i]))
    {
      var first := FirstOf(found, i);
      FirstEntriesListed(found, day, first);
      var j :| 0 <= j < |checked| && checked[j] == Checked.Entry(found[first].key, found[first].severity, day);
      assert Unexpired(checked[j], found[i], day);
      assert First(found, i) ==> first == i by {
        assert found[first].key == found[i].key;
      }
    }
  }

  /** No single exception fits two severities. */
  lemma TwoSeveritiesNeverAccepted(found: seq<Found>, day: int)
    requires !OneSeverity(found) && forall i :: 0 <= i < |found| && found[i].Serious? ==> found[i].severity != ""
    ensures !Accepts(FirstEntries(found, day), found, day)
  {
    var checked := FirstEntries(found, day);
    FirstEntriesIndex(found, day);
    FirstEntriesSeverities(found, day);
    var p, q :| 0 <= p < q < |found| && found[p].Serious? && found[q].Serious? && found[p].key == found[q].key
      && found[p].severity != found[q].severity;
  }

  lemma {:induction false} FirstEntriesSeverities(found: seq<Found>, day: int)
    requires forall i :: 0 <= i < |found| && found[i].Serious? ==> found[i].severity != ""
    ensures forall j :: 0 <= j < |FirstEntries(found, day)| ==>
              FirstEntries(found, day)[j].Entry? && FirstEntries(found, day)[j].severity != ""
  {
    if found != [] {
      var init := found[..|found| - 1];
      assert forall i :: 0 <= i < |init| ==> init[i] == found[i];
      FirstEntriesSeverities(init, day);
    }
  }

  /** No exception has a blank package, so a serious report that has one fails every file. */
  lemma UnidentifiedFails(checked: seq<Checked>, found: seq<Found>, today: int)
    requires !Identified(found)
    requires forall j :: 0 <= j < |checked| && checked[j].Entry? ==> checked[j].key.0 != ""
    ensures Verdict(checked, found, today) != 0
  {
    VerdictExact(checked, found, today);
    var i :| 0 <= i < |found| && (found[i].NoAdvisory? || (found[i].Serious? && found[i].key.0 == ""));
    assert LoopAccepts(checked, found, today) ==>
      !found[i].NoAdvisory? && exists j :: 0 <= j < |checked| && Unexpired(checked[j], found[i], today);
  }

  lemma ChecksAreNamed(exceptions: seq<Record>, parseDate: DateReader)
    ensures var checked := CheckAll(parseDate, exceptions);
            forall j :: 0 <= j < |checked| && checked[j].Entry? ==> checked[j].key.0 != ""
  {
  }

  /** The gate decides its rule for every exception file on every day. */
  ghost predicate AlwaysDecides(vulns: seq<Vuln>, parseDate: DateReader) {
    forall exceptions: seq<Record>, today: int ::
      ExitCode(exceptions, vulns, today, parseDate) == 0 <==> Approves(exceptions, vulns, today, parseDate)
  }

  lemma FoundSeveritiesDecide(vulns: seq<Vuln>, parseDate: DateReader, date: string)
    requires date != "" && parseDate(date).Some?
    ensures AlwaysDecides(vulns, parseDate) <==> OneSeverity(Map(Look, vulns)) || !Identified(Map(Look, vulns))
  {
    var found := Map(Look, vulns);
    if OneSeverity(found) || !Identified(found) {
      forall exceptions: seq<Record>, today: int
        ensures ExitCode(exceptions, vulns, today, parseDate) == 0 <==> Approves(exceptions, vulns, today, parseDate)
      {
        GateMeets(exceptions, vulns, today, parseDate);
        if !Identified(found) {
          ChecksAreNamed(exceptions, parseDate);
          UnidentifiedFails(CheckAll(parseDate, exceptions), found, today);
        }
      }
    } else {
      var waivers, day := Waivers(WaiverFor(date), found), parseDate(date).value;
      LookIsNormal(vulns);
      WaiversCheck(found, date, parseDate);
      FirstEntriesPass(found, day);
      TwoSeveritiesNeverAccepted(found, day);
      RuleMeans(waivers, vulns, day, parseDate);
      assert ExitCode(waivers, vulns, day, parseDate) == 0 && !Approves(waivers, vulns, day, parseDate);
    }
  }

  /**
   * Exactly when: for a given report the gate decides its rule for all
   * exception files if and only if the report has one severity per key, or
   * holds a serious entry no exception can name, so that nothing passes.
   */
  lemma OneSeverityIsExact(vulns: seq<Vuln>, parseDate: DateReader, date: string)
    requires date != "" && parseDate(date).Some?
    ensures AlwaysDecides(vulns, parseDate) <==> OneSeverityEach(vulns) || !AllNamed(vulns)
  {
    OneSeverityMeans(vulns);
    AllNamedMeans(vulns);
    FoundSeveritiesDecide(vulns, parseDate, date);
  }

  // The laws, over the files

  lemma CheckAllPermuted(a: seq<Record>, b: seq<Record>, parseDate: DateReader)
    requires multiset(a) == multiset(b)
    ensures multiset(CheckAll(parseDate, a)) == multiset(CheckAll(parseDate, b))
  {
    var check := (exc: Record) => Check(parseDate, exc);
    assert CheckAll(parseDate, a) == Map(check, a) && CheckAll(parseDate, b) == Map(check, b);
    MapMultiset(check, a, b);
  }

  lemma LookAmong(some: seq<Vuln>, all: seq<Vuln>)
    requires forall i :: 0 <= i < |some| ==> some[i] in all
    ensures Among(Map(Look, some), Map(Look, all))
  {
  }

  /** With one severity per key: reorder either file, or repeat reports, and the exit code stays. */
  lemma ExitCodeIgnoresOrder(exceptions: seq<Record>, reordered: seq<Record>, vulns: seq<Vuln>, other: seq<Vuln>,
                             today: int, parseDate: DateReader)
    requires multiset(exceptions) == multiset(reordered)
    requires forall i :: 0 <= i < |vulns| ==> vulns[i] in other
    requires forall i :: 0 <= i < |other| ==> other[i] in vulns
    requires OneSeverityEach(vulns)
    ensures ExitCode(exceptions, vulns, today, parseDate) == ExitCode(reordered, other, today, parseDate)
  {
    OneSeverityMeans(vulns);
    CheckAllPermuted(exceptions, reordered, parseDate);
    LookAmong(vulns, other);
    LookAmong(other, vulns);
    VerdictIgnoresOrder(CheckAll(parseDate, exceptions), CheckAll(parseDate, reordered),
                        Map(Look, vulns), Map(Look, other), today);
  }

  /** For all inputs: a pass survives going back in time and losing the last reports. */
  lemma PassSurvives(exceptions: seq<Record>, vulns: seq<Vuln>, more: seq<Vuln>, today: int, earlier: int,
                     parseDate: DateReader)
    requires ExitCode(exceptions, vulns + more, today, parseDate) == 0 && earlier <= today
    ensures ExitCode(exceptions, vulns, earlier, parseDate) == 0
  {
    MapAppend(Look, vulns, more);
    MoreReportsFail(CheckAll(parseDate, exceptions), Map(Look, vulns), Map(Look, more), today);
    EarlierPasses(CheckAll(parseDate, exceptions), Map(Look, vulns), today, earlier);
  }

  /** With one severity per key: any report with fewer vulnerabilities passes too. */
  lemma PassSurvivesRemoval(exceptions: seq<Record>, some: seq<Vuln>, all: seq<Vuln>, today: int, parseDate: DateReader)
    requires forall i :: 0 <= i < |some| ==> some[i] in all
    requires OneSeverityEach(all) && ExitCode(exceptions, all, today, parseDate) == 0
    ensures ExitCode(exceptions, some, today, parseDate) == 0
  {
    OneSeverityMeans(all);
    LookAmong(some, all);
    FewerReportsPass(CheckAll(parseDate, exceptions), Map(Look, some), Map(Look, all), today);
  }

  // The whole program

  /** A ValueError from the parser leaves the process with exit status 1. */
  function RunStatus(text: string, report: AuditReport.Report, today: int, parseDate: DateReader): int {
    if ParseText(text).None? then 1
    else ExitCode(ParseText(text).value, AuditReport.Yielded(report), today, parseDate)
  }

  method Audit(text: string, report: AuditReport.Report, today: int, parseDate: DateReader) returns (code: int)
    ensures code == RunStatus(text, report, today, parseDate)
  {
    var exceptions := ParseExceptions(Lines(text));
    if exceptions.None? {
      return 1;
    }
    var vulns := AuditReport.IterVulns(report);
    code := Gate(exceptions.value, vulns, today, parseDate);
  }

  /** The program exits with 0 or 1, and with 1 whenever an item line of the file lacks its colon. */
  lemma ExitStatus(text: string, report: AuditReport.Report, today: int, parseDate: DateReader)
    ensures RunStatus(text, report, today, parseDate) == 0 || RunStatus(text, report, today, parseDate) == 1
    ensures BadItem(Lines(text)) ==> RunStatus(text, report, today, parseDate) == 1
  {
    OneRecordPerItem(Lines(text));
  }

  lemma ReadFileDecides(text: string, dicts: seq<Record>, report: AuditReport.Report, today: int, parseDate: DateReader)
    requires ParseText(text) == Some(dicts)
    ensures OneSeverityEach(AuditReport.Yielded(report)) ==>
              (RunStatus(text, report, today, parseDate) == 0 <==>
               Approves(dicts, AuditReport.Yielded(report), today, parseDate))
  {
    GateDecides(dicts, AuditReport.Yielded(report), today, parseDate);
  }

  /** An exception file of `dicts`, written down in `records`, as a text with these lines and line ends. */
  ghost predicate WellWritten(records: seq<seq<Written>>, dicts: seq<Record>, lines: seq<string>, ends: seq<string>) {
    |records| == |dicts| &&
    (forall i :: 0 <= i < |records| ==> Renderable(records[i]) && Lists(Map(PairOf, records[i]), dicts[i])) &&
    Terminated(lines, ends) && Map(Strip, Significant(lines)) == Map(Strip, Render(records))
  }

  /** From the text of a well-written exception file to the exit status. */
  lemma FileDecides(records: seq<seq<Written>>, dicts: seq<Record>, lines: seq<string>, ends: seq<string>,
                    report: AuditReport.Report, today: int, parseDate: DateReader)
    ensures WellWritten(records, dicts, lines, ends) && OneSeverityEach(AuditReport.Yielded(report)) ==>
              (RunStatus(Unlines(lines, ends), report, today, parseDate) == 0 <==>
               Approves(dicts, AuditReport.Yielded(report), today, parseDate))
  {
    if WellWritten(records, dicts, lines, ends) {
      TextRoundTrip(records, dicts, lines, ends);
      ReadFileDecides(Unlines(lines, ends), dicts, report, today, parseDate);
    }
  }
}
