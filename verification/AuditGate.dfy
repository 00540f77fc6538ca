// The pnpm audit gate: an index of the exceptions with duplicates rejected,
// one deduplicating scan over the reported vulnerabilities, and the verdict.
module AuditGate {
  import opened Prelude
  import opened AuditParser

  /** Package and advisory, both normalised. */
  type Key = (string, string)

  // Normalisation

  function LowerChar(c: char): char {
    if 'A' <= c <= 'Z' then c + 32 as char else c
  }

  function Lower(s: string): string {
    Map(LowerChar, s)
  }

  function Normal(s: string): string {
    Lower(Strip(s))
  }

  /** A value of the audit report as it may appear in a name or identifier. */
  datatype Scalar = Null | Text(s: string) | Number(n: int)

  predicate Truthy(x: Scalar) {
    match x
    case Null => false
    case Text(s) => s != ""
    case Number(n) => n != 0
  }

  function Digits(n: nat): string {
    if n < 10 then [('0' as int + n) as char] else Digits(n / 10) + [('0' as int + n % 10) as char]
  }

  function Str(x: Scalar): string {
    match x
    case Null => ""
    case Text(s) => s
    case Number(n) => if n < 0 then "-" + Digits(-n) else Digits(n)
  }

  predicate Digit(c: char) {
    '0' <= c <= '9'
  }

  /** The number a string of digits stands for. */
  function NumberOf(s: string): int {
    if s == [] then 0 else 10 * NumberOf(s[..|s| - 1]) + (s[|s| - 1] as int - '0' as int)
  }

  /** Decimal digits without a leading zero, and nothing else. */
  lemma {:induction false} DigitsExact(n: nat)
    ensures Digits(n) != [] && NumberOf(Digits(n)) == n
    ensures forall i :: 0 <= i < |Digits(n)| ==> Digit(Digits(n)[i])
    ensures Digits(n)[0] == '0' ==> n == 0 && |Digits(n)| == 1
  {
    if n >= 10 {
      DigitsExact(n / 10);
      var init, last := Digits(n / 10), ('0' as int + n % 10) as char;
      assert Digits(n) == init + [last] && (init + [last])[..|init|] == init;
    } else {
      assert Digits(n)[..0] == [];
    }
  }

  /** Text stands for itself, a number for its decimal form, and nothing for the empty string. */
  lemma StrExact(n: int, s: string)
    ensures Str(Null) == "" && Str(Text(s)) == s
    ensures n >= 0 ==> Str(Number(n)) == Digits(n)
    ensures n < 0 ==> Str(Number(n)) == "-" + Digits(-n)
    ensures n >= 0 ==> Str(Number(n)) != [] && NumberOf(Str(Number(n))) == n
    ensures n < 0 ==> Str(Number(n))[..1] == "-" && NumberOf(Str(Number(n))[1..]) == -n
  {
    DigitsExact(if n < 0 then -n else n);
  }

  function NormalizeSeverity(severity: Option<string>): string {
    if severity.None? then "" else Normal(severity.value)
  }

  function NormalizePackage(name: Scalar): string {
    Strip(Str(name))
  }

  function NormalizeAdvisory(advisory: Scalar): string {
    Normal(Str(advisory))
  }

  const HIGH_SEVERITIES := {"high", "critical"}

  const REQUIRED_FIELDS := {"package", "advisory", "severity", "mitigation", "expires_on"}

  // One exception

  function Get(exc: Record, field: string): string {
    if field in exc then exc[field] else ""
  }

  predicate Complete(exc: Record) {
    forall field :: field in REQUIRED_FIELDS ==> Get(exc, field) != ""
  }

  /** What the index loop makes of one exception. */
  datatype Checked =
    | MissingFields
    | InvalidDate
    | BlankKey
    | Entry(key: Key, severity: string, expires: int)

  /** A reader of ISO 8601 dates, giving days in order; None for an invalid date. */
  type DateReader = string -> Option<int>

  function KeyOf(exc: Record): Key {
    (Strip(Get(exc, "package")), Normal(Get(exc, "advisory")))
  }

  function Check(parseDate: DateReader, exc: Record): Checked {
    if !Complete(exc) then MissingFields
    else
      var date := parseDate(Get(exc, "expires_on"));
      if date.None? then InvalidDate
      else
        var key := KeyOf(exc);
        if key.0 == "" || key.1 == "" then BlankKey
        else Checked.Entry(key, Normal(Get(exc, "severity")), date.value)
  }

  function CheckAll(parseDate: DateReader, exceptions: seq<Record>): (checked: seq<Checked>)
    ensures |checked| == |exceptions|
    ensures forall i :: 0 <= i < |checked| ==> checked[i] == Check(parseDate, exceptions[i])
  {
    seq(|exceptions|, i requires 0 <= i < |exceptions| => Check(parseDate, exceptions[i]))
  }

  // The index

  datatype Indexed = Indexed(severity: string, expires: int)

  datatype Finding = Rejected(why: Checked) | Duplicate(key: Key) | Unidentified(name: string) | Mismatch(key: Key)

  function Index(checked: seq<Checked>): map<Key, Indexed> {
    if checked == [] then map[]
    else
      var index, last := Index(checked[..|checked| - 1]), checked[|checked| - 1];
      if last.Entry? && last.key !in index then index[last.key := Indexed(last.severity, last.expires)] else index
  }

  function IndexFindings(checked: seq<Checked>): seq<Finding> {
    if checked == [] then []
    else
      var init, last := checked[..|checked| - 1], checked[|checked| - 1];
      IndexFindings(init) +
        if !last.Entry? then [Rejected(last)]
        else if last.key in Index(init) then [Duplicate(last.key)]
        else []
  }

  lemma IndexSnoc(checked: seq<Checked>, i: nat)
    requires i < |checked|
    ensures Index(checked[..i + 1]) ==
            if checked[i].Entry? && checked[i].key !in Index(checked[..i])
            then Index(checked[..i])[checked[i].key := Indexed(checked[i].severity, checked[i].expires)]
            else Index(checked[..i])
    ensures IndexFindings(checked[..i + 1]) == IndexFindings(checked[..i]) +
            if !checked[i].Entry? then [Rejected(checked[i])]
            else if checked[i].key in Index(checked[..i]) then [Duplicate(checked[i].key)]
            else []
  {
    assert checked[..i + 1][..i] == checked[..i];
  }

  method BuildIndex(exceptions: seq<Record>, parseDate: DateReader)
    returns (index: map<Key, Indexed>, errors: seq<Finding>)
    ensures index == Index(CheckAll(parseDate, exceptions))
    ensures errors == IndexFindings(CheckAll(parseDate, exceptions))
  {
    ghost var checked := CheckAll(parseDate, exceptions);
    index, errors := map[], [];
    var i := 0;
    while i < |exceptions|
      invariant i <= |exceptions|
      invariant index == Index(checked[..i]) && errors == IndexFindings(checked[..i])
    {
      var exc := exceptions[i];
      IndexSnoc(checked, i);
      assert checked[i] == Check(parseDate, exc);
      i := i + 1;
      if !Complete(exc) {
        errors := errors + [Rejected(MissingFields)];
        continue;
      }
      var severity := Normal(Get(exc, "severity"));
      var package := Strip(Get(exc, "package"));
      var advisory := Normal(Get(exc, "advisory"));
      var date := parseDate(Get(exc, "expires_on"));
      if date.None? {
        errors := errors + [Rejected(InvalidDate)];
        continue;
      }
      if package == "" || advisory == "" {
        errors := errors + [Rejected(BlankKey)];
        continue;
      }
      var key := (package, advisory);
      if key in index {
        errors := errors + [Duplicate(key)];
        continue;
      }
      index := index[key := Indexed(severity, date.value)];
    }
    assert checked[..i] == checked;
  }

  // The scan

  datatype Vuln = Vuln(name: Scalar, severity: Option<string>, advisory: Scalar)

  /** What the scan makes of one reported vulnerability before looking at the others. */
  datatype Found =
    | Minor
    | NoAdvisory(name: string)
    | Serious(key: Key, severity: string)

  function Look(v: Vuln): Found {
    var severity := NormalizeSeverity(v.severity);
    if severity !in HIGH_SEVERITIES || !Truthy(v.name) then Minor
    else if NormalizeAdvisory(v.advisory) == "" then NoAdvisory(Str(v.name))
    else Serious((NormalizePackage(v.name), NormalizeAdvisory(v.advisory)), severity)
  }

  function SeenKeys(found: seq<Found>): set<Key> {
    set i | 0 <= i < |found| && found[i].Serious? :: found[i].key
  }

  /** The last report is serious and no earlier serious one has its key. */
  predicate NewKey(found: seq<Found>) {
    found != [] && var last := found[|found| - 1];
    last.Serious? && last.key !in SeenKeys(found[..|found| - 1])
  }

  predicate Unlisted(index: map<Key, Indexed>, f: Found) {
    f.Serious? && f.key !in index
  }

  predicate Disagrees(index: map<Key, Indexed>, f: Found) {
    f.Serious? && f.key in index && index[f.key].severity != "" && index[f.key].severity != f.severity
  }

  predicate Expired(index: map<Key, Indexed>, today: int, f: Found) {
    f.Serious? && f.key in index && index[f.key].expires < today
  }

  function ScanFindings(index: map<Key, Indexed>, found: seq<Found>): seq<Finding> {
    if found == [] then []
    else
      var init, last := found[..|found| - 1], found[|found| - 1];
      ScanFindings(index, init) +
        if last.NoAdvisory? then [Unidentified(last.name)]
        else if NewKey(found) && Disagrees(index, last) then [Mismatch(last.key)]
        else []
  }

  /** The first reports of the keys no exception lists. */
  function Missing(index: map<Key, Indexed>, found: seq<Found>): seq<Found> {
    if found == [] then []
    else
      var init, last := found[..|found| - 1], found[|found| - 1];
      Missing(index, init) + if NewKey(found) && Unlisted(index, last) then [last] else []
  }

  /** The first reports of the keys whose exception has expired. */
  function Late(index: map<Key, Indexed>, found: seq<Found>, today: int): seq<Found> {
    if found == [] then []
    else
      var init, last := found[..|found| - 1], found[|found| - 1];
      Late(index, init, today) + if NewKey(found) && Expired(index, today, last) then [last] else []
  }

  lemma ScanSnoc(index: map<Key, Indexed>, found: seq<Found>, i: nat, today: int)
    requires i < |found|
    ensures NewKey(found[..i + 1]) <==> found[i].Serious? && found[i].key !in SeenKeys(found[..i])
    ensures SeenKeys(found[..i + 1]) == SeenKeys(found[..i]) + (if found[i].Serious? then {found[i].key} else {})
    ensures ScanFindings(index, found[..i + 1]) == ScanFindings(index, found[..i]) +
            if found[i].NoAdvisory? then [Unidentified(found[i].name)]
            else if NewKey(found[..i + 1]) && Disagrees(index, found[i]) then [Mismatch(found[i].key)]
            else []
    ensures Missing(index, found[..i + 1]) == Missing(index, found[..i]) +
            if NewKey(found[..i + 1]) && Unlisted(index, found[i]) then [found[i]] else []
    ensures Late(index, found[..i + 1], today) == Late(index, found[..i], today) +
            if NewKey(found[..i + 1]) && Expired(index, today, found[i]) then [found[i]] else []
  {
    var before, after := found[..i], found[..i + 1];
    assert after[..i] == before;
    forall k | k in SeenKeys(before)
      ensures k in SeenKeys(after)
    {
      var j :| 0 <= j < |before| && before[j].Serious? && before[j].key == k;
      assert after[j] == before[j];
    }
    if found[i].Serious? {
      assert after[i].key in SeenKeys(after);
    }
  }

  /** The loop's variables once the reports in `found` are done. */
  ghost predicate Scanned(index: map<Key, Indexed>, found: seq<Found>, today: int,
                          seen: set<Key>, errors: seq<Finding>, missing: seq<Found>, expired: seq<Found>) {
    && seen == SeenKeys(found) && errors == ScanFindings(index, found)
    && missing == Missing(index, found) && expired == Late(index, found, today)
  }

  lemma ScanStep(index: map<Key, Indexed>, found: seq<Found>, i: nat, today: int,
                 seen: set<Key>, errors: seq<Finding>, missing: seq<Found>, expired: seq<Found>)
    requires i < |found| && Scanned(index, found[..i], today, seen, errors, missing, expired)
    ensures !found[i].Serious? ==>
              Scanned(index, found[..i + 1], today, seen,
                      errors + (if found[i].NoAdvisory? then [Unidentified(found[i].name)] else []), missing, expired)
    ensures found[i].Serious? && found[i].key in seen ==>
              Scanned(index, found[..i + 1], today, seen, errors, missing, expired)
    ensures found[i].Serious? && found[i].key !in seen ==>
              Scanned(index, found[..i + 1], today, seen + {found[i].key},
                      errors + (if Disagrees(index, found[i]) then [Mismatch(found[i].key)] else []),
                      missing + (if Unlisted(index, found[i]) then [found[i]] else []),
                      expired + (if Expired(index, today, found[i]) then [found[i]] else []))
  {
    ScanSnoc(index, found, i, today);
    assert found[i].Serious? && found[i].key in seen ==> seen + {found[i].key} == seen;
    assert errors + [] == errors && missing + [] == missing && expired + [] == expired;
  }

  method Scan(vulns: seq<Vuln>, index: map<Key, Indexed>, today: int)
    returns (errors: seq<Finding>, missing: seq<Found>, expired: seq<Found>)
    ensures var found := Map(Look, vulns);
            && errors == ScanFindings(index, found)
            && missing == Missing(index, found) && expired == Late(index, found, today)
  {
    ghost var found := Map(Look, vulns);
    errors, missing, expired := [], [], [];
    var seen: set<Key> := {};
    var i := 0;
    while i < |vulns|
      invariant i <= |vulns| && Scanned(index, found[..i], today, seen, errors, missing, expired)
    {
      var v := vulns[i];
      ScanStep(index, found, i, today, seen, errors, missing, expired);
      assert found[i] == Look(v);
      i := i + 1;
      var severity := NormalizeSeverity(v.severity);
      if severity !in HIGH_SEVERITIES || !Truthy(v.name) {
        assert errors + [] == errors;
        continue;
      }
      var advisory := NormalizeAdvisory(v.advisory);
      if advisory == "" {
        errors := errors + [Unidentified(Str(v.name))];
        continue;
      }
      var key := (NormalizePackage(v.name), advisory);
      if key in seen {
        continue;
      }
      seen := seen + {key};
      assert found[i - 1] == Serious(key, severity);
      assert errors + [] == errors && missing + [] == missing && expired + [] == expired;
      if key !in index {
        missing := missing + [Serious(key, severity)];
        continue;
      }
      if index[key].severity != "" && index[key].severity != severity {
        errors := errors + [Mismatch(key)];
      }
      if index[key].expires < today {
        expired := expired + [Serious(key, severity)];
      }
    }
    assert found[..i] == found;
  }

  // The verdict

  function Verdict(checked: seq<Checked>, found: seq<Found>, today: int): int {
    var index := Index(checked);
    if && IndexFindings(checked) == [] && ScanFindings(index, found) == []
       && Missing(index, found) == [] && Late(index, found, today) == []
    then 0
    else 1
  }

  function ExitCode(exceptions: seq<Record>, vulns: seq<Vuln>, today: int, parseDate: DateReader): int {
    Verdict(CheckAll(parseDate, exceptions), Map(Look, vulns), today)
  }

  method Gate(exceptions: seq<Record>, vulns: seq<Vuln>, today: int, parseDate: DateReader) returns (code: int)
    ensures code == ExitCode(exceptions, vulns, today, parseDate)
  {
    var index, errors := BuildIndex(exceptions, parseDate);
    var more, missing, expired := Scan(vulns, index, today);
    code := if errors + more != [] || missing != [] || expired != [] then 1 else 0;
  }
}
