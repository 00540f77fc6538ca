// The two shapes of a pnpm audit report and the vulnerabilities drawn from it.
module AuditReport {
  import opened Prelude
  import opened Picking
  import opened AuditGate

  /** An entry under "advisories"; Null stands for an absent field, [] for absent CVEs. */
  datatype Advisory = Advisory(moduleName: Scalar, name: Scalar, severity: Option<string>,
                               githubAdvisoryID: Scalar, url: Scalar, cves: seq<Scalar>, id: Scalar,
                               title: Scalar, advisory: Scalar, overview: Scalar)

  datatype Item =
    | Dict(githubAdvisoryID: Scalar, url: Scalar, source: Scalar, title: Scalar, name: Scalar)
    | Plain(s: string)
    | Junk

  datatype Via = List(items: seq<Item>) | Single(s: string) | Neither

  /** An entry under "vulnerabilities", with the name it is filed under. */
  datatype Entry = Entry(name: string, severity: Option<string>, via: Via)

  datatype Report = Report(advisories: seq<Advisory>, vulnerabilities: seq<Entry>)

  /** Python's `or`. */
  function Or(a: Scalar, b: Scalar): Scalar {
    if Truthy(a) then a else b
  }

  /** The first CVE, if there is one. */
  function FirstCVE(a: Advisory): Scalar {
    if a.cves == [] then Null else a.cves[0]
  }

  /** The numeric or textual ID, as text, if there is one. */
  function IDText(a: Advisory): Scalar {
    if a.id.Null? then Null else Text(Str(a.id))
  }

  function PickAdvisoryID(a: Advisory): Scalar {
    Or(a.githubAdvisoryID,
       Or(a.url,
          Or(FirstCVE(a),
             Or(IDText(a),
                Or(a.title, Or(a.advisory, a.overview))))))
  }

  /** What Python's `or` passes over: None, the empty string and zero. */
  predicate Blank(x: Scalar) {
    x == Null || x == Text("") || x == Number(0)
  }

  /** `x` is the first candidate that is not blank, or the last one if all are. */
  ghost predicate FirstUsable(candidates: seq<Scalar>, x: Scalar) {
    exists k :: 0 <= k < |candidates| && x == candidates[k] &&
      (forall j :: 0 <= j < k ==> Blank(candidates[j])) && (Blank(x) ==> k == |candidates| - 1)
  }

  lemma OrFirst(a: Scalar, rest: seq<Scalar>, x: Scalar)
    requires FirstUsable(rest, x)
    ensures FirstUsable([a] + rest, Or(a, x))
  {
    var all := [a] + rest;
    if Truthy(a) {
      assert all[0] == a;
    } else {
      var k :| 0 <= k < |rest| && x == rest[k] &&
        (forall j :: 0 <= j < k ==> Blank(rest[j])) && (Blank(x) ==> k == |rest| - 1);
      assert all[k + 1] == x;
      assert forall j :: 1 <= j < k + 1 ==> all[j] == rest[j - 1];
    }
  }

  lemma OrThree(a: Scalar, b: Scalar, c: Scalar, rest: seq<Scalar>, x: Scalar)
    requires FirstUsable(rest, x)
    ensures FirstUsable([a, b, c] + rest, Or(a, Or(b, Or(c, x))))
  {
    OrFirst(c, rest, x);
    OrFirst(b, [c] + rest, Or(c, x));
    OrFirst(a, [b] + ([c] + rest), Or(b, Or(c, x)));
    assert [a] + ([b] + ([c] + rest)) == [a, b, c] + rest;
  }

  lemma OneCandidate(a: Scalar)
    ensures FirstUsable([a], a)
  {
    assert [a][0] == a;
  }

  /** The order of preference among an advisory's fields. */
  lemma PicksInOrder(a: Advisory)
    ensures FirstUsable([a.githubAdvisoryID, a.url, if a.cves == [] then Null else a.cves[0],
                         if a.id == Null then Null else Text(Str(a.id)), a.title, a.advisory, a.overview],
                        PickAdvisoryID(a))
  {
    OneCandidate(a.overview);
    OrThree(IDText(a), a.title, a.advisory, [a.overview], a.overview);
    OrThree(a.githubAdvisoryID, a.url, FirstCVE(a), [IDText(a), a.title, a.advisory] + [a.overview],
            Or(IDText(a), Or(a.title, Or(a.advisory, a.overview))));
    assert [a.githubAdvisoryID, a.url, FirstCVE(a)] + ([IDText(a), a.title, a.advisory] + [a.overview])
        == [a.githubAdvisoryID, a.url, FirstCVE(a), IDText(a), a.title, a.advisory, a.overview];
  }

  /** ... and among the fields of one item under `via`. */
  lemma ItemPicksInOrder(gh: Scalar, url: Scalar, source: Scalar, title: Scalar, name: Scalar)
    ensures var id := ItemID(Dict(gh, url, source, title, name));
            id.Some? && FirstUsable([gh, url, source, title, name], id.value)
  {
    OneCandidate(name);
    OrFirst(title, [name], name);
    OrThree(gh, url, source, [title] + [name], Or(title, name));
    assert [gh, url, source] + ([title] + [name]) == [gh, url, source, title, name];
  }

  /** Some field of the advisory can serve as its identifier. */
  predicate Identifiable(a: Advisory) {
    || Truthy(a.githubAdvisoryID) || Truthy(a.url) || (a.cves != [] && Truthy(a.cves[0]))
    || (!a.id.Null? && Str(a.id) != "") || Truthy(a.title) || Truthy(a.advisory) || Truthy(a.overview)
  }

  lemma PickIsTruthy(a: Advisory)
    ensures Truthy(PickAdvisoryID(a)) <==> Identifiable(a)
  {
  }

  function FromAdvisory(a: Advisory): Vuln {
    Vuln(Or(a.moduleName, a.name), a.severity, PickAdvisoryID(a))
  }

  /** The identifier of one item, if it contributes one at all. */
  function ItemID(item: Item): Option<Scalar> {
    match item
    case Dict(gh, url, source, title, name) => Some(Or(gh, Or(url, Or(source, Or(title, name)))))
    case Plain(s) => Some(Text(s))
    case Junk => None
  }

  function Items(via: Via): seq<Item> {
    match via
    case List(items) => items
    case Single(s) => [Plain(s)]
    case Neither => []
  }

  predicate Names(item: Item) {
    ItemID(item).Some? && Truthy(ItemID(item).value)
  }

  function FromEntry(e: Entry): seq<Vuln> {
    FromItems(e, Items(e.via))
  }

  function FromItems(e: Entry, items: seq<Item>): seq<Vuln> {
    if items == [] then []
    else
      FromItems(e, items[..|items| - 1]) +
        var last := items[|items| - 1];
        if Names(last) then [Vuln(Text(e.name), e.severity, ItemID(last).value)] else []
  }

  function FromEntries(entries: seq<Entry>): seq<Vuln> {
    if entries == [] then [] else FromEntries(entries[..|entries| - 1]) + FromEntry(entries[|entries| - 1])
  }

  function Yielded(report: Report): seq<Vuln> {
    Map(FromAdvisory, report.advisories) + FromEntries(report.vulnerabilities)
  }

  function Kept(e: Entry, advisories: seq<Scalar>): seq<Vuln> {
    if advisories == [] then []
    else
      var last := advisories[|advisories| - 1];
      Kept(e, advisories[..|advisories| - 1]) + if Truthy(last) then [Vuln(Text(e.name), e.severity, last)] else []
  }

  lemma KeptSnoc(e: Entry, advisories: seq<Scalar>, a: Scalar)
    ensures Kept(e, advisories + [a])
         == Kept(e, advisories) + if Truthy(a) then [Vuln(Text(e.name), e.severity, a)] else []
  {
    assert (advisories + [a])[..|advisories|] == advisories;
  }

  lemma FromItemsSnoc(e: Entry, items: seq<Item>, i: nat)
    requires i < |items|
    ensures FromItems(e, items[..i + 1])
         == FromItems(e, items[..i])
            + if Names(items[i]) then [Vuln(Text(e.name), e.severity, ItemID(items[i]).value)] else []
  {
    assert items[..i + 1][..i] == items[..i];
  }

  /** The body of the second loop: collect the identifiers first, then yield those that are not empty. */
  method EntryVulns(e: Entry) returns (vulns: seq<Vuln>)
    ensures vulns == FromEntry(e)
  {
    var items := Items(e.via);
    var advisories: seq<Scalar> := [];
    var i := 0;
    while i < |items|
      invariant i <= |items|
      invariant Kept(e, advisories) == FromItems(e, items[..i])
    {
      FromItemsSnoc(e, items, i);
      var id := ItemID(items[i]);
      if id.Some? {
        KeptSnoc(e, advisories, id.value);
        advisories := advisories + [id.value];
      }
      i := i + 1;
    }
    assert items[..i] == items;
    vulns := [];
    i := 0;
    while i < |advisories|
      invariant i <= |advisories| && vulns == Kept(e, advisories[..i])
    {
      TakeSnoc(advisories, i);
      KeptSnoc(e, advisories[..i], advisories[i]);
      if Truthy(advisories[i]) {
        vulns := vulns + [Vuln(Text(e.name), e.severity, advisories[i])];
      }
      i := i + 1;
    }
    assert advisories[..i] == advisories;
  }

  method AdvisoryVulns(advisories: seq<Advisory>) returns (vulns: seq<Vuln>)
    ensures vulns == Map(FromAdvisory, advisories)
  {
    vulns := [];
    var i := 0;
    while i < |advisories|
      invariant i <= |advisories|
      invariant vulns == Map(FromAdvisory, advisories[..i])
    {
      var a := advisories[i];
      vulns := vulns + [Vuln(Or(a.moduleName, a.name), a.severity, PickAdvisoryID(a))];
      i := i + 1;
    }
    assert advisories[..i] == advisories;
  }

  method IterVulns(report: Report) returns (vulns: seq<Vuln>)
    ensures vulns == Yielded(report)
  {
    vulns := AdvisoryVulns(report.advisories);
    ghost var before := vulns;
    var entries := report.vulnerabilities;
    var i := 0;
    while i < |entries|
      invariant i <= |entries|
      invariant vulns == before + FromEntries(entries[..i])
    {
      assert entries[..i + 1][..i] == entries[..i];
      var more := EntryVulns(entries[i]);
      vulns := vulns + more;
      i := i + 1;
    }
    assert entries[..i] == entries;
  }

  // What is drawn from a report

  lemma {:induction false} FromItemsCovers(e: Entry, items: seq<Item>)
    ensures forall v :: v in FromItems(e, items) <==>
              exists i :: 0 <= i < |items| && Names(items[i]) && v == Vuln(Text(e.name), e.severity, ItemID(items[i]).value)
  {
    if items != [] {
      var init, last := items[..|items| - 1], items[|items| - 1];
      FromItemsCovers(e, init);
      assert items == init + [last];
      assert forall i :: 0 <= i < |init| ==> items[i] == init[i];
      assert items[|init|] == last;
    }
  }

  predicate Draws(e: Entry, v: Vuln) {
    v in FromEntry(e)
  }

  lemma {:induction false} FromEntriesCovers(entries: seq<Entry>, v: Vuln)
    ensures v in FromEntries(entries) <==> exists i :: 0 <= i < |entries| && Draws(entries[i], v)
  {
    if entries != [] {
      var init, last := entries[..|entries| - 1], entries[|entries| - 1];
      FromEntriesCovers(init, v);
      assert forall i :: 0 <= i < |init| ==> entries[i] == init[i];
      assert v in FromEntries(entries) <==> v in FromEntries(init) || Draws(last, v);
    }
  }

  /** An advisory's vulnerability, field by field. */
  ghost predicate OfAdvisory(a: Advisory, v: Vuln) {
    v.severity == a.severity && FirstUsable([a.moduleName, a.name], v.name) &&
    FirstUsable([a.githubAdvisoryID, a.url, if a.cves == [] then Null else a.cves[0],
                 if a.id == Null then Null else Text(Str(a.id)), a.title, a.advisory, a.overview], v.advisory)
  }

  /** One item's identifier: the first usable field of a dict, or a plain string. */
  ghost predicate IdentifiedBy(item: Item, id: Scalar) {
    match item
    case Dict(gh, url, source, title, name) => FirstUsable([gh, url, source, title, name], id)
    case Plain(s) => id == Text(s)
    case Junk => false
  }

  /** The vulnerability of one item, which must not be blank. */
  ghost predicate OfItem(e: Entry, item: Item, v: Vuln) {
    v.name == Text(e.name) && v.severity == e.severity && !Blank(v.advisory) && IdentifiedBy(item, v.advisory)
  }

  /** Drawn from an entry: one item of its list, or the one string it gives instead. */
  ghost predicate OfEntry(e: Entry, v: Vuln) {
    match e.via
    case List(items) => exists j :: 0 <= j < |items| && OfItem(e, items[j], v)
    case Single(s) => s != "" && v == Vuln(Text(e.name), e.severity, Text(s))
    case Neither => false
  }

  lemma OneUsable(candidates: seq<Scalar>, x: Scalar, y: Scalar)
    requires FirstUsable(candidates, x) && FirstUsable(candidates, y)
    ensures x == y
  {
    var k :| 0 <= k < |candidates| && x == candidates[k] &&
      (forall j :: 0 <= j < k ==> Blank(candidates[j])) && (Blank(x) ==> k == |candidates| - 1);
    var l :| 0 <= l < |candidates| && y == candidates[l] &&
      (forall j :: 0 <= j < l ==> Blank(candidates[j])) && (Blank(y) ==> l == |candidates| - 1);
    if k < l {
      assert Blank(x);
    } else if l < k {
      assert Blank(y);
    }
  }

  lemma AdvisoryExact(a: Advisory, v: Vuln)
    ensures v == FromAdvisory(a) <==> OfAdvisory(a, v)
  {
    var it := FromAdvisory(a);
    PicksInOrder(a);
    OneCandidate(a.name);
    OrFirst(a.moduleName, [a.name], a.name);
    assert [a.moduleName] + [a.name] == [a.moduleName, a.name];
    if OfAdvisory(a, v) {
      OneUsable([a.moduleName, a.name], v.name, it.name);
      OneUsable([a.githubAdvisoryID, a.url, if a.cves == [] then Null else a.cves[0],
                 if a.id == Null then Null else Text(Str(a.id)), a.title, a.advisory, a.overview],
                v.advisory, it.advisory);
    }
  }

  lemma ItemExact(e: Entry, item: Item, v: Vuln)
    ensures Names(item) && v == Vuln(Text(e.name), e.severity, ItemID(item).value) <==> OfItem(e, item, v)
  {
    if item.Dict? {
      ItemPicksInOrder(item.githubAdvisoryID, item.url, item.source, item.title, item.name);
      if OfItem(e, item, v) {
        OneUsable([item.githubAdvisoryID, item.url, item.source, item.title, item.name],
                  v.advisory, ItemID(item).value);
      }
    }
  }

  lemma EntryExact(e: Entry, v: Vuln)
    ensures v in FromEntry(e) <==> OfEntry(e, v)
  {
    var items := Items(e.via);
    FromItemsCovers(e, items);
    forall j | 0 <= j < |items|
      ensures Names(items[j]) && v == Vuln(Text(e.name), e.severity, ItemID(items[j]).value) <==> OfItem(e, items[j], v)
    {
      ItemExact(e, items[j], v);
    }
    if e.via.Single? {
      assert items[0] == Plain(e.via.s);
    }
  }

  /**
   * The gate sees every advisory, and of every other entry exactly the items that name
   * something, each under the first of its fields that can serve, in the order of
   * preference written out above.
   */
  lemma YieldedExact(report: Report, v: Vuln)
    ensures v in Yielded(report) <==>
            || (exists i :: 0 <= i < |report.advisories| && OfAdvisory(report.advisories[i], v))
            || (exists i :: 0 <= i < |report.vulnerabilities| && OfEntry(report.vulnerabilities[i], v))
  {
    var direct := Map(FromAdvisory, report.advisories);
    assert v in direct <==> exists i :: 0 <= i < |direct| && v == direct[i];
    FromEntriesCovers(report.vulnerabilities, v);
    forall i | 0 <= i < |report.advisories|
      ensures v == direct[i] <==> OfAdvisory(report.advisories[i], v)
    {
      AdvisoryExact(report.advisories[i], v);
    }
    forall i | 0 <= i < |report.vulnerabilities|
      ensures Draws(report.vulnerabilities[i], v) <==> OfEntry(report.vulnerabilities[i], v)
    {
      EntryExact(report.vulnerabilities[i], v);
    }
  }

  function Drawn(e: Entry): Item -> Vuln {
    item => Vuln(Text(e.name), e.severity, if ItemID(item).Some? then ItemID(item).value else Null)
  }

  lemma {:induction false} ItemsInOrder(e: Entry, items: seq<Item>)
    ensures Picks(items, Names, Drawn(e), FromItems(e, items))
  {
    if items == [] {
      PicksNothing(Names, Drawn(e));
    } else {
      var init, last := items[..|items| - 1], items[|items| - 1];
      assert items == init + [last];
      ItemsInOrder(e, init);
      PicksSnoc(init, last, Names, Drawn(e), FromItems(e, init));
    }
  }

  lemma {:induction false} EntriesAppend(a: seq<Entry>, b: seq<Entry>)
    ensures FromEntries(a + b) == FromEntries(a) + FromEntries(b)
    decreases |b|
  {
    if b == [] {
      assert a + b == a;
    } else {
      var init, last := b[..|b| - 1], b[|b| - 1];
      assert b == init + [last] && a + b == (a + init) + [last];
      EntriesAppend(a, init);
      EntriesSnoc(init, last);
      EntriesSnoc(a + init, last);
      JoinRight(FromEntries(a), FromEntries(init), FromEntry(last));
    }
  }

  lemma EntriesSnoc(entries: seq<Entry>, e: Entry)
    ensures FromEntries(entries + [e]) == FromEntries(entries) + FromEntry(e)
  {
    assert (entries + [e])[..|entries|] == entries;
  }

  lemma JoinRight(a: seq<Vuln>, b: seq<Vuln>, c: seq<Vuln>)
    ensures a + (b + c) == a + b + c
  {
  }

  /**
   * The order of what is drawn, which decides between two severities of one key: first
   * the advisories one by one, then entry after entry, each entry's items in its order.
   */
  lemma YieldsInOrder(report: Report, k: nat)
    requires k < |report.vulnerabilities|
    ensures |report.advisories| <= |Yielded(report)|
    ensures forall i :: 0 <= i < |report.advisories| ==> OfAdvisory(report.advisories[i], Yielded(report)[i])
    ensures var entries := report.vulnerabilities;
            Yielded(report)[|report.advisories|..]
            == FromEntries(entries[..k]) + FromEntry(entries[k]) + FromEntries(entries[k + 1..])
    ensures var e := report.vulnerabilities[k];
            e.via.List? ==> Picks(e.via.items, Names, Drawn(e), FromEntry(e))
  {
    var entries := report.vulnerabilities;
    forall i | 0 <= i < |report.advisories|
      ensures OfAdvisory(report.advisories[i], Yielded(report)[i])
    {
      AdvisoryExact(report.advisories[i], FromAdvisory(report.advisories[i]));
    }
    assert entries == (entries[..k] + [entries[k]]) + entries[k + 1..];
    EntriesAppend(entries[..k] + [entries[k]], entries[k + 1..]);
    EntriesSnoc(entries[..k], entries[k]);
    ItemsInOrder(entries[k], Items(entries[k].via));
  }

  /**
   * An entry under "vulnerabilities" is drawn from exactly when one of its
   * items names something; an advisory always is, and without an identifier
   * it still reaches the gate, which then rejects it if it is serious.
   */
  lemma SilentEntries(e: Entry, a: Advisory)
    ensures FromEntry(e) == [] <==> forall i :: 0 <= i < |Items(e.via)| ==> !Names(Items(e.via)[i])
    ensures !Identifiable(a) ==> !Truthy(FromAdvisory(a).advisory)
  {
    FromItemsCovers(e, Items(e.via));
    PickIsTruthy(a);
    if FromEntry(e) != [] {
      assert FromEntry(e)[0] in FromEntry(e);
    }
    forall i | 0 <= i < |Items(e.via)| && Names(Items(e.via)[i])
      ensures FromEntry(e) != []
    {
      assert Vuln(Text(e.name), e.severity, ItemID(Items(e.via)[i]).value) in FromItems(e, Items(e.via));
    }
  }
}
