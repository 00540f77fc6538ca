// What the gate decides: its indexed, deduplicated loop against a rule stated
// over all pairs of exceptions and vulnerabilities, and how the verdict moves
// with the order of its inputs, with time and with more vulnerabilities.
module AuditGateLaws {
  import opened Prelude
  import opened AuditParser
  import opened AuditGate

  // The loops, declaratively

  ghost predicate AllEntries(checked: seq<Checked>) {
    forall i :: 0 <= i < |checked| ==> checked[i].Entry?
  }

  ghost predicate KeysDiffer(checked: seq<Checked>) {
    forall i, j :: 0 <= i < j < |checked| && checked[i].Entry? && checked[j].Entry? ==>
      checked[i].key != checked[j].key
  }

  ghost predicate ListsKey(c: Checked, k: Key) {
    c.Entry? && c.key == k
  }

  /** The index holds, for every key that has an entry, the entry that came first. */
  lemma {:induction false} IndexExact(checked: seq<Checked>, k: Key)
    ensures k in Index(checked) <==> exists i :: 0 <= i < |checked| && ListsKey(checked[i], k)
    ensures k in Index(checked) ==>
              exists i :: 0 <= i < |checked| && ListsKey(checked[i], k)
                && (forall j :: 0 <= j < i ==> !ListsKey(checked[j], k))
                && Index(checked)[k] == Indexed(checked[i].severity, checked[i].expires)
  {
    if checked != [] {
      var n := |checked| - 1;
      var init := checked[..n];
      IndexExact(init, k);
      assert forall i :: 0 <= i < n ==> init[i] == checked[i];
      if k in Index(init) {
        var i :| 0 <= i < n && ListsKey(init[i], k) && (forall j :: 0 <= j < i ==> !ListsKey(init[j], k))
          && Index(init)[k] == Indexed(init[i].severity, init[i].expires);
        assert ListsKey(checked[i], k) && forall j :: 0 <= j < i ==> !ListsKey(checked[j], k);
        assert Index(checked)[k] == Index(init)[k];
      } else if ListsKey(checked[n], k) {
        assert forall j :: 0 <= j < n ==> !ListsKey(checked[j], k);
      }
    }
  }

  lemma {:induction false} IndexFindingsExact(checked: seq<Checked>)
    ensures IndexFindings(checked) == [] <==> AllEntries(checked) && KeysDiffer(checked)
  {
    if checked != [] {
      var n := |checked| - 1;
      var init, last := checked[..n], checked[n];
      assert checked == init + [last];
      IndexFindingsExact(init);
      if last.Entry? {
        IndexExact(init, last.key);
      }
      KeysDifferSnoc(init, last);
    }
  }

  lemma KeysDifferSnoc(init: seq<Checked>, last: Checked)
    ensures KeysDiffer(init + [last]) <==>
            KeysDiffer(init) && (last.Entry? ==> forall i :: 0 <= i < |init| ==> !ListsKey(init[i], last.key))
  {
    var all := init + [last];
    assert forall i :: 0 <= i < |init| ==> all[i] == init[i];
    assert all[|init|] == last;
  }

  /** What the first loop reports: each rejected exception with its reason, and each key used again. */
  lemma {:induction false} IndexFindingsCover(checked: seq<Checked>)
    ensures forall why :: Rejected(why) in IndexFindings(checked) <==> why in checked && !why.Entry?
    ensures forall k :: Duplicate(k) in IndexFindings(checked) <==> Twice(checked, k)
  {
    if checked != [] {
      var n := |checked| - 1;
      var init, last := checked[..n], checked[n];
      assert checked == init + [last];
      IndexFindingsCover(init);
      forall k
        ensures Duplicate(k) in IndexFindings(checked) <==> Twice(checked, k)
      {
        IndexExact(init, k);
        DuplicateSnoc(init, last, k);
      }
    }
  }

  ghost predicate Twice(checked: seq<Checked>, k: Key) {
    exists i, j :: 0 <= i < j < |checked| && ListsKey(checked[i], k) && ListsKey(checked[j], k)
  }

  lemma DuplicateSnoc(init: seq<Checked>, last: Checked, k: Key)
    ensures Twice(init + [last], k) <==>
            Twice(init, k) || (ListsKey(last, k) && exists i :: 0 <= i < |init| && ListsKey(init[i], k))
  {
    var all := init + [last];
    assert forall i :: 0 <= i < |init| ==> all[i] == init[i];
    assert all[|init|] == last;
    if Twice(init, k) {
      var i, j :| 0 <= i < j < |init| && ListsKey(init[i], k) && ListsKey(init[j], k);
      assert ListsKey(all[i], k) && ListsKey(all[j], k);
    }
    if ListsKey(last, k) && exists i :: 0 <= i < |init| && ListsKey(init[i], k) {
      var i :| 0 <= i < |init| && ListsKey(init[i], k);
      assert ListsKey(all[i], k) && ListsKey(all[|init|], k);
    }
  }

  /** Report `i` is the first serious one of its key. */
  ghost predicate First(found: seq<Found>, i: nat)
    requires i < |found|
  {
    found[i].Serious? && forall j :: 0 <= j < i && found[j].Serious? ==> found[j].key != found[i].key
  }

  lemma SeenKeysExact(found: seq<Found>, k: Key)
    ensures k in SeenKeys(found) <==> exists i :: 0 <= i < |found| && found[i].Serious? && found[i].key == k
  {
  }

  lemma NewKeyIsFirst(found: seq<Found>)
    requires found != []
    ensures NewKey(found) <==> First(found, |found| - 1)
  {
  }

  lemma FirstPrefix(found: seq<Found>, n: nat, i: nat)
    requires i < n <= |found|
    ensures First(found[..n], i) <==> First(found, i)
  {
  }

  /** Report `i` gives the scan nothing to complain about directly. */
  ghost predicate Fine(index: map<Key, Indexed>, found: seq<Found>, i: nat)
    requires i < |found|
  {
    !found[i].NoAdvisory? && (First(found, i) ==> !Disagrees(index, found[i]))
  }

  lemma {:induction false} ScanFindingsExact(index: map<Key, Indexed>, found: seq<Found>)
    ensures ScanFindings(index, found) == [] <==> forall i :: 0 <= i < |found| ==> Fine(index, found, i)
  {
    if found != [] {
      var n := |found| - 1;
      ScanFindingsExact(index, found[..n]);
      NewKeyIsFirst(found);
      assert ScanFindings(index, found) == [] <==> ScanFindings(index, found[..n]) == [] && Fine(index, found, n);
      forall i | 0 <= i < n
        ensures Fine(index, found[..n], i) <==> Fine(index, found, i)
      {
        FirstPrefix(found, n, i);
      }
    }
  }

  /** Every key met has a first report. */
  lemma FirstOf(found: seq<Found>, i: nat) returns (first: nat)
    requires i < |found| && found[i].Serious?
    ensures first <= i && First(found, first) && found[first].key == found[i].key
  {
    first := i;
    while !First(found, first)
      invariant first <= i && found[first].Serious? && found[first].key == found[i].key
      decreases first
    {
      var j :| 0 <= j < first && found[j].Serious? && found[j].key == found[first].key;
      first := j;
    }
  }

  lemma SeenKeysSnoc(s: seq<Found>, f: Found)
    ensures SeenKeys(s + [f]) == SeenKeys(s) + (if f.Serious? then {f.key} else {})
  {
    var all := s + [f];
    forall k | k in SeenKeys(s)
      ensures k in SeenKeys(all)
    {
      var i :| 0 <= i < |s| && s[i].Serious? && s[i].key == k;
      assert all[i] == s[i];
    }
    if f.Serious? {
      assert all[|s|].key in SeenKeys(all);
    }
  }

  lemma GrowByOne(s: seq<Found>, f: Found)
    requires f.Serious? && f.key !in SeenKeys(s) && |s| == |SeenKeys(s)|
    ensures |s + [f]| == |SeenKeys(s + [f])|
  {
    SeenKeysSnoc(s, f);
  }

  /** The first report of its key names another severity than the exception does. */
  ghost predicate Clashes(index: map<Key, Indexed>, found: seq<Found>, i: nat, k: Key)
    requires i < |found|
  {
    First(found, i) && found[i].key == k && k in index && index[k].severity != "" && index[k].severity != found[i].severity
  }

  ghost predicate SomeClash(index: map<Key, Indexed>, found: seq<Found>, k: Key) {
    exists i :: 0 <= i < |found| && Clashes(index, found, i, k)
  }

  lemma ClashEarlier(index: map<Key, Indexed>, init: seq<Found>, last: Found, i: nat, k: Key)
    requires i < |init|
    ensures Clashes(index, init + [last], i, k) <==> Clashes(index, init, i, k)
  {
    var found := init + [last];
    assert found[..|init|] == init && found[i] == init[i];
    FirstPrefix(found, |init|, i);
  }

  lemma ClashLast(index: map<Key, Indexed>, init: seq<Found>, last: Found, k: Key)
    ensures Clashes(index, init + [last], |init|, k) <==>
            NewKey(init + [last]) && Disagrees(index, last) && last.key == k
  {
    var found := init + [last];
    assert found[|init|] == last;
    NewKeyIsFirst(found);
  }

  lemma ClashSnoc(index: map<Key, Indexed>, init: seq<Found>, last: Found, k: Key)
    ensures SomeClash(index, init + [last], k) <==>
            SomeClash(index, init, k) || (NewKey(init + [last]) && Disagrees(index, last) && last.key == k)
  {
    ClashLast(index, init, last, k);
    forall i | 0 <= i < |init|
      ensures Clashes(index, init + [last], i, k) <==> Clashes(index, init, i, k)
    {
      ClashEarlier(index, init, last, i, k);
    }
    if SomeClash(index, init, k) {
      var i :| 0 <= i < |init| && Clashes(index, init, i, k);
      assert Clashes(index, init + [last], i, k);
    }
  }

  /** What the second loop adds to the errors: each unidentified report, and each clash of severities. */
  lemma {:induction false} ScanFindingsCover(index: map<Key, Indexed>, found: seq<Found>, name: string, k: Key)
    ensures Unidentified(name) in ScanFindings(index, found) <==> NoAdvisory(name) in found
    ensures Mismatch(k) in ScanFindings(index, found) <==> SomeClash(index, found, k)
  {
    if found != [] {
      var init, last := found[..|found| - 1], found[|found| - 1];
      assert found == init + [last];
      ScanFindingsCover(index, init, name, k);
      ClashSnoc(index, init, last, k);
    }
  }

  /** What is reported missing or expired are reports, with their own severity. */
  lemma {:induction false} ReportedAreReports(index: map<Key, Indexed>, found: seq<Found>, today: int, f: Found)
    ensures f in Missing(index, found) || f in Late(index, found, today) ==> f in found
  {
    if found != [] {
      ReportedAreReports(index, found[..|found| - 1], today, f);
      assert found == found[..|found| - 1] + [found[|found| - 1]];
    }
  }

  /** A key is reported missing exactly when a serious report has it and no exception does. */
  lemma {:induction false} MissingExact(index: map<Key, Indexed>, found: seq<Found>, k: Key)
    ensures k in SeenKeys(Missing(index, found)) <==> k in SeenKeys(found) && k !in index
  {
    if found != [] {
      var init, last := found[..|found| - 1], found[|found| - 1];
      MissingExact(index, init, k);
      assert found == init + [last];
      SeenKeysSnoc(init, last);
      if NewKey(found) && Unlisted(index, last) {
        SeenKeysSnoc(Missing(index, init), last);
      } else {
        assert Missing(index, found) == Missing(index, init);
      }
    }
  }

  /** A key is reported expired exactly when a serious report has it and its exception is past. */
  lemma {:induction false} LateExact(index: map<Key, Indexed>, found: seq<Found>, today: int, k: Key)
    ensures k in SeenKeys(Late(index, found, today)) <==>
            k in SeenKeys(found) && k in index && index[k].expires < today
  {
    if found != [] {
      var init, last := found[..|found| - 1], found[|found| - 1];
      LateExact(index, init, today, k);
      assert found == init + [last];
      SeenKeysSnoc(init, last);
      if NewKey(found) && Expired(index, today, last) {
        SeenKeysSnoc(Late(index, init, today), last);
      } else {
        assert Late(index, found, today) == Late(index, init, today);
      }
    }
  }

  /** However often a key is met, it is reported at most once. */
  lemma {:induction false} ReportedOnce(index: map<Key, Indexed>, found: seq<Found>, today: int)
    ensures |Missing(index, found)| == |SeenKeys(Missing(index, found))|
    ensures |Late(index, found, today)| == |SeenKeys(Late(index, found, today))|
  {
    if found != [] {
      var init, last := found[..|found| - 1], found[|found| - 1];
      ReportedOnce(index, init, today);
      if NewKey(found) && Unlisted(index, last) {
        MissingExact(index, init, last.key);
        GrowByOne(Missing(index, init), last);
      } else {
        assert Missing(index, found) == Missing(index, init);
      }
      if NewKey(found) && Expired(index, today, last) {
        LateExact(index, init, today, last.key);
        GrowByOne(Late(index, init, today), last);
      } else {
        assert Late(index, found, today) == Late(index, init, today);
      }
    }
  }

  lemma NothingReported(index: map<Key, Indexed>, found: seq<Found>, today: int)
    ensures Missing(index, found) == [] <==> forall k :: k in SeenKeys(found) ==> k in index
    ensures Late(index, found, today) == [] <==>
            forall k :: k in SeenKeys(found) && k in index ==> today <= index[k].expires
  {
    ReportedOnce(index, found, today);
    assert Missing(index, found) == [] <==> SeenKeys(Missing(index, found)) == {};
    assert Late(index, found, today) == [] <==> SeenKeys(Late(index, found, today)) == {};
    forall k
      ensures k in SeenKeys(Missing(index, found)) <==> k in SeenKeys(found) && k !in index
      ensures k in SeenKeys(Late(index, found, today)) <==>
              k in SeenKeys(found) && k in index && index[k].expires < today
    {
      MissingExact(index, found, k);
      LateExact(index, found, today, k);
    }
  }

  // The verdict against the rule

  ghost predicate Unexpired(c: Checked, f: Found, today: int) {
    c.Entry? && f.Serious? && c.key == f.key && today <= c.expires
  }

  /** A blank severity in an exception stands for any. */
  predicate SeverityFits(c: Checked, f: Found) {
    c.Entry? && f.Serious? && (c.severity == "" || c.severity == f.severity)
  }

  /** Some exception is for this report. */
  ghost predicate Covered(checked: seq<Checked>, f: Found, today: int) {
    exists j :: 0 <= j < |checked| && Unexpired(checked[j], f, today) && SeverityFits(checked[j], f)
  }

  ghost predicate Allowed(checked: seq<Checked>, f: Found, today: int) {
    !f.NoAdvisory? && (f.Serious? ==> Covered(checked, f, today))
  }

  /** The rule, over all pairs: no index, no deduplication, no order. */
  ghost predicate Accepts(checked: seq<Checked>, found: seq<Found>, today: int) {
    && AllEntries(checked) && KeysDiffer(checked)
    && forall i :: 0 <= i < |found| ==> Allowed(checked, found[i], today)
  }

  /** What the loops accept: only the first report of a key has its severity looked at. */
  ghost predicate LoopAccepts(checked: seq<Checked>, found: seq<Found>, today: int) {
    && AllEntries(checked) && KeysDiffer(checked)
    && (forall i :: 0 <= i < |found| ==> !found[i].NoAdvisory?)
    && (forall i :: 0 <= i < |found| && found[i].Serious? ==>
          exists j :: 0 <= j < |checked| && Unexpired(checked[j], found[i], today)
                      && (First(found, i) ==> SeverityFits(checked[j], found[i])))
  }

  lemma IndexedUniquely(checked: seq<Checked>, j: nat)
    requires AllEntries(checked) && KeysDiffer(checked) && j < |checked|
    ensures checked[j].key in Index(checked)
    ensures Index(checked)[checked[j].key] == Indexed(checked[j].severity, checked[j].expires)
  {
    var k := checked[j].key;
    assert ListsKey(checked[j], k);
    IndexExact(checked, k);
    var i :| 0 <= i < |checked| && ListsKey(checked[i], k) && (forall h :: 0 <= h < i ==> !ListsKey(checked[h], k))
      && Index(checked)[k] == Indexed(checked[i].severity, checked[i].expires);
    assert i == j;
  }

  lemma PassIsLoopAccepts(checked: seq<Checked>, found: seq<Found>, today: int)
    requires Verdict(checked, found, today) == 0
    ensures LoopAccepts(checked, found, today)
  {
    var index := Index(checked);
    IndexFindingsExact(checked);
    ScanFindingsExact(index, found);
    NothingReported(index, found, today);
    forall i | 0 <= i < |found|
      ensures !found[i].NoAdvisory?
      ensures found[i].Serious? ==>
                exists j :: 0 <= j < |checked| && Unexpired(checked[j], found[i], today)
                            && (First(found, i) ==> SeverityFits(checked[j], found[i]))
    {
      assert Fine(index, found, i);
      if found[i].Serious? {
        var k := found[i].key;
        assert k in SeenKeys(found);
        IndexExact(checked, k);
        var j :| 0 <= j < |checked| && ListsKey(checked[j], k);
        IndexedUniquely(checked, j);
        assert Unexpired(checked[j], found[i], today);
      }
    }
  }

  lemma LoopAcceptsIsPass(checked: seq<Checked>, found: seq<Found>, today: int)
    requires LoopAccepts(checked, found, today)
    ensures Verdict(checked, found, today) == 0
  {
    var index := Index(checked);
    forall i | 0 <= i < |found|
      ensures Fine(index, found, i)
      ensures found[i].Serious? ==> found[i].key in index && today <= index[found[i].key].expires
    {
      if found[i].Serious? {
        var j :| 0 <= j < |checked| && Unexpired(checked[j], found[i], today)
          && (First(found, i) ==> SeverityFits(checked[j], found[i]));
        IndexedUniquely(checked, j);
      }
    }
    IndexFindingsExact(checked);
    ScanFindingsExact(index, found);
    NothingReported(index, found, today);
    forall k | k in SeenKeys(found)
      ensures k in index && today <= index[k].expires
    {
      SeenKeysExact(found, k);
    }
  }

  /** For all inputs, what exit code 0 means. */
  lemma VerdictExact(checked: seq<Checked>, found: seq<Found>, today: int)
    ensures Verdict(checked, found, today) == 0 <==> LoopAccepts(checked, found, today)
  {
    if Verdict(checked, found, today) == 0 {
      PassIsLoopAccepts(checked, found, today);
    }
    if LoopAccepts(checked, found, today) {
      LoopAcceptsIsPass(checked, found, today);
    }
  }

  /** All serious reports of one key carry the same severity. */
  ghost predicate OneSeverity(found: seq<Found>) {
    forall i, j :: 0 <= i < j < |found| && found[i].Serious? && found[j].Serious? && found[i].key == found[j].key ==>
      found[i].severity == found[j].severity
  }

  /** Whatever the rule accepts passes; with one severity per key, nothing else does. */
  lemma VerdictMeetsRule(checked: seq<Checked>, found: seq<Found>, today: int)
    ensures Accepts(checked, found, today) ==> Verdict(checked, found, today) == 0
    ensures OneSeverity(found) ==> (Verdict(checked, found, today) == 0 <==> Accepts(checked, found, today))
  {
    VerdictExact(checked, found, today);
    if LoopAccepts(checked, found, today) && OneSeverity(found) {
      forall i | 0 <= i < |found| && found[i].Serious?
        ensures Covered(checked, found[i], today)
      {
        var first := FirstOf(found, i);
        var j :| 0 <= j < |checked| && Unexpired(checked[j], found[first], today)
          && (First(found, first) ==> SeverityFits(checked[j], found[first]));
        assert found[first].severity == found[i].severity;
        assert Unexpired(checked[j], found[i], today) && SeverityFits(checked[j], found[i]);
      }
    }
  }

  // Time and growth

  /** A file that passes on some day passed on every earlier day. */
  lemma EarlierPasses(checked: seq<Checked>, found: seq<Found>, today: int, earlier: int)
    requires Verdict(checked, found, today) == 0 && earlier <= today
    ensures Verdict(checked, found, earlier) == 0
  {
    VerdictExact(checked, found, today);
    VerdictExact(checked, found, earlier);
    forall i | 0 <= i < |found| && found[i].Serious?
      ensures exists j :: 0 <= j < |checked| && Unexpired(checked[j], found[i], earlier)
                          && (First(found, i) ==> SeverityFits(checked[j], found[i]))
    {
      var j :| 0 <= j < |checked| && Unexpired(checked[j], found[i], today)
        && (First(found, i) ==> SeverityFits(checked[j], found[i]));
      assert Unexpired(checked[j], found[i], earlier);
    }
  }

  /** Reports added at the end never turn a failure into a pass. */
  lemma MoreReportsFail(checked: seq<Checked>, found: seq<Found>, more: seq<Found>, today: int)
    requires Verdict(checked, found + more, today) == 0
    ensures Verdict(checked, found, today) == 0
  {
    var all := found + more;
    VerdictExact(checked, all, today);
    VerdictExact(checked, found, today);
    assert all[..|found|] == found;
    assert forall i :: 0 <= i < |found| ==> all[i] == found[i];
    forall i | 0 <= i < |found| && found[i].Serious?
      ensures exists j :: 0 <= j < |checked| && Unexpired(checked[j], found[i], today)
                          && (First(found, i) ==> SeverityFits(checked[j], found[i]))
    {
      FirstPrefix(all, |found|, i);
      var j :| 0 <= j < |checked| && Unexpired(checked[j], all[i], today)
        && (First(all, i) ==> SeverityFits(checked[j], all[i]));
      assert Unexpired(checked[j], found[i], today);
    }
  }

  ghost predicate Among(some: seq<Found>, all: seq<Found>) {
    forall i :: 0 <= i < |some| ==> some[i] in all
  }

  /** The rule only asks which reports there are: dropping some, or repeating or moving them, cannot break it. */
  lemma RuleOnSubset(checked: seq<Checked>, some: seq<Found>, all: seq<Found>, today: int)
    requires Among(some, all) && Accepts(checked, all, today)
    ensures Accepts(checked, some, today)
  {
  }

  /** With one severity per key, a pass stays a pass for any part of the reports, in any order. */
  lemma FewerReportsPass(checked: seq<Checked>, some: seq<Found>, all: seq<Found>, today: int)
    requires Among(some, all) && OneSeverity(all)
    requires Verdict(checked, all, today) == 0
    ensures Verdict(checked, some, today) == 0
  {
    VerdictMeetsRule(checked, all, today);
    RuleOnSubset(checked, some, all, today);
    VerdictMeetsRule(checked, some, today);
  }

  // Order

  lemma TwoOccurrences<A>(s: seq<A>, i: nat, j: nat)
    requires i < j < |s| && s[i] == s[j]
    ensures multiset(s)[s[i]] >= 2
  {
    assert s == s[..j] + s[j..];
    assert s[i] in s[..j] && s[i] in s[j..] by {
      assert s[..j][i] == s[i] && s[j..][0] == s[j];
    }
    assert multiset(s) == multiset(s[..j]) + multiset(s[j..]);
  }

  lemma OccursTwice<A>(s: seq<A>, x: A) returns (i: nat, j: nat)
    requires multiset(s)[x] >= 2
    ensures i < j < |s| && s[i] == s[j] == x
  {
    i :| 0 <= i < |s| && s[i] == x;
    var before, after := s[..i], s[i + 1..];
    assert s == before + [x] + after;
    assert multiset(s) == multiset(before) + multiset{x} + multiset(after);
    if x in before {
      var h :| 0 <= h < |before| && before[h] == x;
      assert s[h] == x;
      i, j := h, i;
    } else {
      assert x in multiset(after);
      var h :| 0 <= h < |after| && after[h] == x;
      assert s[i + 1 + h] == x;
      j := i + 1 + h;
    }
  }

  lemma PermutedKeysDiffer(a: seq<Checked>, b: seq<Checked>)
    requires multiset(a) == multiset(b) && AllEntries(a) && KeysDiffer(a)
    ensures AllEntries(b) && KeysDiffer(b)
  {
    forall i | 0 <= i < |b|
      ensures b[i].Entry?
    {
      assert b[i] in multiset(b);
      assert b[i] in a;
    }
    forall i, j | 0 <= i < j < |b|
      ensures b[i].key != b[j].key
    {
      assert b[i] in multiset(b) && b[j] in multiset(b);
      assert b[i] in a && b[j] in a;
      if b[i] == b[j] {
        TwoOccurrences(b, i, j);
        var p, q := OccursTwice(a, b[i]);
        assert false;
      } else {
        var p: nat :| p < |a| && a[p] == b[i];
        var q: nat :| q < |a| && a[q] == b[j];
        assert p < q || q < p;
      }
    }
  }

  lemma RuleIgnoresOrder(a: seq<Checked>, b: seq<Checked>, found: seq<Found>, other: seq<Found>, today: int)
    requires multiset(a) == multiset(b) && Among(other, found)
    requires Accepts(a, found, today)
    ensures Accepts(b, other, today)
  {
    RuleOnSubset(a, other, found, today);
    PermutedKeysDiffer(a, b);
    forall i | 0 <= i < |other| && other[i].Serious?
      ensures Covered(b, other[i], today)
    {
      var j :| 0 <= j < |a| && Unexpired(a[j], other[i], today) && SeverityFits(a[j], other[i]);
      assert a[j] in multiset(a);
      assert a[j] in b;
      var h :| 0 <= h < |b| && b[h] == a[j];
      assert Unexpired(b[h], other[i], today);
    }
  }

  lemma OneSeverityOfSubset(some: seq<Found>, all: seq<Found>)
    requires Among(some, all) && OneSeverity(all)
    ensures OneSeverity(some)
  {
  }

  /** With one severity per key, the order of both inputs does not matter, nor do repeated reports. */
  lemma VerdictIgnoresOrder(a: seq<Checked>, b: seq<Checked>, found: seq<Found>, other: seq<Found>, today: int)
    requires multiset(a) == multiset(b) && Among(other, found) && Among(found, other)
    requires OneSeverity(found)
    ensures Verdict(a, found, today) == Verdict(b, other, today)
  {
    OneSeverityOfSubset(other, found);
    VerdictMeetsRule(a, found, today);
    VerdictMeetsRule(b, other, today);
    if Accepts(a, found, today) {
      RuleIgnoresOrder(a, b, found, other, today);
    }
    if Accepts(b, other, today) {
      RuleIgnoresOrder(b, a, other, found, today);
    }
  }

  /** Which keys are reported missing or expired never depends on the order of the reports. */
  lemma MissingAndExpiredIgnoreOrder(index: map<Key, Indexed>, found: seq<Found>, other: seq<Found>, today: int)
    requires Among(other, found) && Among(found, other)
    ensures SeenKeys(Missing(index, found)) == SeenKeys(Missing(index, other))
    ensures SeenKeys(Late(index, found, today)) == SeenKeys(Late(index, other, today))
  {
    forall k
      ensures k in SeenKeys(Missing(index, found)) <==> k in SeenKeys(Missing(index, other))
      ensures k in SeenKeys(Late(index, found, today)) <==> k in SeenKeys(Late(index, other, today))
    {
      MissingExact(index, found, k);
      MissingExact(index, other, k);
      LateExact(index, found, today, k);
      LateExact(index, other, today, k);
      assert k in SeenKeys(found) <==> k in SeenKeys(other) by {
        SeenAmong(found, other, k);
        SeenAmong(other, found, k);
      }
    }
  }

  lemma SeenAmong(some: seq<Found>, all: seq<Found>, k: Key)
    requires Among(some, all)
    ensures k in SeenKeys(some) ==> k in SeenKeys(all)
  {
  }

  /**
   * Two severities under one key: the order of the reports decides. The later
   * one is never compared, so this passes one way round and fails the other.
   */
  lemma SecondSeverityIsSkipped(k: Key, today: int)
    ensures var listed := [Checked.Entry(k, "high", today)];
            var high, critical := Serious(k, "high"), Serious(k, "critical");
            && Verdict(listed, [high, critical], today) == 0
            && Verdict(listed, [critical, high], today) == 1
            && !Accepts(listed, [high, critical], today)
            && Verdict(listed, [critical], today) == 1
  {
    var listed := [Checked.Entry(k, "high", today)];
    var high, critical := Serious(k, "high"), Serious(k, "critical");
    assert "high"[0] != "critical"[0];
    VerdictExact(listed, [high, critical], today);
    VerdictExact(listed, [critical, high], today);
    VerdictExact(listed, [critical], today);
    assert Unexpired(listed[0], high, today) && SeverityFits(listed[0], high);
    assert First([critical, high], 0) && First([critical], 0);
    assert !First([high, critical], 1) by {
      assert [high, critical][0].key == [high, critical][1].key;
    }
  }
}
